/** The memory tracer's pointer cache, on the sequence of its slots in search order, and the finite
    map it stands for. */
module PtrSlots {
  import opened Options
  import opened RcuList

  const TABLE_SIZE := 32

  type Slots = seq<PtrInfo>

  function Blank(): PtrInfo {
    PtrInfo(0, 0, false)
  }

  function BlankTable(): (t: Slots)
    ensures |t| == TABLE_SIZE
  {
    seq(TABLE_SIZE, _ => Blank())
  }

  /** Free slots are blank, used ones hold a pointer, and no pointer is held twice. */
  ghost predicate Tidy(s: Slots) {
    && (forall k | 0 <= k < |s| :: if s[k].used then s[k].ptr != 0 else s[k] == Blank())
    && (forall j, k | 0 <= j < k < |s| :: s[j].used && s[k].used ==> s[j].ptr != s[k].ptr)
  }

  // ----- the operations -----------------------------------------------------------------------

  /** rcu_find_free_slot */
  function FindFree(s: Slots, i: nat := 0): (r: Option<nat>)
    requires i <= |s|
    ensures r.Some? ==> i <= r.value < |s| && !s[r.value].used && forall k | i <= k < r.value :: s[k].used
    ensures r.None? ==> forall k | i <= k < |s| :: s[k].used
    decreases |s| - i
  {
    if i == |s| then None else if !s[i].used then Some(i) else FindFree(s, i + 1)
  }

  /** rcu_srch_ptr_info */
  function FindPtr(s: Slots, p: nat, i: nat := 0): (r: Option<nat>)
    requires i <= |s|
    ensures r.Some? ==> i <= r.value < |s| && s[r.value].ptr == p && forall k | i <= k < r.value :: s[k].ptr != p
    ensures r.None? ==> forall k | i <= k < |s| :: s[k].ptr != p
    decreases |s| - i
  {
    if i == |s| then None else if s[i].ptr == p then Some(i) else FindPtr(s, p, i + 1)
  }

  /** The slots after a table could or could not be added. */
  function Grown(s: Slots, tableOk: bool): Slots {
    if tableOk then s + BlankTable() else s
  }

  datatype Outcome = Outcome(ok: bool, slots: Slots)

  /** rcu_cache_ptr; `tableOk` is whether a new table can be allocated. */
  function Cache(s: Slots, p: nat, size: nat, tableOk: bool): Outcome {
    if p == 0 || FindPtr(s, p).Some? then Outcome(false, s)
    else
      var g := if FindFree(s).Some? then s else Grown(s, tableOk);
      match FindFree(g)
      case None => Outcome(false, g)
      case Some(k) => Outcome(true, g[k := PtrInfo(p, size, true)])
  }

  /** rcu_uncache_ptr */
  function Uncache(s: Slots, p: nat): Outcome {
    if p == 0 then Outcome(false, s)
    else
      match FindPtr(s, p)
      case None => Outcome(false, s)
      case Some(k) => Outcome(true, s[k := Blank()])
  }

  function Count(s: Slots): nat {
    if s == [] then 0 else Count(s[..|s| - 1]) + if s[|s| - 1].used then 1 else 0
  }

  function Bytes(s: Slots): nat {
    if s == [] then 0 else Bytes(s[..|s| - 1]) + if s[|s| - 1].used then s[|s| - 1].size else 0
  }

  // ----- the map ------------------------------------------------------------------------------

  /** What the slots hold: pointer to size. */
  ghost function Live(s: Slots): map<nat, nat> {
    if s == [] then map[]
    else
      var e := s[|s| - 1];
      if e.used then Live(s[..|s| - 1])[e.ptr := e.size] else Live(s[..|s| - 1])
  }

  ghost function Sum(m: map<nat, nat>): nat
    decreases |m|
  {
    if m == map[] then 0
    else
      var k :| k in m;
      m[k] + Sum(m - {k})
  }

  lemma {:induction false} SumWith(m: map<nat, nat>, k: nat)
    requires k in m
    ensures Sum(m) == m[k] + Sum(m - {k})
    decreases |m|
  {
    var j :| j in m && Sum(m) == m[j] + Sum(m - {j});
    if j != k {
      SumWith(m - {j}, k);
      SumWith(m - {k}, j);
      assert m - {j} - {k} == m - {k} - {j};
    }
  }

  /** A pointer is in the map exactly if a slot holds it, with that slot's size. */
  lemma {:induction false} LiveHolds(s: Slots)
    requires Tidy(s)
    ensures forall k | 0 <= k < |s| :: s[k].used ==> s[k].ptr in Live(s) && Live(s)[s[k].ptr] == s[k].size
    ensures forall p | p in Live(s) :: exists k :: 0 <= k < |s| && s[k].used && s[k].ptr == p
  {
    if s != [] {
      var n := |s| - 1;
      LiveHolds(s[..n]);
      forall k | 0 <= k < |s| && s[k].used
        ensures s[k].ptr in Live(s) && Live(s)[s[k].ptr] == s[k].size
      {
        assert k < n ==> s[..n][k] == s[k];
      }
      forall p | p in Live(s)
        ensures exists k :: 0 <= k < |s| && s[k].used && s[k].ptr == p
      {
        if s[n].used && s[n].ptr == p {
          assert s[n].used && s[n].ptr == p;
        } else {
          assert p in Live(s[..n]);
          var k :| 0 <= k < |s[..n]| && s[..n][k].used && s[..n][k].ptr == p;
          assert s[k].used && s[k].ptr == p;
        }
      }
    }
  }

  lemma MapWith(m: map<nat, nat>, k: nat, v: nat)
    requires k !in m
    ensures |m[k := v]| == |m| + 1 && Sum(m[k := v]) == Sum(m) + v
  {
    assert m[k := v].Keys == m.Keys + {k};
    SumWith(m[k := v], k);
    assert m[k := v] - {k} == m;
  }

  /** The number of used slots is the size of the map, and their bytes its sum. */
  lemma {:induction false} CountIsSize(s: Slots)
    requires Tidy(s)
    ensures Count(s) == |Live(s)| && Bytes(s) == Sum(Live(s))
  {
    if s != [] {
      var n := |s| - 1;
      CountIsSize(s[..n]);
      if s[n].used {
        assert s[n].ptr !in Live(s[..n]) by {
          LiveHolds(s[..n]);
        }
        MapWith(Live(s[..n]), s[n].ptr, s[n].size);
      }
    }
  }

  lemma {:induction false} CountFull(s: Slots)
    requires forall k | 0 <= k < |s| :: s[k].used
    ensures Count(s) == |s|
  {
    if s != [] {
      CountFull(s[..|s| - 1]);
    }
  }

  lemma {:induction false} CountNotFull(s: Slots, k: nat)
    requires k < |s| && !s[k].used
    ensures Count(s) < |s|
  {
    if k < |s| - 1 {
      CountNotFull(s[..|s| - 1], k);
    } else {
      CountAtMost(s[..|s| - 1]);
    }
  }

  lemma {:induction false} CountAtMost(s: Slots)
    ensures Count(s) <= |s|
  {
    if s != [] {
      CountAtMost(s[..|s| - 1]);
    }
  }

  /** Two tidy sequences that hold the same pointers with the same sizes have the same map. */
  lemma SameHoldings(s: Slots, m: map<nat, nat>)
    requires Tidy(s)
    requires forall k | 0 <= k < |s| :: s[k].used ==> s[k].ptr in m && m[s[k].ptr] == s[k].size
    requires forall p | p in m :: exists k :: 0 <= k < |s| && s[k].used && s[k].ptr == p
    ensures Live(s) == m
  {
    LiveHolds(s);
  }

  lemma LivePut(s: Slots, k: nat, p: nat, size: nat)
    requires Tidy(s) && k < |s| && !s[k].used && p != 0 && FindPtr(s, p).None?
    ensures Tidy(s[k := PtrInfo(p, size, true)])
    ensures Live(s[k := PtrInfo(p, size, true)]) == Live(s)[p := size]
  {
    var r, m := s[k := PtrInfo(p, size, true)], Live(s)[p := size];
    LiveHolds(s);
    forall q | q in m
      ensures exists j :: 0 <= j < |r| && r[j].used && r[j].ptr == q
    {
      if q == p {
        assert r[k].used && r[k].ptr == q;
      } else {
        var j :| 0 <= j < |s| && s[j].used && s[j].ptr == q;
        assert r[j] == s[j];
      }
    }
    SameHoldings(r, m);
  }

  lemma LiveClear(s: Slots, k: nat)
    requires Tidy(s) && k < |s| && s[k].used
    ensures Tidy(s[k := Blank()])
    ensures Live(s[k := Blank()]) == Live(s) - {s[k].ptr}
  {
    var r, m := s[k := Blank()], Live(s) - {s[k].ptr};
    LiveHolds(s);
    forall q | q in m
      ensures exists j :: 0 <= j < |r| && r[j].used && r[j].ptr == q
    {
      var j :| 0 <= j < |s| && s[j].used && s[j].ptr == q;
      assert r[j] == s[j];
    }
    SameHoldings(r, m);
  }

  lemma LiveGrown(s: Slots)
    requires Tidy(s)
    ensures Tidy(s + BlankTable()) && Live(s + BlankTable()) == Live(s)
  {
    var r := s + BlankTable();
    LiveHolds(s);
    forall q | q in Live(s)
      ensures exists j :: 0 <= j < |r| && r[j].used && r[j].ptr == q
    {
      var j :| 0 <= j < |s| && s[j].used && s[j].ptr == q;
      assert r[j] == s[j];
    }
    SameHoldings(r, Live(s));
  }

  // ----- refinement ---------------------------------------------------------------------------

  /** The cache as its users see it: the live pointers, the number of tables and the most pointers
      that were ever live at once. */
  datatype Ledger = Ledger(live: map<nat, nat>, tables: nat, peak: nat, first: nat)

  /** A cache that was initialised with or without its first table. */
  function Opening(firstOk: bool): Ledger {
    if firstOk then Ledger(map[], 1, 0, 1) else Ledger(map[], 0, 0, 0)
  }

  function FirstSlots(firstOk: bool): Slots {
    if firstOk then BlankTable() else []
  }

  datatype Op = Alloc(p: nat, size: nat, tableOk: bool) | Free(p: nat)

  function Max(a: nat, b: nat): nat {
    if a > b then a else b
  }

  /** An allocation is recorded unless the pointer is null or already live, or there is neither
      room nor a new table; freeing an unknown pointer does nothing. */
  ghost function Record(g: Ledger, op: Op): Ledger {
    match op
    case Alloc(p, size, tableOk) =>
      var full := |g.live| == TABLE_SIZE * g.tables;
      if p == 0 || p in g.live || (full && !tableOk) then g
      else Ledger(g.live[p := size], if full then g.tables + 1 else g.tables, Max(g.peak, |g.live| + 1), g.first)
    case Free(p) => g.(live := g.live - {p})
  }

  function Perform(s: Slots, op: Op): Slots {
    match op
    case Alloc(p, size, tableOk) => Cache(s, p, size, tableOk).slots
    case Free(p) => Uncache(s, p).slots
  }

  ghost predicate Refines(s: Slots, g: Ledger) {
    && Tidy(s) && Live(s) == g.live && |s| == 32 * g.tables
    && |g.live| <= g.peak <= TABLE_SIZE * g.tables
    && g.first <= g.tables && (g.tables > g.first ==> g.peak > TABLE_SIZE * (g.tables - 1))
  }

  lemma FindPtrIsLive(s: Slots, p: nat)
    requires Tidy(s) && p != 0
    ensures FindPtr(s, p).Some? <==> p in Live(s)
    ensures FindPtr(s, p).Some? ==> s[FindPtr(s, p).value].used
  {
    LiveHolds(s);
  }

  lemma FindFreeIsRoom(s: Slots)
    requires Tidy(s)
    ensures FindFree(s).None? <==> |Live(s)| == |s|
  {
    CountIsSize(s);
    if FindFree(s).None? {
      CountFull(s);
    } else {
      CountNotFull(s, FindFree(s).value);
    }
  }

  lemma CacheRefines(s: Slots, g: Ledger, p: nat, size: nat, tableOk: bool)
    requires Refines(s, g)
    ensures Refines(Cache(s, p, size, tableOk).slots, Record(g, Alloc(p, size, tableOk)))
  {
    if p != 0 {
      FindPtrIsLive(s, p);
    }
    if p != 0 && p !in g.live {
      FindFreeIsRoom(s);
      if FindFree(s).Some? {
        LivePut(s, FindFree(s).value, p, size);
      } else if tableOk {
        LiveGrown(s);
        var r := s + BlankTable();
        assert !r[|s|].used;
        FindPtrIsLive(r, p);
        LivePut(r, FindFree(r).value, p, size);
      }
      assert |g.live[p := size]| == |g.live| + 1 by {
        assert g.live[p := size].Keys == g.live.Keys + {p};
      }
    }
  }

  lemma UncacheRefines(s: Slots, g: Ledger, p: nat)
    requires Refines(s, g)
    ensures Refines(Uncache(s, p).slots, Record(g, Free(p)))
  {
    LiveHolds(s);
    if p != 0 {
      FindPtrIsLive(s, p);
    }
    if p != 0 && p in g.live {
      LiveClear(s, FindPtr(s, p).value);
      assert (g.live - {p}).Keys <= g.live.Keys;
      assert |(g.live - {p}).Keys| <= |g.live.Keys| by {
        assert g.live.Keys == (g.live - {p}).Keys + {p};
      }
    } else {
      assert g.live - {p} == g.live;
    }
  }

  function RunSlots(s: Slots, ops: seq<Op>): Slots {
    if ops == [] then s else Perform(RunSlots(s, ops[..|ops| - 1]), ops[|ops| - 1])
  }

  ghost function RunLedger(g: Ledger, ops: seq<Op>): Ledger {
    if ops == [] then g else Record(RunLedger(g, ops[..|ops| - 1]), ops[|ops| - 1])
  }

  ghost function Ceil(x: nat): nat {
    (x + TABLE_SIZE - 1) / TABLE_SIZE
  }

  lemma StepRefines(s: Slots, g: Ledger, op: Op)
    requires Refines(s, g)
    ensures Refines(Perform(s, op), Record(g, op))
  {
    match op {
      case Alloc(p, size, tableOk) => CacheRefines(s, g, p, size, tableOk);
      case Free(p) => UncacheRefines(s, g, p);
    }
  }

  lemma {:induction false} RunRefines(s: Slots, g: Ledger, ops: seq<Op>)
    requires Refines(s, g)
    ensures Refines(RunSlots(s, ops), RunLedger(g, ops))
  {
    if ops != [] {
      RunRefines(s, g, ops[..|ops| - 1]);
      StepRefines(RunSlots(s, ops[..|ops| - 1]), RunLedger(g, ops[..|ops| - 1]), ops[|ops| - 1]);
    }
  }

  lemma FreshRefines(firstOk: bool)
    ensures Refines(FirstSlots(firstOk), Opening(firstOk))
  {
    SameHoldings(FirstSlots(firstOk), map[]);
  }

  /** For every sequence of allocations and frees the cache is the finite map: the leak count and
      bytes are the size and the sum of the map, and there are as many tables as the peak needs, or
      the first one. */
  lemma CacheIsMap(firstOk: bool, ops: seq<Op>)
    ensures var s, g := RunSlots(FirstSlots(firstOk), ops), RunLedger(Opening(firstOk), ops);
            && Live(s) == g.live
            && Count(s) == |g.live| && Bytes(s) == Sum(g.live)
            && g.tables == Max(if firstOk then 1 else 0, Ceil(g.peak)) && |s| == 32 * g.tables
  {
    FreshRefines(firstOk);
    FirstStays(Opening(firstOk), ops);
    RunRefines(FirstSlots(firstOk), Opening(firstOk), ops);
    CountIsSize(RunSlots(FirstSlots(firstOk), ops));
  }

  lemma {:induction false} FirstStays(g: Ledger, ops: seq<Op>)
    ensures RunLedger(g, ops).first == g.first
  {
    if ops != [] {
      FirstStays(g, ops[..|ops| - 1]);
    }
  }

  // ----- tables -------------------------------------------------------------------------------

  /** rcu_pointer_table: a table has a fixed number of slots. */
  type Table = t: Slots | |t| == TABLE_SIZE witness seq(TABLE_SIZE, _ => PtrInfo(0, 0, false))

  /** The slots of the tables in search order. */
  function Flat(ts: seq<Table>): Slots {
    if ts == [] then [] else Flat(ts[..|ts| - 1]) + ts[|ts| - 1]
  }

  lemma {:induction false} FlatAt(ts: seq<Table>, i: nat, a: nat)
    requires i < |ts| && a < TABLE_SIZE
    ensures |Flat(ts)| == TABLE_SIZE * |ts| && Flat(ts)[TABLE_SIZE * i + a] == ts[i][a]
  {
    var n := |ts| - 1;
    FlatLength(ts[..n]);
    if i < n {
      FlatAt(ts[..n], i, a);
    }
  }

  lemma {:induction false} FlatLength(ts: seq<Table>)
    ensures |Flat(ts)| == TABLE_SIZE * |ts|
  {
    if ts != [] {
      FlatLength(ts[..|ts| - 1]);
    }
  }

  function Stored(ts: seq<Table>, i: nat, a: nat, info: PtrInfo): seq<Table>
    requires i < |ts| && a < |ts[i]|
  {
    ts[i := ts[i][a := info]]
  }

  lemma FlatStored(ts: seq<Table>, i: nat, a: nat, info: PtrInfo)
    requires i < |ts| && a < TABLE_SIZE
    ensures |Flat(ts)| == TABLE_SIZE * |ts|
    ensures Flat(Stored(ts, i, a, info)) == Flat(ts)[TABLE_SIZE * i + a := info]
  {
    var us := Stored(ts, i, a, info);
    FlatLength(ts);
    FlatLength(us);
    forall k | 0 <= k < |Flat(ts)|
      ensures Flat(us)[k] == Flat(ts)[TABLE_SIZE * i + a := info][k]
    {
      FlatStoredAt(ts, i, a, info, k);
    }
  }

  lemma FlatStoredAt(ts: seq<Table>, i: nat, a: nat, info: PtrInfo, k: nat)
    requires i < |ts| && a < TABLE_SIZE && k < TABLE_SIZE * |ts|
    ensures |Flat(ts)| == |Flat(Stored(ts, i, a, info))| == TABLE_SIZE * |ts|
    ensures Flat(Stored(ts, i, a, info))[k] == if k == TABLE_SIZE * i + a then info else Flat(ts)[k]
  {
    var us, j, b := Stored(ts, i, a, info), k / TABLE_SIZE, k % TABLE_SIZE;
    FlatLength(ts);
    FlatLength(us);
    FlatAt(ts, j, b);
    FlatAt(us, j, b);
    assert k == TABLE_SIZE * j + b;
  }

  lemma FlatGrown(ts: seq<Table>)
    ensures Flat(ts + [BlankTable()]) == Flat(ts) + BlankTable()
  {
  }

  /** The search from slot `a` of table `i` on, table by table. */
  function FreeFrom(ts: seq<Table>, i: nat, a: nat): (r: Option<(nat, nat)>)
    requires i <= |ts| && a <= TABLE_SIZE
    ensures r.Some? ==> r.value.0 < |ts| && r.value.1 < TABLE_SIZE
    decreases |ts| - i, TABLE_SIZE - a
  {
    if i == |ts| then None
    else if a == TABLE_SIZE then FreeFrom(ts, i + 1, 0)
    else if !ts[i][a].used then Some((i, a))
    else FreeFrom(ts, i, a + 1)
  }

  function PtrFrom(ts: seq<Table>, p: nat, i: nat, a: nat): (r: Option<(nat, nat)>)
    requires i <= |ts| && a <= TABLE_SIZE
    ensures r.Some? ==> r.value.0 < |ts| && r.value.1 < TABLE_SIZE
    decreases |ts| - i, TABLE_SIZE - a
  {
    if i == |ts| then None
    else if a == TABLE_SIZE then PtrFrom(ts, p, i + 1, 0)
    else if ts[i][a].ptr == p then Some((i, a))
    else PtrFrom(ts, p, i, a + 1)
  }

  datatype TablesOutcome = TablesOutcome(ok: bool, tables: seq<Table>)

  /** The tables that the second search for a free slot looks through. */
  function WithRoom(ts: seq<Table>, tableOk: bool): (us: seq<Table>)
  {
    if FreeFrom(ts, 0, 0).Some? || !tableOk then ts else ts + [BlankTable()]
  }

  /** Cache and Uncache, table by table. */
  function CacheIn(ts: seq<Table>, p: nat, size: nat, tableOk: bool): TablesOutcome
  {
    if p == 0 || PtrFrom(ts, p, 0, 0).Some? then TablesOutcome(false, ts)
    else
      var us := WithRoom(ts, tableOk);
      match FreeFrom(us, 0, 0)
      case None => TablesOutcome(false, us)
      case Some(ia) => TablesOutcome(true, Stored(us, ia.0, ia.1, PtrInfo(p, size, true)))
  }

  function UncacheIn(ts: seq<Table>, p: nat): TablesOutcome
  {
    if p == 0 then TablesOutcome(false, ts)
    else
      match PtrFrom(ts, p, 0, 0)
      case None => TablesOutcome(false, ts)
      case Some(ia) => TablesOutcome(true, Stored(ts, ia.0, ia.1, Blank()))
  }

  lemma CacheInIsCache(ts: seq<Table>, p: nat, size: nat, tableOk: bool)
    ensures var r := CacheIn(ts, p, size, tableOk);
            Outcome(r.ok, Flat(r.tables)) == Cache(Flat(ts), p, size, tableOk)
  {
    PtrFromIsFindPtr(ts, p, 0, 0);
    if p != 0 && PtrFrom(ts, p, 0, 0).None? {
      RoomIsGrown(ts, tableOk);
      var us := WithRoom(ts, tableOk);
      FreeFromIsFindFree(us, 0, 0);
      var r := FreeFrom(us, 0, 0);
      assert FindFree(Flat(us)) == Position(r);
      if r.Some? {
        FlatStored(us, r.value.0, r.value.1, PtrInfo(p, size, true));
      }
    }
  }

  lemma RoomIsGrown(ts: seq<Table>, tableOk: bool)
    ensures Flat(WithRoom(ts, tableOk))
         == if FindFree(Flat(ts)).Some? then Flat(ts) else Grown(Flat(ts), tableOk)
  {
    FreeFromIsFindFree(ts, 0, 0);
    FlatGrown(ts);
  }

  lemma UncacheInIsUncache(ts: seq<Table>, p: nat)
    ensures var r := UncacheIn(ts, p);
            Outcome(r.ok, Flat(r.tables)) == Uncache(Flat(ts), p)
  {
    PtrFromIsFindPtr(ts, p, 0, 0);
    if PtrFrom(ts, p, 0, 0).Some? {
      FlatStored(ts, PtrFrom(ts, p, 0, 0).value.0, PtrFrom(ts, p, 0, 0).value.1, Blank());
    }
  }

  function Position(r: Option<(nat, nat)>): Option<nat> {
    match r
    case None => None
    case Some(ia) => Some(TABLE_SIZE * ia.0 + ia.1)
  }

  lemma {:induction false} FreeFromIsFindFree(ts: seq<Table>, i: nat, a: nat)
    requires i <= |ts| && a <= TABLE_SIZE && (i == |ts| ==> a == 0)
    ensures |Flat(ts)| == TABLE_SIZE * |ts|
    ensures FindFree(Flat(ts), TABLE_SIZE * i + a) == Position(FreeFrom(ts, i, a))
    decreases |ts| - i, TABLE_SIZE - a
  {
    FlatLength(ts);
    if i < |ts| {
      if a == TABLE_SIZE {
        FreeFromIsFindFree(ts, i + 1, 0);
      } else {
        FlatAt(ts, i, a);
        FreeFromIsFindFree(ts, i, a + 1);
      }
    }
  }

  lemma {:induction false} PtrFromIsFindPtr(ts: seq<Table>, p: nat, i: nat, a: nat)
    requires i <= |ts| && a <= TABLE_SIZE && (i == |ts| ==> a == 0)
    ensures |Flat(ts)| == TABLE_SIZE * |ts|
    ensures FindPtr(Flat(ts), p, TABLE_SIZE * i + a) == Position(PtrFrom(ts, p, i, a))
    decreases |ts| - i, TABLE_SIZE - a
  {
    FlatLength(ts);
    if i < |ts| {
      if a == TABLE_SIZE {
        PtrFromIsFindPtr(ts, p, i + 1, 0);
      } else {
        FlatAt(ts, i, a);
        PtrFromIsFindPtr(ts, p, i, a + 1);
      }
    }
  }
}
