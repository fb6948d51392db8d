/** The pointer cache of rcunit/src/rcunit_mtrace.c on its ring of tables.

    The ghost fields are the ring, header first, and the contents of its tables. Each method changes
    the contents as the operations of module PtrSlots say. */
module PtrCache {
  import opened Options
  import opened RcuList
  import opened PtrSlots

  /** The tables linked after the header hold `tables`. */
  ghost predicate Laid(ring: seq<Link>, tables: seq<Table>)
    reads ring`tbl
  {
    && |ring| == |tables| + 1
    && forall i | 1 <= i < |ring| :: ring[i].tbl == tables[i - 1]
  }

  lemma LaidGrows(ring: seq<Link>, tables: seq<Table>, link: Link)
    requires Laid(ring, tables) && link.tbl == BlankTable()
    ensures Laid(ring + [link], tables + [BlankTable()])
  {
  }

  lemma LaidStored(ring: seq<Link>, tables: seq<Table>, i: nat, a: nat, info: PtrInfo)
    requires |ring| == |tables| + 1 && i < |tables| && a < TABLE_SIZE
    requires ring[i + 1].tbl == tables[i][a := info]
    requires forall k | 1 <= k < |ring| && k != i + 1 :: ring[k].tbl == tables[k - 1]
    ensures Laid(ring, Stored(tables, i, a, info))
  {
  }

  class Cache {
    const head: Link
    var nrTables: nat
    var nrFreeCounter: nat
    var nrAlloc: nat
    var nrFree: nat
    var maxAllocSize: nat
    var totalAllocSize: nat
    ghost var ring: seq<Link>
    ghost var tables: seq<Table>

    ghost predicate Valid()
      reads this`ring, this`tables, this`nrTables, ring
    {
      Ring(ring) && ring[0] == head && InUse(ring) && nrTables == |tables| && Laid(ring, tables)
    }

    /** rcu_init_ptr_cache, which fails exactly if the first table cannot be allocated. */
    constructor (tableOk: bool)
      ensures Valid() && tables == if tableOk then [BlankTable()] else []
      ensures nrFreeCounter == 0 && nrAlloc == 0 && nrFree == 0
      ensures forall k | 0 <= k < |ring| :: fresh(ring[k])
    {
      var h := new Link([]);
      head := h;
      nrTables, nrFreeCounter, nrAlloc, nrFree, maxAllocSize, totalAllocSize := 0, 0, 0, 0, 0, 0;
      ring, tables := [h], [];
      new;
      InitList(head);
      var _ := CreateTable(tableOk);
    }

    /** rcu_find_free_slot: the first free slot, as the link of its table and its index. */
    method FindFreeSlot() returns (t: Link?, a: nat, ghost i: nat)
      requires Valid()
      ensures t == null <==> FreeFrom(tables, 0, 0).None?
      ensures t != null ==> i < |tables| && t == ring[i + 1] && FreeFrom(tables, 0, 0) == Some((i, a))
    {
      var cursor := head.next;
      i := 0;
      while cursor != head
        invariant i <= |tables| && cursor == After(ring, i)
        invariant FreeFrom(tables, 0, 0) == FreeFrom(tables, i, 0)
        decreases |tables| - i
      {
        assert cursor == ring[i + 1];
        a := 0;
        while a < TABLE_SIZE
          invariant a <= TABLE_SIZE
          invariant FreeFrom(tables, 0, 0) == FreeFrom(tables, i, a)
        {
          assert cursor.tbl == tables[i];
          if !cursor.tbl[a].used {
            return cursor, a, i;
          }
          a := a + 1;
        }
        cursor := cursor.next;
        i := i + 1;
      }
      BackAtHeader(ring, i);
      return null, 0, 0;
    }

    /** rcu_srch_ptr_info */
    method SearchPtr(p: nat) returns (t: Link?, a: nat, ghost i: nat)
      requires Valid()
      ensures t == null <==> PtrFrom(tables, p, 0, 0).None?
      ensures t != null ==> i < |tables| && t == ring[i + 1] && PtrFrom(tables, p, 0, 0) == Some((i, a))
    {
      var cursor := head.next;
      i := 0;
      while cursor != head
        invariant i <= |tables| && cursor == After(ring, i)
        invariant PtrFrom(tables, p, 0, 0) == PtrFrom(tables, p, i, 0)
        decreases |tables| - i
      {
        assert cursor == ring[i + 1];
        a := 0;
        while a < TABLE_SIZE
          invariant a <= TABLE_SIZE
          invariant PtrFrom(tables, p, 0, 0) == PtrFrom(tables, p, i, a)
        {
          assert cursor.tbl == tables[i];
          if cursor.tbl[a].ptr == p {
            return cursor, a, i;
          }
          a := a + 1;
        }
        cursor := cursor.next;
        i := i + 1;
      }
      BackAtHeader(ring, i);
      return null, 0, 0;
    }

    /** A store into one slot of one table. */
    method Put(t: Link, a: nat, ghost i: nat, info: PtrInfo)
      requires Valid() && i < |tables| && t == ring[i + 1] && a < TABLE_SIZE
      modifies this`tables, t`tbl
      ensures Valid() && tables == Stored(old(tables), i, a, info)
    {
      forall k | 0 <= k < |ring| && ring[k] == t
        ensures k == i + 1
      {
        Unique(ring, k, i + 1);
      }
      t.tbl := t.tbl[a := info];
      LaidStored(ring, tables, i, a, info);
      tables := Stored(tables, i, a, info);
    }

    /** A blank table takes its place at the end of the ring. */
    method Append(link: Link)
      requires Valid() && link !in ring && link.tbl == BlankTable() && !link.freed
      modifies this`nrTables, this`ring, this`tables, ring`next, ring`prev, link`next, link`prev
      ensures Valid() && ring == old(ring) + [link] && tables == old(tables) + [BlankTable()]
    {
      InsertList(head, link, ring);
      LaidGrows(ring, tables, link);
      ring, tables := ring + [link], tables + [BlankTable()];
      nrTables := nrTables + 1;
    }

    /** rcu_cre_ptr_tbl: a new table of free slots at the end of the ring. */
    method CreateTable(tableOk: bool) returns (ok: bool)
      requires Valid()
      modifies this`nrTables, this`ring, this`tables, ring`next, ring`prev
      ensures Valid() && ok == tableOk
      ensures tables == if tableOk then old(tables) + [BlankTable()] else old(tables)
      ensures forall k | 0 <= k < |ring| :: ring[k] in old(ring) || fresh(ring[k])
    {
      if !tableOk {
        return false;
      }
      var link := new Link(BlankTable());
      InitList(link);
      Append(link);
      return true;
    }

    /** The two searches of rcu_cache_ptr for a free slot, with a new table between them. */
    method FindOrMakeSlot(tableOk: bool) returns (t: Link?, a: nat, ghost i: nat)
      requires Valid()
      modifies this`nrTables, this`ring, this`tables, ring`next, ring`prev
      ensures Valid() && tables == WithRoom(old(tables), tableOk)
      ensures t == null <==> FreeFrom(tables, 0, 0).None?
      ensures t != null ==> i < |tables| && t == ring[i + 1] && FreeFrom(tables, 0, 0) == Some((i, a))
      ensures forall k | 0 <= k < |ring| :: ring[k] in old(ring) || fresh(ring[k])
    {
      t, a, i := FindFreeSlot();
      if t != null {
        assert t in ring;
        return;
      }
      var _ := CreateTable(tableOk);
      t, a, i := FindFreeSlot();
      assert t != null ==> t in ring;
    }

    /** rcu_cache_ptr */
    method CachePtr(p: nat, size: nat, tableOk: bool) returns (ok: bool)
      requires Valid()
      modifies this`nrTables, this`ring, this`tables, ring
      ensures Valid() && TablesOutcome(ok, tables) == CacheIn(old(tables), p, size, tableOk)
      ensures forall k | 0 <= k < |ring| :: ring[k] in old(ring) || fresh(ring[k])
    {
      if p == 0 {
        return false;
      }
      var t, a, i := SearchPtr(p);
      if t != null {
        return false;
      }
      t, a, i := FindOrMakeSlot(tableOk);
      if t == null {
        return false;
      }
      Put(t, a, i, PtrInfo(p, size, true));
      return true;
    }

    /** rcu_uncache_ptr; table compaction is switched off in the source. */
    method UncachePtr(p: nat) returns (ok: bool)
      requires Valid()
      modifies this`tables, this`nrFreeCounter, ring
      ensures Valid() && TablesOutcome(ok, tables) == UncacheIn(old(tables), p)
      ensures nrFreeCounter == if !ok then old(nrFreeCounter)
                               else if old(nrFreeCounter) + 1 == TABLE_SIZE then 0 else old(nrFreeCounter) + 1
    {
      if p == 0 {
        return false;
      }
      var t, a, i := SearchPtr(p);
      if t == null {
        return false;
      }
      Put(t, a, i, Blank());
      nrFreeCounter := nrFreeCounter + 1;
      if nrFreeCounter == TABLE_SIZE {
        nrFreeCounter := 0;
      }
      return true;
    }

    /** rcu_trace_alloc_impl counts every call, recorded or not. */
    method TraceAlloc(p: nat, size: nat, tableOk: bool)
      requires Valid()
      modifies this`nrTables, this`ring, this`tables, this`nrAlloc, this`maxAllocSize, this`totalAllocSize, ring
      ensures Valid() && Flat(tables) == Perform(Flat(old(tables)), Op.Alloc(p, size, tableOk))
      ensures forall k | 0 <= k < |ring| :: ring[k] in old(ring) || fresh(ring[k])
      ensures nrAlloc == old(nrAlloc) + 1
      ensures maxAllocSize == Max(old(maxAllocSize), size) && totalAllocSize == old(totalAllocSize) + size
    {
      nrAlloc := nrAlloc + 1;
      maxAllocSize := if size > maxAllocSize then size else maxAllocSize;
      totalAllocSize := totalAllocSize + size;
      CacheInIsCache(tables, p, size, tableOk);
      var _ := CachePtr(p, size, tableOk);
    }

    /** rcu_trace_free_impl */
    method TraceFree(p: nat)
      requires Valid()
      modifies this`tables, this`nrFreeCounter, this`nrFree, ring
      ensures Valid() && Flat(tables) == Perform(Flat(old(tables)), Free(p))
      ensures nrFree == old(nrFree) + 1
    {
      UncacheInIsUncache(tables, p);
      var _ := UncachePtr(p);
      nrFree := nrFree + 1;
    }

    /** A traced program: its allocations and frees in any order. */
    method RunTrace(ops: seq<Op>)
      requires Valid()
      modifies this, ring
      ensures Valid() && Flat(tables) == RunSlots(Flat(old(tables)), ops)
      ensures forall k | 0 <= k < |ring| :: ring[k] in old(ring) || fresh(ring[k])
    {
      for i := 0 to |ops|
        invariant Valid() && Flat(tables) == RunSlots(Flat(old(tables)), ops[..i])
        invariant forall k | 0 <= k < |ring| :: ring[k] in old(ring) || fresh(ring[k])
      {
        assert ops[..i + 1][..i] == ops[..i];
        match ops[i] {
          case Alloc(p, size, tableOk) => TraceAlloc(p, size, tableOk);
          case Free(p) => TraceFree(p);
        }
      }
      assert ops[..|ops|] == ops;
    }

    /** rcu_get_mtrace_results: the used slots, which are the live pointers of a tidy cache. */
    method Results() returns (leaks: nat, bytes: nat)
      requires Valid()
      ensures leaks == Count(Flat(tables)) && bytes == Bytes(Flat(tables))
      ensures Tidy(Flat(tables)) ==> leaks == |Live(Flat(tables))| && bytes == Sum(Live(Flat(tables)))
    {
      leaks, bytes := 0, 0;
      var cursor := head.next;
      ghost var i := 0;
      while cursor != head
        invariant i <= |tables| && cursor == After(ring, i)
        invariant leaks == Count(Flat(tables[..i])) && bytes == Bytes(Flat(tables[..i]))
        decreases |tables| - i
      {
        assert cursor == ring[i + 1];
        ghost var before := Flat(tables[..i]);
        var a := 0;
        assert before + tables[i][..0] == before;
        while a < TABLE_SIZE
          invariant a <= TABLE_SIZE
          invariant leaks == Count(before + tables[i][..a]) && bytes == Bytes(before + tables[i][..a])
        {
          assert cursor.tbl == tables[i];
          CountNext(before, tables[i], a);
          if cursor.tbl[a].used {
            leaks := leaks + 1;
            bytes := bytes + cursor.tbl[a].size;
          }
          a := a + 1;
        }
        assert tables[i][..TABLE_SIZE] == tables[i] && tables[..i + 1][..i] == tables[..i];
        cursor := cursor.next;
        i := i + 1;
      }
      BackAtHeader(ring, i);
      assert tables[..|tables|] == tables;
      if Tidy(Flat(tables)) {
        CountIsSize(Flat(tables));
      }
    }

    static lemma CountNext(before: Slots, t: Slots, a: nat)
      requires a < |t|
      ensures Count(before + t[..a + 1]) == Count(before + t[..a]) + if t[a].used then 1 else 0
      ensures Bytes(before + t[..a + 1]) == Bytes(before + t[..a]) + if t[a].used then t[a].size else 0
    {
      var s := before + t[..a + 1];
      assert s[..|s| - 1] == before + t[..a] && s[|s| - 1] == t[a];
    }

    /** rcu_destroy_ptr_cache: every table is unlinked and freed once, in order, and the ring is left
        empty. */
    method Destroy() returns (ghost gone: seq<Link>)
      requires Valid()
      modifies ring`next, ring`prev, ring`freed
      ensures Ring([head]) && !head.freed
      ensures gone == ring[1..] && forall l | l in gone :: l.freed
    {
      gone := RemoveAll(head, ring);
    }
  }

  /** The tracer of a whole program: whatever it allocates and frees, the leaks reported at the end
      are the pointers still live, with their bytes, and there are as many tables as the peak of
      live pointers needed. */
  method TraceProgram(firstOk: bool, ops: seq<Op>) returns (leaks: nat, bytes: nat, tables: nat)
    ensures var g := RunLedger(Opening(firstOk), ops);
            leaks == |g.live| && bytes == Sum(g.live) && tables == Max(if firstOk then 1 else 0, Ceil(g.peak))
  {
    var c := new Cache(firstOk);
    assert Flat(c.tables) == FirstSlots(firstOk) by {
      FlatGrown([]);
      assert firstOk ==> [] + [BlankTable()] == c.tables && [] + BlankTable() == BlankTable();
    }
    c.RunTrace(ops);
    leaks, bytes := c.Results();
    tables := c.nrTables;
    CacheIsMap(firstOk, ops);
    FlatLength(c.tables);
  }
}
