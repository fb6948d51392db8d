/** What a tick does to each session and each peer, as if there were no others: the four loops do
    not get into each other's way. */
module Upkeep {
  import opened Options
  import opened Bits
  import opened Crypto
  import opened Handshake
  import opened Framing
  import opened Tables
  import opened Steps
  import opened Cadence

  // ----- sessions -----------------------------------------------------------------------------

  /** Only the rekeying mark, the activity, the send counter and its time may differ. */
  ghost predicate SameSession(s: Session, s': Session) {
    s' == s.(rekeying := s'.rekeying, active := s'.active, sendSeq := s'.sendSeq, lastSent := s'.lastSent)
  }

  /** All but the rekeying mark of slot `k` is that of `s`. */
  ghost predicate Unmarked(n: Node, k: nat, size: nat, s: Session) {
    |n.sessions| == size && k < size && n.sessions[k].(rekeying := s.rekeying) == s
  }

  lemma PeersOnlyMark(n: Node, now: int, env: TickEnv, k: nat)
    requires Shape(n) && k < |n.sessions|
    ensures Unmarked(TickPeers(n, now, env, |n.params.peers|), k, |n.sessions|, n.sessions[k])
  {
    var s, size := n.sessions[k], |n.sessions|;
    var inv := (m: Node, i: nat) => Unmarked(m, k, size, s);
    forall m, i: nat | Shape(m) && i < |m.params.peers| && inv(m, i)
      ensures inv(TickPeer(m, now, env, i), i + 1)
    {
    }
    PeersLoopKeeps(inv, n, now, env, |n.params.peers|);
  }

  lemma TimeoutsOnlyMark(n: Node, now: int, k: nat)
    requires Shape(n) && k < |n.sessions|
    ensures Unmarked(TickPending(n, now, MAX_PEERS), k, |n.sessions|, n.sessions[k])
  {
    var s, size := n.sessions[k], |n.sessions|;
    var inv := (m: Node) => Unmarked(m, k, size, s);
    forall m, j: nat | Shape(m) && j < MAX_PEERS && inv(m)
      ensures inv(TickEntry(m, now, j))
    {
    }
    PendingLoopKeeps(inv, n, now, MAX_PEERS);
  }

  lemma {:induction false} ExpiryAt(n: Node, now: int, j: nat, k: nat)
    requires Shape(n) && j <= |n.sessions| && k < |n.sessions|
    ensures var s := n.sessions[k];
            TickExpiry(n, now, j).sessions[k] == if k < j && Silent(n.params, s, now) then s.(active := false) else s
  {
    if j > 0 {
      ExpiryAt(n, now, j - 1, k);
    }
  }

  /** A session after its keepalive. */
  function Nudged(s: Session, c: SendChoice, now: int): Session {
    s.(sendSeq := (s.sendSeq + 1) % U64, lastSent := if c.encrypted && c.sent then now else s.lastSent)
  }

  lemma QuietAt(n: Node, now: int, env: TickEnv, j: nat, k: nat)
    requires Shape(n) && j < |n.sessions| && k < |n.sessions|
    ensures var s := n.sessions[k];
            TickQuiet(n, now, env, j).sessions[k] ==
              if k == j && Quiet(n.params, s, now) then Nudged(s, env.send(k), now) else s
  {
  }

  lemma {:induction false} KeepaliveAt(n: Node, now: int, env: TickEnv, j: nat, k: nat)
    requires Shape(n) && j <= |n.sessions| && k < |n.sessions|
    ensures var s := n.sessions[k];
            TickKeepalive(n, now, env, j).sessions[k] ==
              if k < j && Quiet(n.params, s, now) then Nudged(s, env.send(k), now) else s
  {
    if j > 0 {
      KeepaliveAt(n, now, env, j - 1, k);
      var n1 := TickKeepalive(n, now, env, j - 1);
      KeepaliveTurn(n, n1, now, env, j - 1, k);
    }
  }

  lemma KeepaliveTurn(n: Node, n1: Node, now: int, env: TickEnv, j: nat, k: nat)
    requires Shape(n) && Shape(n1) && j < |n.sessions| && k < |n.sessions| == |n1.sessions| && n1.params == n.params
    requires n1 == TickKeepalive(n, now, env, j)
    requires k == j ==> n1.sessions[k] == n.sessions[k]
    ensures TickKeepalive(n, now, env, j + 1).sessions[k] ==
            if k == j && Quiet(n.params, n.sessions[k], now) then Nudged(n.sessions[k], env.send(k), now)
            else n1.sessions[k]
  {
    QuietAt(n1, now, env, j, k);
  }

  /** What the four loops together did to a session. */
  ghost predicate Kept(p: Params, s: Session, c: SendChoice, now: int, s': Session) {
    var seen := if s.lastSeen > 0 then s.lastSeen else s.lastHandshake;
    var due := s'.active && now - s.lastSent >= p.keepalive;
    && SameSession(s, s')
    && (s'.active <==> s.active && now - seen <= p.expiry)
    && s'.sendSeq == (if due then (s.sendSeq + 1) % U64 else s.sendSeq)
    && s'.lastSent == if due && c.encrypted && c.sent then now else s.lastSent
  }

  lemma InTurn(p: Params, s: Session, s1: Session, s2: Session, s3: Session, s4: Session, c: SendChoice, now: int)
    requires s1.(rekeying := s.rekeying) == s && s2.(rekeying := s1.rekeying) == s1
    requires s3 == if Silent(p, s2, now) then s2.(active := false) else s2
    requires s4 == if Quiet(p, s3, now) then Nudged(s3, c, now) else s3
    ensures Kept(p, s, c, now, s4)
  {
  }

  lemma FirstHalf(n: Node, now: int, env: TickEnv, k: nat)
    requires Shape(n) && k < |n.sessions|
    ensures var n1 := TickPeers(n, now, env, |n.params.peers|);
            var n2 := TickPending(n1, now, MAX_PEERS);
            && |n2.sessions| == |n1.sessions| == |n.sessions|
            && n1.sessions[k].(rekeying := n.sessions[k].rekeying) == n.sessions[k]
            && n2.sessions[k].(rekeying := n1.sessions[k].rekeying) == n1.sessions[k]
  {
    PeersOnlyMark(n, now, env, k);
    TimeoutsOnlyMark(TickPeers(n, now, env, |n.params.peers|), now, k);
  }

  lemma SecondHalf(n: Node, now: int, env: TickEnv, k: nat)
    requires Shape(n) && k < |n.sessions|
    ensures var n3 := TickExpiry(n, now, |n.sessions|);
            var n4 := TickKeepalive(n3, now, env, |n3.sessions|);
            var s2, s3, s4 := n.sessions[k], n3.sessions[k], n4.sessions[k];
            && s3 == (if Silent(n.params, s2, now) then s2.(active := false) else s2)
            && s4 == (if Quiet(n.params, s3, now) then Nudged(s3, env.send(k), now) else s3)
  {
    ExpiryAt(n, now, |n.sessions|, k);
    var n3 := TickExpiry(n, now, |n.sessions|);
    KeepaliveAt(n3, now, env, |n3.sessions|, k);
  }

  /** A working tick drops a session exactly if it has been silent for longer than the expiry, and
      sends a keepalive exactly on the sessions that stay and have not sent for the keepalive
      interval; it takes one sequence number each. Nothing else about a session changes. */
  lemma TickOnSession(n: Node, now: int, env: TickEnv, k: nat)
    requires Shape(n) && now - n.lastCheck >= 10 && k < |n.sessions|
    ensures var n' := TickStep(n, now, env);
            |n'.sessions| == |n.sessions| && Kept(n.params, n.sessions[k], env.send(k), now, n'.sessions[k])
  {
    var n0 := Apply(n, Ticked(now));
    FirstHalf(n0, now, env, k);
    var n1 := TickPeers(n0, now, env, |n.params.peers|);
    var n2 := TickPending(n1, now, MAX_PEERS);
    SecondHalf(n2, now, env, k);
    var n3 := TickExpiry(n2, now, |n2.sessions|);
    var n4 := TickKeepalive(n3, now, env, |n3.sessions|);
    assert TickStep(n, now, env) == n4;
    InTurn(n.params, n.sessions[k], n1.sessions[k], n2.sessions[k], n3.sessions[k], n4.sessions[k], env.send(k), now);
  }

  // ----- peers --------------------------------------------------------------------------------

  /** Peer `c` is to be reached and was not tried too recently, and it has no session or one past four
      fifths of its time, in whole seconds, that is not being rekeyed. */
  predicate Due(n: Node, c: nat, now: int)
    requires c < |n.params.peers| && c < |n.targets|
  {
    && n.params.peers[c].hasEndpoint && now - n.targets[c].lastAttempt >= n.params.reconnect
    && match FindByPub(n.sessions, n.params.peers[c].pub)
       case None => true
       case Some(k) =>
         !n.sessions[k].rekeying && 5 * (now - n.sessions[k].lastHandshake) + 4 >= 4 * n.params.rekeyAfter
  }

  /** That is when the code starts a handshake. */
  lemma DueWhenNeeded(n: Node, c: nat, now: int)
    requires c < |n.params.peers| && c < |n.targets|
    ensures Due(n, c, now) <==>
            && n.params.peers[c].hasEndpoint && NeedsHandshake(n, c, now)
            && now - n.targets[c].lastAttempt >= n.params.reconnect
  {
    match FindByPub(n.sessions, n.params.peers[c].pub) {
      case None =>
      case Some(k) => FourFifths(n.params.rekeyAfter, now - n.sessions[k].lastHandshake);
    }
  }

  lemma FourFifths(r: int, x: int)
    ensures x >= r * 4 / 5 <==> 5 * x + 4 >= 4 * r
  {
  }

  function Tried(t: Target, now: int, resolved: Option<Addr>): Target {
    Target(if resolved.Some? then resolved.value else t.endpoint, now)
  }

  /** There is a session for the key of peer `c`, and one of `st` has the same key. */
  ghost predicate Anticipated(n: Node, c: nat, st: set<nat>)
    requires c < |n.params.peers|
  {
    && FindByPub(n.sessions, n.params.peers[c].pub).Some?
    && exists d :: d in st && d < |n.params.peers| && n.params.peers[d].pub == n.params.peers[c].pub
  }

  /** A peer that is due is tried, unless one of `st` has already started to rekey its session. */
  ghost predicate TriedAfter(n: Node, now: int, c: nat, st: set<nat>)
    requires c < |n.params.peers| && c < |n.targets|
  {
    Due(n, c, now) && !Anticipated(n, c, st)
  }

  /** The free entries of the pending table. */
  function Free(ps: seq<Pending>): nat {
    if ps == [] then 0 else Free(ps[..|ps| - 1]) + if ps[|ps| - 1].active then 0 else 1
  }

  /** Those of the first `i` peers whose turn starts a handshake, judged by the state before the tick. */
  ghost function Starters(n: Node, now: int, env: TickEnv, i: nat): (st: set<nat>)
    requires i <= |n.params.peers| && |n.targets| == |n.params.peers|
    ensures forall d | d in st :: d < i
  {
    if i == 0 then {}
    else
      var st := Starters(n, now, env, i - 1);
      if TriedAfter(n, now, i - 1, st) && env.greet(i - 1) && |st| < Free(n.pending) then st + {i - 1} else st
  }

  lemma {:induction false} FreeSome(ps: seq<Pending>, i: nat)
    requires i <= |ps|
    ensures Free(ps[..i]) == 0 <==> forall k | 0 <= k < i :: ps[k].active
  {
    if i > 0 {
      FreeSome(ps, i - 1);
      assert ps[..i][..i - 1] == ps[..i - 1];
    }
  }

  /** There is a free entry exactly if their number is not 0. */
  lemma FreeFound(ps: seq<Pending>)
    ensures FindFreeEntry(ps).Some? <==> Free(ps) > 0
  {
    FreeSome(ps, |ps|);
    assert ps[..|ps|] == ps;
  }

  lemma {:induction false} FreeTaken(ps: seq<Pending>, j: nat, p: Pending)
    requires j < |ps| && !ps[j].active && p.active
    ensures Free(ps[j := p]) == Free(ps) - 1
  {
    var n := |ps| - 1;
    if j < n {
      assert ps[j := p][..n] == ps[..n][j := p];
      FreeTaken(ps[..n], j, p);
    } else {
      assert ps[j := p][..n] == ps[..n];
    }
  }

  /** Slot `k` holds the session for the key of one of `st`. */
  ghost predicate MarkedBy(n: Node, k: nat, st: set<nat>) {
    exists d :: d in st && d < |n.params.peers| && FindByPub(n.sessions, n.params.peers[d].pub) == Some(k)
  }

  /** The sessions of `m` are those of `n`, with the marks that the starters set. */
  ghost predicate Marked(n: Node, m: Node, st: set<nat>) {
    && m.params == n.params && |m.sessions| == |n.sessions|
    && forall k | 0 <= k < |n.sessions| ::
         m.sessions[k] == n.sessions[k].(rekeying := n.sessions[k].rekeying || MarkedBy(n, k, st))
  }

  lemma {:induction false} FindUnmarked(ss: seq<Session>, tt: seq<Session>, pub: Bytes, i: nat)
    requires |ss| == |tt| && i <= |ss|
    requires forall k | 0 <= k < |ss| :: ss[k].active == tt[k].active && ss[k].pub == tt[k].pub
    ensures FindByPub(ss, pub, i) == FindByPub(tt, pub, i)
    decreases |ss| - i
  {
    if i < |ss| {
      FindUnmarked(ss, tt, pub, i + 1);
    }
  }

  /** When it is the turn of peer `c`, the code decides as `TriedAfter` says. */
  lemma DueAtTurn(n: Node, m: Node, now: int, c: nat, st: set<nat>)
    requires Marked(n, m, st) && c < |n.params.peers|
    requires c < |n.targets| && c < |m.targets| && m.targets[c] == n.targets[c]
    ensures Due(m, c, now) <==> TriedAfter(n, now, c, st)
    ensures FindByPub(m.sessions, m.params.peers[c].pub) == FindByPub(n.sessions, n.params.peers[c].pub)
  {
    var pub := n.params.peers[c].pub;
    FindUnmarked(n.sessions, m.sessions, pub, 0);
    match FindByPub(n.sessions, pub) {
      case None =>
      case Some(k) => MarkIsAnticipation(n, c, k, st);
    }
  }

  lemma MarkIsAnticipation(n: Node, c: nat, k: nat, st: set<nat>)
    requires c < |n.params.peers| && FindByPub(n.sessions, n.params.peers[c].pub) == Some(k)
    ensures MarkedBy(n, k, st) <==> Anticipated(n, c, st)
  {
    if Anticipated(n, c, st) {
      var d :| d in st && d < |n.params.peers| && n.params.peers[d].pub == n.params.peers[c].pub;
      assert FindByPub(n.sessions, n.params.peers[d].pub) == Some(k);
    }
  }

  /** One more starter marks the session for its key. */
  lemma MarksGrow(n: Node, m: Node, m': Node, c: nat, st: set<nat>)
    requires Marked(n, m, st) && c < |n.params.peers| && m'.params == m.params
    requires var s := FindByPub(n.sessions, n.params.peers[c].pub);
             m'.sessions == if s.None? then m.sessions
                            else m.sessions[s.value := m.sessions[s.value].(rekeying := true)]
    ensures Marked(n, m', st + {c})
  {
    var s := FindByPub(n.sessions, n.params.peers[c].pub);
    forall k | 0 <= k < |n.sessions|
      ensures MarkedBy(n, k, st + {c}) <==> MarkedBy(n, k, st) || s == Some(k)
    {
      if s == Some(k) {
        assert c in st + {c};
      } else if MarkedBy(n, k, st) {
        var d :| d in st && d < |n.params.peers| && FindByPub(n.sessions, n.params.peers[d].pub) == Some(k);
        assert d in st + {c};
      }
    }
  }

  /** The target that peer `c` ends up with. */
  ghost function Aimed(n: Node, now: int, env: TickEnv, c: nat): Target
    requires c < |n.params.peers| && |n.targets| == |n.params.peers|
  {
    if TriedAfter(n, now, c, Starters(n, now, env, c)) then Tried(n.targets[c], now, env.resolve(c)) else n.targets[c]
  }

  /** The starters have set their marks and taken their entries. */
  ghost predicate Booked(n: Node, m: Node, st: set<nat>) {
    Marked(n, m, st) && Free(m.pending) + |st| == Free(n.pending)
  }

  /** Peer `c` was sent an initiation at or after position `from`. */
  ghost predicate GreetedSince(h: Log, from: nat, c: nat) {
    exists i :: from <= i < |h| && h[i].Greeted? && h[i].cfg == c
  }

  /** Exactly the peers of `st` were. */
  ghost predicate Greets(m: Node, from: nat, st: set<nat>) {
    from <= |m.log| && forall c: nat :: GreetedSince(m.log, from, c) <==> c in st
  }

  lemma GreetsNext(m: Node, e: Event, from: nat, st: set<nat>)
    requires InRange(m, e) && Greets(m, from, st)
    ensures Greets(Apply(m, e), from, if e.Greeted? then st + {e.cfg} else st)
  {
    var h, h' := m.log, Apply(m, e).log;
    forall c: nat
      ensures GreetedSince(h', from, c) <==> GreetedSince(h, from, c) || (e.Greeted? && e.cfg == c)
    {
      if i :| from <= i < |h| && h[i].Greeted? && h[i].cfg == c {
        assert h'[i] == h[i];
      }
      if e.Greeted? && e.cfg == c {
        assert h'[|h|] == e;
      }
    }
  }

  lemma TurnGreets(m: Node, now: int, env: TickEnv, i: nat, from: nat, st: set<nat>)
    requires Shape(m) && i < |m.params.peers| && Greets(m, from, st)
    ensures var starts := Due(m, i, now) && env.greet(i) && FindFreeEntry(m.pending).Some?;
            Greets(TickPeer(m, now, env, i), from, if starts then st + {i} else st)
  {
    DueWhenNeeded(m, i, now);
    if Due(m, i, now) {
      var endpoint := if env.resolve(i).Some? then env.resolve(i).value else m.targets[i].endpoint;
      var a := Attempted(i, now, endpoint);
      var m1 := Apply(m, a);
      GreetsNext(m, a, from, st);
      if env.greet(i) && FindFreeEntry(m.pending).Some? {
        StartGreets(m, m1, now, i, endpoint, from, st);
        var m2, s := Initiate(m, i, now, endpoint, true), FindByPub(m.sessions, m.params.peers[i].pub);
        if s.Some? {
          GreetsNext(m2, Rekeying(s.value), from, st + {i});
        }
      }
    }
  }

  lemma StartGreets(m: Node, m1: Node, now: int, i: nat, endpoint: Addr, from: nat, st: set<nat>)
    requires Shape(m) && i < |m.params.peers| && FindFreeEntry(m.pending).Some?
    requires m1 == Apply(m, Attempted(i, now, endpoint)) && Greets(m1, from, st)
    ensures Greets(Initiate(m, i, now, endpoint, true), from, st + {i})
  {
    var j := FindFreeEntry(m1.pending).value;
    var hs := ClientStart(OwnEph(m.params, m.nextEph), m.params.peers[i].pub);
    var wire := ClientInit(m.params.psk, hs, PubBytes(OwnStatic(m.params)));
    GreetsNext(m1, Greeted(j, i, now, m.nextEph, endpoint, wire), from, st);
  }

  /** What the loop has done after the first `i` peers. */
  ghost predicate OnCourse(n: Node, now: int, env: TickEnv, m: Node, i: nat) {
    && |m.targets| == |n.targets| == |n.params.peers| && i <= |n.params.peers|
    && Booked(n, m, Starters(n, now, env, i)) && Greets(m, |n.log|, Starters(n, now, env, i))
    && AimedUpTo(n, now, env, m.targets, i)
  }

  ghost predicate AimedUpTo(n: Node, now: int, env: TickEnv, ts: seq<Target>, i: nat)
    requires |ts| == |n.targets| == |n.params.peers|
  {
    forall c | 0 <= c < |ts| :: ts[c] == if c < i then Aimed(n, now, env, c) else n.targets[c]
  }

  lemma AimedNext(n: Node, now: int, env: TickEnv, ts: seq<Target>, i: nat)
    requires i < |ts| == |n.targets| == |n.params.peers| && AimedUpTo(n, now, env, ts, i)
    ensures AimedUpTo(n, now, env, ts[i := Aimed(n, now, env, i)], i + 1)
  {
  }

  /** The three outcomes of a turn. */
  lemma TurnOutcome(m: Node, now: int, env: TickEnv, i: nat)
    requires Shape(m) && i < |m.params.peers|
    ensures var m', s := TickPeer(m, now, env, i), FindByPub(m.sessions, m.params.peers[i].pub);
            && m'.params == m.params
            && m'.targets == (if !Due(m, i, now) then m.targets
                              else m.targets[i := Tried(m.targets[i], now, env.resolve(i))])
            && if Due(m, i, now) && env.greet(i) && FindFreeEntry(m.pending).Some? then
                 && (exists p: Pending :: p.active && m'.pending == m.pending[FindFreeEntry(m.pending).value := p])
                 && m'.sessions == (if s.None? then m.sessions
                                    else m.sessions[s.value := m.sessions[s.value].(rekeying := true)])
               else m'.pending == m.pending && m'.sessions == m.sessions
  {
    var m' := TickPeer(m, now, env, i);
    DueWhenNeeded(m, i, now);
    if Due(m, i, now) && env.greet(i) && FindFreeEntry(m.pending).Some? {
      var j := FindFreeEntry(m.pending).value;
      assert m'.pending == m.pending[j := m'.pending[j]];
    }
  }

  lemma TurnBooks(n: Node, now: int, env: TickEnv, m: Node, i: nat)
    requires Shape(m) && i < |n.params.peers| && |m.targets| == |n.targets| == |n.params.peers|
    requires m.targets[i] == n.targets[i]
    requires Booked(n, m, Starters(n, now, env, i))
    ensures Booked(n, TickPeer(m, now, env, i), Starters(n, now, env, i + 1))
    ensures var starts := Due(m, i, now) && env.greet(i) && FindFreeEntry(m.pending).Some?;
            Starters(n, now, env, i + 1) == Starters(n, now, env, i) + if starts then {i} else {}
  {
    var st := Starters(n, now, env, i);
    var m', starts := TickPeer(m, now, env, i), Due(m, i, now) && env.greet(i) && FindFreeEntry(m.pending).Some?;
    DueAtTurn(n, m, now, i, st);
    FreeFound(m.pending);
    TurnOutcome(m, now, env, i);
    assert Starters(n, now, env, i + 1) == if starts then st + {i} else st;
    if starts {
      StartIsBooked(n, m, m', i, st);
    }
  }

  lemma StartIsBooked(n: Node, m: Node, m': Node, i: nat, st: set<nat>)
    requires Booked(n, m, st) && i < |n.params.peers| && i !in st && m'.params == m.params
    requires FindFreeEntry(m.pending).Some?
    requires exists p: Pending :: p.active && m'.pending == m.pending[FindFreeEntry(m.pending).value := p]
    requires var s := FindByPub(n.sessions, n.params.peers[i].pub);
             m'.sessions == if s.None? then m.sessions
                            else m.sessions[s.value := m.sessions[s.value].(rekeying := true)]
    ensures Booked(n, m', st + {i})
  {
    var j := FindFreeEntry(m.pending).value;
    var p: Pending :| p.active && m'.pending == m.pending[j := p];
    FreeTaken(m.pending, j, p);
    MarksGrow(n, m, m', i, st);
  }

  lemma TurnKeepsCourse(n: Node, now: int, env: TickEnv, m: Node, i: nat)
    requires Shape(m) && i < |m.params.peers| && OnCourse(n, now, env, m, i)
    ensures OnCourse(n, now, env, TickPeer(m, now, env, i), i + 1)
  {
    TurnBooks(n, now, env, m, i);
    TurnGreets(m, now, env, i, |n.log|, Starters(n, now, env, i));
    TurnAims(n, now, env, m, i);
    AimedNext(n, now, env, m.targets, i);
  }

  lemma TurnAims(n: Node, now: int, env: TickEnv, m: Node, i: nat)
    requires Shape(m) && i < |n.params.peers| && |m.targets| == |n.targets| == |n.params.peers|
    requires m.targets[i] == n.targets[i] && Marked(n, m, Starters(n, now, env, i))
    ensures TickPeer(m, now, env, i).targets == m.targets[i := Aimed(n, now, env, i)]
  {
    DueAtTurn(n, m, now, i, Starters(n, now, env, i));
    TurnOutcome(m, now, env, i);
  }

  /** A working tick tries to reach a peer exactly if the peer has an endpoint, has no session or
      one past four fifths of its rekeying time that is not being rekeyed, and was last tried at
      least the reconnect interval ago, judged before the tick - unless an earlier peer with the
      same key has just started to rekey the session they share. It sends an initiation exactly to
      those of them for which there is still a free entry and the message goes out. */
  lemma TickOnPeer(n: Node, now: int, env: TickEnv, c: nat)
    requires Shape(n) && now - n.lastCheck >= 10 && c < |n.params.peers|
    ensures TickStep(n, now, env).targets[c] == Aimed(n, now, env, c)
    ensures GreetedSince(TickStep(n, now, env).log, |n.log|, c) <==> c in Starters(n, now, env, |n.params.peers|)
  {
    var n0 := Apply(n, Ticked(now));
    assert Marked(n, n0, {});
    assert Greets(n, |n.log|, {});
    GreetsNext(n, Ticked(now), |n.log|, {});
    var inv := (m: Node, i: nat) => OnCourse(n, now, env, m, i);
    forall m, i: nat | Shape(m) && i < |m.params.peers| && inv(m, i)
      ensures inv(TickPeer(m, now, env, i), i + 1)
    {
      TurnKeepsCourse(n, now, env, m, i);
    }
    PeersLoopKeeps(inv, n0, now, env, |n.params.peers|);
    TickLeavesYoung(n, now, env);
    OthersGreetNobody(n, TickPeers(n0, now, env, |n.params.peers|), now, env, Starters(n, now, env, |n.params.peers|));
  }

  /** The other three loops send no initiations. */
  lemma OthersGreetNobody(n: Node, n1: Node, now: int, env: TickEnv, st: set<nat>)
    requires Shape(n) && now - n.lastCheck >= 10
    requires n1 == TickPeers(Apply(n, Ticked(now)), now, env, |n.params.peers|) && Greets(n1, |n.log|, st)
    ensures Greets(TickStep(n, now, env), |n.log|, st)
  {
    var inv := (m: Node) => Greets(m, |n.log|, st);
    forall m, j: nat | Shape(m) && j < MAX_PEERS && inv(m)
      ensures inv(TickEntry(m, now, j))
    {
      if m.pending[j].active {
        GreetsNext(m, Dropped(j), |n.log|, st);
      }
    }
    PendingLoopKeeps(inv, n1, now, MAX_PEERS);
    var n2 := TickPending(n1, now, MAX_PEERS);
    forall m, j: nat | Shape(m) && j < |m.sessions| && inv(m)
      ensures inv(TickSlot(m, now, j))
    {
      GreetsNext(m, Expired(j, now), |n.log|, st);
    }
    ExpiryLoopKeeps(inv, n2, now, |n2.sessions|);
    var n3 := TickExpiry(n2, now, |n2.sessions|);
    forall m, j: nat | Shape(m) && j < |m.sessions| && inv(m)
      ensures inv(TickQuiet(m, now, env, j))
    {
      QuietGreetsNobody(m, now, env, j, |n.log|, st);
    }
    KeepaliveLoopKeeps(inv, n3, now, env, |n3.sessions|);
  }

  lemma QuietGreetsNobody(m: Node, now: int, env: TickEnv, j: nat, from: nat, st: set<nat>)
    requires Shape(m) && j < |m.sessions| && Greets(m, from, st)
    ensures Greets(TickQuiet(m, now, env, j), from, st)
  {
    var s, c := m.sessions[j], env.send(j);
    var wire := SealFrame(s.key, c.iv, s.sendSeq, []);
    GreetsNext(m, Sent(j, s.addr, s.key, s.sendSeq, [], wire, c.encrypted && c.sent, now, Keepalive), from, st);
  }

  /** A peer whose key no earlier peer has is tried exactly if it has an endpoint, the last attempt was
      at least the reconnect interval ago, and there is no session with its key or one that is not
      being rekeyed and is past four fifths of its time. */
  lemma OwnKeyTriedWhenDue(n: Node, now: int, env: TickEnv, c: nat)
    requires Shape(n) && now - n.lastCheck >= 10 && c < |n.params.peers|
    requires forall d | 0 <= d < c :: n.params.peers[d].pub != n.params.peers[c].pub
    ensures TickStep(n, now, env).targets[c] ==
            var peer, t := n.params.peers[c], n.targets[c];
            var s := FindByPub(n.sessions, peer.pub);
            if && peer.hasEndpoint && now - t.lastAttempt >= n.params.reconnect
               && (s.Some? ==>
                     && !n.sessions[s.value].rekeying
                     && 5 * (now - n.sessions[s.value].lastHandshake) + 4 >= 4 * n.params.rekeyAfter)
            then Target(if env.resolve(c).Some? then env.resolve(c).value else t.endpoint, now)
            else t
  {
    TickOnPeer(n, now, env, c);
  }

  /** With a shared key that can fail: the first of two peers starts to rekey their session, and the
      second, due as well, is not tried. */
  lemma SharedKeyTriedOnce(n: Node, now: int, env: TickEnv)
    requires Shape(n) && now - n.lastCheck >= 10 && |n.params.peers| >= 2
    requires n.params.peers[0].pub == n.params.peers[1].pub && FindByPub(n.sessions, n.params.peers[0].pub).Some?
    requires Due(n, 0, now) && Due(n, 1, now) && env.greet(0) && FindFreeEntry(n.pending).Some?
    ensures TickStep(n, now, env).targets[1] == n.targets[1]
  {
    TickOnPeer(n, now, env, 1);
    FreeFound(n.pending);
    assert Starters(n, now, env, 0) == {};
    assert 0 in Starters(n, now, env, 1);
  }
}
