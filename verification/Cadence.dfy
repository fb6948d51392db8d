/** The timing of outbound handshakes: the age of pending ones, and how many there are per peer. */
module Cadence {
  import opened Options
  import opened Crypto
  import opened Handshake
  import opened Tables
  import opened Steps
  import opened Walks

  /** No peer has two handshakes pending. */
  ghost predicate OnePending(n: Node) {
    forall j, k | 0 <= j < k < |n.pending| :: n.pending[j].active && n.pending[k].active ==>
      n.pending[j].cfg != n.pending[k].cfg
  }

  /** Between steps: a pending handshake was started by the latest attempt for its peer. */
  ghost predicate Steady(n: Node) {
    && OnePending(n)
    && forall j | 0 <= j < |n.pending| :: n.pending[j].active ==>
         && n.pending[j].cfg < |n.targets|
         && n.pending[j].sentAt == n.targets[n.pending[j].cfg].lastAttempt
         && n.pending[j].sentAt <= n.lastCheck
  }

  ghost predicate Young(n: Node, now: int) {
    forall j | 0 <= j < |n.pending| :: n.pending[j].active ==> now - n.pending[j].sentAt < n.params.timeout
  }

  // ----- what the parts of a tick do to the pending table -------------------------------------

  /** Pending handshakes may have ended; nothing else about them changed. */
  ghost predicate Subsides(n: Node, n': Node) {
    && n'.params == n.params && n'.targets == n.targets && n'.lastCheck == n.lastCheck
    && |n'.pending| == |n.pending|
    && forall j | 0 <= j < |n.pending| :: n'.pending[j].active ==> n'.pending[j] == n.pending[j]
  }

  /** One turn of the timeout loop. */
  lemma EntryAfterTimeout(n: Node, now: int, j: nat)
    requires Shape(n) && j < MAX_PEERS
    ensures var n' := TickEntry(n, now, j);
            && Subsides(n, n')
            && (n'.pending[j].active <==> n.pending[j].active && now - n.pending[j].sentAt < n.params.timeout)
            && forall k | 0 <= k < MAX_PEERS && k != j :: n'.pending[k] == n.pending[k]
  {
  }

  /** The timeout loop has been through the first `j` entries. */
  ghost predicate TimedOut(n: Node, now: int, j: nat, n': Node) {
    && Subsides(n, n') && j <= |n.pending|
    && (forall k | 0 <= k < j ::
          n'.pending[k].active <==> n.pending[k].active && now - n.pending[k].sentAt < n.params.timeout)
    && forall k | j <= k < |n.pending| :: n'.pending[k] == n.pending[k]
  }

  lemma {:induction false} PendingAfterTimeouts(n: Node, now: int, j: nat)
    requires Shape(n) && j <= MAX_PEERS
    ensures TimedOut(n, now, j, TickPending(n, now, j))
  {
    if j > 0 {
      var m := TickPending(n, now, j - 1);
      PendingAfterTimeouts(n, now, j - 1);
      EntryAfterTimeout(m, now, j - 1);
      assert TickPending(n, now, j) == TickEntry(m, now, j - 1);
    }
  }

  lemma {:induction false} ExpirySubsides(n: Node, now: int, j: nat)
    requires Shape(n) && j <= |n.sessions|
    ensures Subsides(n, TickExpiry(n, now, j))
  {
    if j > 0 {
      ExpirySubsides(n, now, j - 1);
    }
  }

  lemma {:induction false} KeepaliveSubsides(n: Node, now: int, env: TickEnv, j: nat)
    requires Shape(n) && j <= |n.sessions|
    ensures Subsides(n, TickKeepalive(n, now, env, j))
  {
    if j > 0 {
      KeepaliveSubsides(n, now, env, j - 1);
    }
  }

  /** After a tick that did its work, every pending handshake is younger than the timeout. */
  lemma TickLeavesYoung(n: Node, now: int, env: TickEnv)
    requires Shape(n) && now - n.lastCheck >= TICK_SECS
    ensures Young(TickStep(n, now, env), now)
    ensures Subsides(TickPeers(Apply(n, Ticked(now)), now, env, |n.params.peers|), TickStep(n, now, env))
  {
    var n1 := TickPeers(Apply(n, Ticked(now)), now, env, |n.params.peers|);
    PendingAfterTimeouts(n1, now, MAX_PEERS);
    var n2 := TickPending(n1, now, MAX_PEERS);
    ExpirySubsides(n2, now, |n2.sessions|);
    var n3 := TickExpiry(n2, now, |n2.sessions|);
    KeepaliveSubsides(n3, now, env, |n3.sessions|);
    assert TickStep(n, now, env) == TickKeepalive(n3, now, env, |n3.sessions|);
  }

  /** What is pending stays so while the peers are looked at. */
  lemma PeersKeepPending(n: Node, now: int, env: TickEnv, j: nat)
    requires Shape(n) && j < MAX_PEERS && n.pending[j].active
    ensures TickPeers(n, now, env, |n.params.peers|).pending[j] == n.pending[j]
  {
    var p := n.pending[j];
    var inv := (m: Node, i: nat) => |m.pending| == MAX_PEERS && m.pending[j] == p;
    forall m, i: nat | Shape(m) && i < |m.params.peers| && inv(m, i)
      ensures inv(TickPeer(m, now, env, i), i + 1)
    {
    }
    PeersLoopKeeps(inv, n, now, env, |n.params.peers|);
  }

  lemma LastLoopsKeepPending(n: Node, now: int, env: TickEnv)
    requires Shape(n)
    ensures var n3 := TickExpiry(n, now, |n.sessions|);
            TickKeepalive(n3, now, env, |n3.sessions|).pending == n.pending
  {
    var ps := n.pending;
    var inv := (m: Node) => m.pending == ps;
    ExpiryLoopKeeps(inv, n, now, |n.sessions|);
    var n3 := TickExpiry(n, now, |n.sessions|);
    KeepaliveLoopKeeps(inv, n3, now, env, |n3.sessions|);
  }

  /** A working tick ends a handshake that was pending before it exactly if that was sent at least the
      timeout ago; a younger one stays as it was. */
  lemma TickOnPending(n: Node, now: int, env: TickEnv, j: nat)
    requires Shape(n) && now - n.lastCheck >= 10 && j < MAX_PEERS && n.pending[j].active
    ensures var p, p' := n.pending[j], TickStep(n, now, env).pending[j];
            && (p'.active <==> now - p.sentAt < n.params.timeout)
            && (p'.active ==> p' == p)
  {
    var n0 := Apply(n, Ticked(now));
    PeersKeepPending(n0, now, env, j);
    var n1 := TickPeers(n0, now, env, |n.params.peers|);
    PendingAfterTimeouts(n1, now, MAX_PEERS);
    var n2 := TickPending(n1, now, MAX_PEERS);
    LastLoopsKeepPending(n2, now, env);
    var n3 := TickExpiry(n2, now, |n2.sessions|);
    assert TickStep(n, now, env) == TickKeepalive(n3, now, env, |n3.sessions|);
  }

  // ----- at most one pending handshake per peer -----------------------------------------------

  /** Attempts for one peer are far enough apart for the earlier one to have timed out. */
  ghost predicate TimesOutBetweenAttempts(p: Params) {
    p.timeout <= p.reconnect || p.timeout <= 10
  }

  /** Within a tick, before peer `i` is looked at: a handshake was started in this tick, or it is
      old - and then it is the latest for its peer or has been superseded in this tick. */
  ghost predicate StartedNow(n: Node, j: nat, now: int, i: nat)
    requires j < |n.pending|
  {
    && n.pending[j].cfg < i && n.pending[j].cfg < |n.targets|
    && n.pending[j].sentAt == now == n.targets[n.pending[j].cfg].lastAttempt
  }

  ghost predicate Old(n: Node, j: nat, now: int)
    requires j < |n.pending|
  {
    && n.pending[j].cfg < |n.targets|
    && n.pending[j].sentAt <= now - TICK_SECS
    && var last := n.targets[n.pending[j].cfg].lastAttempt;
       last == n.pending[j].sentAt || (last == now && now - n.pending[j].sentAt >= n.params.reconnect)
  }

  ghost predicate MidTick(n: Node, now: int, i: nat) {
    && n.lastCheck == now
    && (forall j | 0 <= j < |n.pending| :: n.pending[j].active ==> StartedNow(n, j, now, i) || Old(n, j, now))
    && (forall j, k | 0 <= j < k < |n.pending| ::
          n.pending[j].active && n.pending[k].active && n.pending[j].cfg == n.pending[k].cfg ==>
            (n.pending[j].sentAt == now <==> n.pending[k].sentAt != now))
  }

  /** An attempt supersedes what was pending for its peer, if anything was. */
  lemma AttemptMidTick(n: Node, now: int, i: nat, endpoint: Addr)
    requires Shape(n) && MidTick(n, now, i) && i < |n.params.peers|
    requires now - n.targets[i].lastAttempt >= n.params.reconnect
    ensures MidTick(Apply(n, Attempted(i, now, endpoint)), now, i)
    ensures var n' := Apply(n, Attempted(i, now, endpoint));
            forall j | 0 <= j < MAX_PEERS && n'.pending[j].active && n'.pending[j].cfg == i ::
              n'.pending[j].sentAt != now
  {
  }

  lemma InitiateMidTick(n: Node, now: int, i: nat, endpoint: Addr, greetOk: bool)
    requires Shape(n) && MidTick(n, now, i) && i < |n.params.peers|
    requires now - n.targets[i].lastAttempt >= n.params.reconnect
    ensures MidTick(Initiate(n, i, now, endpoint, greetOk), now, i + 1)
  {
    AttemptMidTick(n, now, i, endpoint);
  }

  lemma TickPeerMidTick(n: Node, now: int, env: TickEnv, i: nat, n': Node)
    requires Shape(n) && MidTick(n, now, i) && i < |n.params.peers| && n' == TickPeer(n, now, env, i)
    ensures MidTick(n', now, i + 1)
  {
    if now - n.targets[i].lastAttempt >= n.params.reconnect {
      var endpoint := if env.resolve(i).Some? then env.resolve(i).value else n.targets[i].endpoint;
      InitiateMidTick(n, now, i, endpoint, env.greet(i));
    }
  }

  lemma TickPeersMidTick(n: Node, now: int, env: TickEnv, i: nat)
    requires Shape(n) && MidTick(n, now, 0) && i <= |n.params.peers|
    ensures MidTick(TickPeers(n, now, env, i), now, i)
  {
    var inv := (m: Node, k: nat) => MidTick(m, now, k);
    forall m, k: nat | Shape(m) && k < |m.params.peers| && inv(m, k)
      ensures inv(TickPeer(m, now, env, k), k + 1)
    {
      TickPeerMidTick(m, now, env, k, TickPeer(m, now, env, k));
    }
    PeersLoopKeeps(inv, n, now, env, i);
  }

  lemma SubsidesKeepsSteady(n: Node, n': Node)
    requires Steady(n) && Subsides(n, n')
    ensures Steady(n')
  {
  }

  lemma TickKeepsSteady(n: Node, now: int, env: TickEnv)
    requires Shape(n) && Steady(n) && TimesOutBetweenAttempts(n.params)
    ensures Steady(TickStep(n, now, env))
  {
    if now - n.lastCheck >= TICK_SECS {
      var n0 := Apply(n, Ticked(now));
      TickPeersMidTick(n0, now, env, |n.params.peers|);
      TickLeavesYoung(n, now, env);
      var n1, n' := TickPeers(n0, now, env, |n.params.peers|), TickStep(n, now, env);
      forall j | 0 <= j < |n'.pending| && n'.pending[j].active
        ensures n'.pending[j] == n1.pending[j]
        ensures n'.pending[j].cfg < |n'.targets| && n'.pending[j].sentAt == n'.targets[n'.pending[j].cfg].lastAttempt
        ensures n'.pending[j].sentAt <= now
      {
        assert StartedNow(n1, j, now, |n.params.peers|) || Old(n1, j, now);
      }
    }
  }

  // ----- steps that start nothing -------------------------------------------------------------

  lemma DatagramSubsides(n: Node, now: int, src: Addr, wire: Bytes, env: UdpEnv)
    requires Shape(n)
    ensures Subsides(n, DatagramStep(n, now, src, wire, env))
  {
    var subsided := (m: Node) => Subsides(n, m);
    forall m, e | Shape(m) && InRange(m, e) && UdpEvent(e, src, wire) && subsided(m)
      ensures subsided(Apply(m, e))
    {
    }
    DatagramKeeps(subsided, n, now, src, wire, env);
  }

  lemma StepKeepsSteady(n: Node, input: Input)
    requires Shape(n) && Steady(n) && TimesOutBetweenAttempts(n.params)
    ensures Steady(Step(n, input)) && Step(n, input).params == n.params
  {
    match input {
      case Tick(now, env) => TickKeepsSteady(n, now, env);
      case TunRead(now, packet, c) => assert Subsides(n, TunStep(n, now, packet, c));
      case Datagram(now, src, wire, env) =>
        DatagramSubsides(n, now, src, wire, env);
        SubsidesKeepsSteady(n, DatagramStep(n, now, src, wire, env));
    }
  }

  lemma {:induction false} ReachableSteady(n: Node, inputs: seq<Input>)
    requires Initial(n) && TimesOutBetweenAttempts(n.params)
    ensures Steady(Steps.Run(n, inputs)) && Steps.Run(n, inputs).params == n.params
  {
    if inputs != [] {
      ReachableSteady(n, inputs[..|inputs| - 1]);
      StepKeepsSteady(Steps.Run(n, inputs[..|inputs| - 1]), inputs[|inputs| - 1]);
    }
  }

  // ----- and the bound is exact ---------------------------------------------------------------

  function Longer(p: Params): int {
    if p.reconnect > TICK_SECS then p.reconnect else TICK_SECS
  }

  /** A tick in which only the initiation for peer `c` goes out. */
  function OnlyTo(c: nat): TickEnv {
    TickEnv(_ => None, i => i == c, _ => SendChoice(seq(IV_LEN, _ => 0), true, true))
  }

  /** Entry `j` now holds a handshake for peer `c` started at `now`; the others are as before. */
  ghost predicate OpenedOne(n: Node, n': Node, now: int, j: nat, c: nat) {
    && n'.sessions == [] && n'.lastCheck == n.lastCheck && n'.params == n.params
    && |n'.pending| == |n.pending| == MAX_PEERS && j < MAX_PEERS && c < |n'.targets|
    && n'.pending[j].active && n'.pending[j].cfg == c && n'.pending[j].sentAt == now
    && (forall k | 0 <= k < MAX_PEERS && k != j :: n'.pending[k] == n.pending[k])
    && n'.targets[c].lastAttempt == now
  }

  /** The handshake in entry `j` is with that peer, under a new ephemeral. */
  ghost predicate Asks(n: Node, n': Node, j: nat, c: nat)
    requires c < |n.params.peers| && c < |n.targets| && j < |n'.pending|
  {
    && n'.precomp == n.precomp && n'.pending[j].server == n.targets[c].endpoint
    && n'.pending[j].hs == ClientStart(OwnEph(n.params, n.nextEph), n.params.peers[c].pub)
  }

  ghost predicate Opens(n: Node, n': Node, now: int, j: nat, c: nat) {
    && c < |n.params.peers| && c < |n.targets|
    && OpenedOne(n, n', now, j, c) && Asks(n, n', j, c)
  }

  lemma OnlyToOpens(n: Node, now: int, c: nat)
    requires Shape(n) && n.sessions == [] && c < |n.params.peers|
    requires n.params.peers[c].hasEndpoint && FindFreeEntry(n.pending).Some?
    requires now - n.targets[c].lastAttempt >= n.params.reconnect
    ensures Opens(n, TickPeer(n, now, OnlyTo(c), c), now, FindFreeEntry(n.pending).value, c)
  {
  }

  /** Nothing that the handshake with peer `c` depends on has changed. */
  ghost predicate StillBefore(n: Node, n': Node, c: nat) {
    && n'.sessions == [] && n'.lastCheck == n.lastCheck && n'.params == n.params
    && n'.pending == n.pending && n'.precomp == n.precomp && n'.nextEph == n.nextEph
    && c < |n.targets| == |n'.targets| && n'.targets[c] == n.targets[c]
  }

  lemma OnlyToPasses(n: Node, now: int, i: nat, c: nat)
    requires Shape(n) && n.sessions == [] && i < |n.params.peers| && c < |n.params.peers| && i != c
    ensures StillBefore(n, TickPeer(n, now, OnlyTo(c), i), c)
  {
  }

  lemma {:induction false} OnlyToBefore(n: Node, now: int, i: nat, c: nat)
    requires Shape(n) && n.sessions == [] && i <= c < |n.params.peers|
    ensures StillBefore(n, TickPeers(n, now, OnlyTo(c), i), c)
  {
    if i > 0 {
      OnlyToBefore(n, now, i - 1, c);
      OnlyToPasses(TickPeers(n, now, OnlyTo(c), i - 1), now, i - 1, c);
    }
  }

  lemma OpensLater(n: Node, n1: Node, n2: Node, now: int, j: nat, c: nat)
    requires StillBefore(n, n1, c) && Opens(n1, n2, now, j, c)
    ensures Opens(n, n2, now, j, c)
  {
  }

  lemma OpensEarlier(n: Node, n1: Node, n2: Node, now: int, j: nat, c: nat)
    requires Opens(n, n1, now, j, c) && StillBefore(n1, n2, c)
    ensures Opens(n, n2, now, j, c)
  {
  }

  lemma {:induction false} OnlyToOpensOne(n: Node, now: int, i: nat, c: nat)
    requires Shape(n) && n.sessions == [] && c < i <= |n.params.peers|
    requires n.params.peers[c].hasEndpoint && FindFreeEntry(n.pending).Some?
    requires now - n.targets[c].lastAttempt >= n.params.reconnect
    ensures Opens(n, TickPeers(n, now, OnlyTo(c), i), now, FindFreeEntry(n.pending).value, c)
  {
    var n1, j := TickPeers(n, now, OnlyTo(c), i - 1), FindFreeEntry(n.pending).value;
    var n2 := TickPeer(n1, now, OnlyTo(c), i - 1);
    if i - 1 == c {
      OnlyToBefore(n, now, c, c);
      OnlyToOpens(n1, now, c);
      OpensLater(n, n1, n2, now, j, c);
    } else {
      OnlyToOpensOne(n, now, i - 1, c);
      OnlyToPasses(n1, now, i - 1, c);
      OpensEarlier(n, n1, n2, now, j, c);
    }
    assert TickPeers(n, now, OnlyTo(c), i) == n2;
  }

  lemma {:induction false} YoungStays(n: Node, now: int, j: nat)
    requires Shape(n) && j <= MAX_PEERS && Young(n, now)
    ensures TickPending(n, now, j) == n
  {
    if j > 0 {
      YoungStays(n, now, j - 1);
    }
  }

  /** One such tick of a node without sessions whose pending handshakes are all young. */
  lemma OnlyToTick(n: Node, now: int, c: nat)
    requires Shape(n) && n.sessions == [] && c < |n.params.peers| && n.params.peers[c].hasEndpoint
    requires now - n.lastCheck >= TICK_SECS && now - n.targets[c].lastAttempt >= n.params.reconnect
    requires FindFreeEntry(n.pending).Some? && Young(n, now)
    ensures Opens(Apply(n, Ticked(now)), TickStep(n, now, OnlyTo(c)), now, FindFreeEntry(n.pending).value, c)
  {
    var n0 := Apply(n, Ticked(now));
    OnlyToOpensOne(n0, now, |n.params.peers|, c);
    var n1 := TickPeers(n0, now, OnlyTo(c), |n.params.peers|);
    YoungStays(n1, now, MAX_PEERS);
    assert TickStep(n, now, OnlyTo(c)) == n1;
  }

  /** With a longer timeout two ticks are enough to have two handshakes pending for one peer. */
  lemma TwoPending(n: Node, c: nat) returns (inputs: seq<Input>)
    requires Initial(n) && c < |n.params.peers| && n.params.peers[c].hasEndpoint
    requires !TimesOutBetweenAttempts(n.params)
    ensures !OnePending(Steps.Run(n, inputs))
  {
    var t := Longer(n.params);
    var env := OnlyTo(c);
    inputs := [Tick(t, env), Tick(2 * t, env)];
    TwoSteps(n, Tick(t, env), Tick(2 * t, env));
    assert Shape(n);
    OnlyToTick(n, t, c);
    var n1 := TickStep(n, t, env);
    var j := FindFreeEntry(n.pending).value;
    SecondOpens(n1, t, j, c);
  }

  lemma SecondOpens(n1: Node, t: int, j: nat, c: nat)
    requires Shape(n1) && OpenedOne(n1, n1, t, j, c) && n1.lastCheck == t && n1.params.peers[c].hasEndpoint
    requires forall k | 0 <= k < MAX_PEERS && k != j :: !n1.pending[k].active
    requires t == Longer(n1.params) && !TimesOutBetweenAttempts(n1.params)
    ensures !OnePending(TickStep(n1, 2 * t, OnlyTo(c)))
  {
    assert FindFreeEntry(n1.pending).Some? by {
      assert !n1.pending[if j == 0 then 1 else 0].active;
    }
    OnlyToTick(n1, 2 * t, c);
    var n2, k := TickStep(n1, 2 * t, OnlyTo(c)), FindFreeEntry(n1.pending).value;
    assert n2.pending[j] == n1.pending[j];
    assert n2.pending[j].active && n2.pending[k].active && n2.pending[j].cfg == n2.pending[k].cfg;
  }

  lemma TwoSteps(n: Node, a: Input, b: Input)
    requires Shape(n)
    ensures Steps.Run(n, [a, b]) == Step(Step(n, a), b)
  {
    var one, two := [a], [a, b];
    RunOne(n, a);
    assert two == one + [b];
    RunAppend(n, one, b);
  }

  /** In every reachable state each peer has at most one handshake pending, exactly when the
      handshake timeout is at most the reconnect interval or the ten seconds between ticks. */
  lemma OnePendingExactly(n: Node, c: nat)
    requires Initial(n) && c < |n.params.peers| && n.params.peers[c].hasEndpoint
    ensures (forall inputs :: OnePending(Steps.Run(n, inputs))) <==> TimesOutBetweenAttempts(n.params)
  {
    if TimesOutBetweenAttempts(n.params) {
      forall inputs
        ensures OnePending(Steps.Run(n, inputs))
      {
        ReachableSteady(n, inputs);
      }
    } else {
      var inputs := TwoPending(n, c);
    }
  }
}
