/** What holds in every run of the event loop. */
module Guarantees {
  import opened Crypto
  import opened Replay
  import opened Tables
  import opened Trace
  import opened Steps
  import opened Invariants
  import opened Runs
  import opened Cadence
  import opened LegalLogs

  lemma {:induction false} ParamsFixed(n: Node, inputs: seq<Input>)
    requires Shape(n)
    ensures Steps.Run(n, inputs).params == n.params
  {
    if inputs != [] {
      ParamsFixed(n, inputs[..|inputs| - 1]);
      StepKeepsParams(Steps.Run(n, inputs[..|inputs| - 1]), inputs[|inputs| - 1]);
    }
  }

  lemma StepKeepsParams(n: Node, input: Input)
    requires Shape(n)
    ensures Step(n, input).params == n.params
  {
    match input {
      case Tick(now, env) =>
      case TunRead(now, packet, c) =>
      case Datagram(now, src, wire, env) => DatagramSubsides(n, now, src, wire, env);
    }
  }

  /** Every run of the event loop writes a legal log. */
  lemma RunsAreLegal(n: Node, inputs: seq<Input>)
    requires Initial(n)
    ensures LegalLog(n.params, Steps.Run(n, inputs).log)
  {
    ReachableInv(n, inputs);
    ParamsFixed(n, inputs);
  }

  /** In every reachable state active sessions have different, configured keys and the routes of
      that configuration, and there is a slot for every configured key: the branch for a full
      session table is never taken. */
  lemma SessionTable(n: Node, inputs: seq<Input>, c: nat, addr: Addr)
    requires Initial(n) && c < |n.params.peers|
    ensures var r := Steps.Run(n, inputs);
            && DistinctPubs(r.sessions)
            && (forall i | 0 <= i < |r.sessions| :: r.sessions[i].active ==> Configured(n.params, r.sessions[i]))
            && Alloc(r.sessions, n.params.peers[c].pub, addr).Some?
  {
    ReachableInv(n, inputs);
    ParamsFixed(n, inputs);
    AllocNeverFails(Steps.Run(n, inputs), n.params.peers[c].pub, addr);
  }

  /** In every reachable state a session that is being rekeyed has a handshake pending for its
      key; after a tick that handshake is younger than the timeout. */
  lemma RekeyingNeverStuck(n: Node, inputs: seq<Input>, now: int, env: TickEnv, i: nat)
    requires Initial(n)
    requires var r := Steps.Run(n, inputs); now - r.lastCheck >= TICK_SECS
    requires var r' := TickStep(Steps.Run(n, inputs), now, env);
             i < |r'.sessions| && r'.sessions[i].active && r'.sessions[i].rekeying
    ensures var r' := TickStep(Steps.Run(n, inputs), now, env);
            exists j: nat :: PendingFor(r', j, r'.sessions[i].pub) && now - r'.pending[j].sentAt < r'.params.timeout
  {
    ReachableInv(n, inputs);
    var r := Steps.Run(n, inputs);
    var r' := TickStep(r, now, env);
    TickKeepsInv(r, now, env);
    TickLeavesYoung(r, now, env);
    var j: nat :| PendingFor(r', j, r'.sessions[i].pub);
  }

  /** Attempts to reach one peer are at least the reconnect interval apart, also failed ones. */
  lemma AttemptsSpaced(n: Node, inputs: seq<Input>, i: int, j: int)
    requires Initial(n)
    requires var h := Steps.Run(n, inputs).log;
             0 <= i < j < |h| && h[i].Attempted? && h[j].Attempted? && h[i].cfg == h[j].cfg
    ensures var h := Steps.Run(n, inputs).log; h[j].now - h[i].now >= n.params.reconnect
  {
    RunsAreLegal(n, inputs);
    var h := Steps.Run(n, inputs).log;
    LegalAt(n.params, h, j);
    assert h[..j][i] == h[i];
  }

  /** Packets from the TUN device and relayed ones go to a live slot with the longest match for
      their destination; a relayed one was delivered by another slot right before, unchanged. */
  lemma SentOnLongestMatch(n: Node, inputs: seq<Input>, m: int)
    requires Initial(n)
    requires var h := Steps.Run(n, inputs).log; 0 <= m < |h| && h[m].Sent? && !h[m].origin.Keepalive?
    ensures var h := Steps.Run(n, inputs).log;
            && View(h[..m], h[m].slot).live
            && OnRoute(n.params, h[..m], h[m].slot, h[m].payload)
            && (h[m].origin.Relayed? ==>
                  && m > 0 && h[m - 1].Delivered? && h[m - 1].payload == h[m].payload
                  && h[m - 1].slot == h[m].origin.from != h[m].slot)
  {
    RunsAreLegal(n, inputs);
    SentIsOnRoute(n.params, Steps.Run(n, inputs).log, m);
  }

  /** In every reachable state an active slot's replay state is the fold of check_replay over
      exactly the numbers that decrypted under the current key in that slot since its latest
      session_init: previous-key packets, keepalives and other peers do not touch it. */
  lemma ReplayStateIsFold(n: Node, inputs: seq<Input>, slot: nat) returns (b: int)
    requires Initial(n)
    requires var r := Steps.Run(n, inputs); slot < |r.sessions| && r.sessions[slot].active
    ensures Latest(Steps.Run(n, inputs).log, slot, b)
    ensures var r := Steps.Run(n, inputs);
            var v := Replay.Run(CheckedFrom(r.log, slot, b + 1), WINDOW_WORDS);
            v.highest == r.sessions[slot].recvHighest && v.window == r.sessions[slot].recvWindow
  {
    ReachableInv(n, inputs);
    var r := Steps.Run(n, inputs);
    SlotAgrees(r, slot);
    b := ReplayStateOf(r.params, r.sessions[slot], r.log, slot);
  }

  /** So in every reachable state a number is accepted in an active slot exactly if it was not accepted
      there since the latest installation and is above the highest number since then or less than
      2048 below it. */
  lemma AcceptedInRun(n: Node, inputs: seq<Input>, slot: nat, q: nat) returns (b: int)
    requires Initial(n)
    requires var r := Steps.Run(n, inputs); slot < |r.sessions| && r.sessions[slot].active
    ensures Latest(Steps.Run(n, inputs).log, slot, b)
    ensures var r := Steps.Run(n, inputs);
            var s, qs := r.sessions[slot], CheckedFrom(r.log, slot, b + 1);
            && |s.recvWindow| > 0
            && (CheckReplay(q, s.recvHighest, s.recvWindow).ok
                <==> q !in Accepted(qs, 2048) && (q > Highest(qs) || Highest(qs) - q < 2048))
  {
    b := ReplayStateIsFold(n, inputs, slot);
    AcceptsExactlyNewInWindow(CheckedFrom(Steps.Run(n, inputs).log, slot, b + 1), q);
  }

  lemma SlotAgrees(n: Node, slot: nat)
    requires HealthOf(n).Sound? && slot < |n.sessions|
    ensures SlotOk(n.params, n.sessions[slot], View(n.log, slot))
  {
  }

  lemma ReplayStateOf(p: Params, s: Session, h: Log, slot: nat) returns (b: int)
    requires SlotOk(p, s, View(h, slot)) && s.active
    ensures Latest(h, slot, b)
    ensures var v := Replay.Run(CheckedFrom(h, slot, b + 1), WINDOW_WORDS);
            v.highest == s.recvHighest && v.window == s.recvWindow
  {
    b := View(h, slot).born;
    ViewRemembers(h, slot);
    ViewRemembersChecked(h, slot);
  }

  /** In every reachable state the times of an active slot are those of its latest installation, of
      the last datagram from its peer since then, 0 if there was none, and of the last one that went
      out to it. */
  lemma TimesAreLatest(n: Node, inputs: seq<Input>, slot: nat) returns (b: int)
    requires Initial(n)
    requires var r := Steps.Run(n, inputs); slot < |r.sessions| && r.sessions[slot].active
    ensures var r := Steps.Run(n, inputs);
            && Latest(r.log, slot, b) && r.sessions[slot].lastHandshake == r.log[b].now
            && Times(r.log, slot, b, r.sessions[slot].lastSeen, r.sessions[slot].lastSent)
  {
    ReachableInv(n, inputs);
    var r := Steps.Run(n, inputs);
    SlotAgrees(r, slot);
    b := View(r.log, slot).born;
    ViewRemembers(r.log, slot);
    ViewRemembersTimes(r.log, slot);
  }

  /** The tie-break of the inbound path is dead code: what a datagram does never depends on the
      comparison of the keys, because a handshake-shaped one from an address with a handshake pending
      has already been taken as the answer to it. */
  lemma TieBreakNeverMatters(n: Node, now: int, src: Addr, wire: Bytes, env: UdpEnv)
    requires Shape(n)
    ensures DatagramStep(n, now, src, wire, env) == DatagramStep(n, now, src, wire, env.(higher := !env.higher))
  {
  }
}
