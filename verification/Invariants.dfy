/** What every event keeps. `Guard` is what the code has checked when it applies an event; the
    invariants are proved event by event, and then step by step in module Runs. */
module Invariants {
  import opened Options
  import opened Bits
  import opened Crypto
  import opened Handshake
  import opened Framing
  import opened Replay
  import opened Tables
  import opened Routing
  import opened Trace
  import opened Steps

  // ----- the invariants -----------------------------------------------------------------------

  ghost predicate DistinctPubs(ss: seq<Session>) {
    forall i, j | 0 <= i < j < |ss| :: ss[i].active && ss[j].active ==> ss[i].pub != ss[j].pub
  }

  ghost predicate Configured(p: Params, s: Session) {
    exists c :: 0 <= c < |p.peers| && p.peers[c].pub == s.pub && p.peers[c].routes == s.routes
  }

  /** Active sessions have distinct keys, each configured, with the routes of that configuration. */
  ghost predicate PubInv(n: Node) {
    && DistinctPubs(n.sessions)
    && forall i | 0 <= i < |n.sessions| :: n.sessions[i].active ==> Configured(n.params, n.sessions[i])
  }

  ghost predicate PendingFor(n: Node, j: nat, pub: Bytes) {
    && j < |n.pending| && n.pending[j].active
    && n.pending[j].cfg < |n.params.peers| && n.params.peers[n.pending[j].cfg].pub == pub
  }

  /** A session that is being rekeyed has a handshake pending for its key. */
  ghost predicate RekeyInv(n: Node) {
    forall i | 0 <= i < |n.sessions| :: n.sessions[i].active && n.sessions[i].rekeying ==>
      exists j: nat :: PendingFor(n, j, n.sessions[i].pub)
  }

  ghost predicate SlotOk(p: Params, s: Session, v: SlotView) {
    && s.active == v.live
    && (v.live ==>
          && s.addr == v.addr && s.pub == v.pub && s.key == v.key && s.lastHandshake == v.since
          && v.cfg < |p.peers| && s.routes == p.peers[v.cfg].routes
          && s.outbound == v.outbound && s.rekeyDeadline == v.since + p.rekeyAfter
          && s.sendSeq == v.sent % U64 && s.lastSeen == v.seen && s.lastSent == v.spoke
          && Replay.Run(v.seqs, WINDOW_WORDS).highest == s.recvHighest
          && Replay.Run(v.seqs, WINDOW_WORDS).window == s.recvWindow
          && v.prev == (if s.prevActive then Some(s.prevKey) else None)
          && (s.prevActive ==> s.prevExpires == v.since + p.grace))
  }

  /** Every slot is what the log says it is. */
  ghost predicate ViewInv(n: Node) {
    && (forall i | 0 <= i < |n.sessions| :: SlotOk(n.params, n.sessions[i], View(n.log, i)))
    && (forall i: nat :: i >= |n.sessions| ==> View(n.log, i) == NoView())
  }

  /** The ephemerals of pending handshakes are different from each other and from the next reply's. */
  ghost predicate PendingEphs(n: Node) {
    && (forall j | 0 <= j < |n.pending| :: n.pending[j].active ==>
          && n.pending[j].eph < n.nextEph && n.pending[j].eph != n.precomp
          && n.pending[j].cfg < |n.params.peers|
          && n.pending[j].hs == ClientStart(OwnEph(n.params, n.pending[j].eph), n.params.peers[n.pending[j].cfg].pub))
    && (forall j, k | 0 <= j < k < |n.pending| :: n.pending[j].active && n.pending[k].active ==>
          n.pending[j].eph != n.pending[k].eph)
  }

  /** The ephemerals are numbered as the log says. */
  ghost predicate EphNumbers(n: Node) {
    n.precomp == ReplyEph(n.log) && n.nextEph == Generated(n.log)
  }

  /** Our ephemeral keys: the responder's next one and those of pending handshakes are different
      and no other use of them is in an installed key. */
  ghost predicate EphInv(n: Node) {
    && EphNumbers(n) && PendingEphs(n)
    && (forall i | 0 <= i < |n.log| :: n.log[i].Installed? ==> EphSpent(n, n.log[i].eph, n.log[i].outbound))
  }

  /** Not the ephemeral of a pending handshake, nor of the next reply - unless it was used in one. */
  ghost predicate EphSpent(n: Node, eph: nat, outbound: bool) {
    && eph < n.nextEph
    && (outbound ==> eph != n.precomp)
    && forall j | 0 <= j < |n.pending| :: n.pending[j].active ==> n.pending[j].eph != eph
  }

  /** last_attempt is the time of the latest attempt. */
  ghost predicate AttemptInv(n: Node) {
    forall i | 0 <= i < |n.log| :: n.log[i].Attempted? ==>
      n.log[i].cfg < |n.targets| && n.log[i].now <= n.targets[n.log[i].cfg].lastAttempt
  }

  ghost predicate Inv(n: Node) {
    Shape(n) && PubInv(n) && RekeyInv(n) && ViewInv(n) && EphInv(n) && AttemptInv(n) && LegalLog(n.params, n.log)
  }

  // ----- guards -------------------------------------------------------------------------------

  ghost predicate Guard(n: Node, e: Event) {
    && InRange(n, e)
    && match e
       case Attempted(cfg, now, _) =>
         n.params.peers[cfg].hasEndpoint && now - n.targets[cfg].lastAttempt >= n.params.reconnect
       case Greeted(entry, cfg, now, eph, dst, wire) =>
         && !n.pending[entry].active && eph == n.nextEph && n.params.peers[cfg].hasEndpoint
         && HandshakeWire(n.params, wire)
         && wire == ClientInit(n.params.psk, ClientStart(OwnEph(n.params, eph), n.params.peers[cfg].pub),
                               PubBytes(OwnStatic(n.params)))
         && |n.log| > 0 && n.log[|n.log| - 1] == Attempted(cfg, now, dst)
       case Replied(_, wire) => HandshakeWire(n.params, wire)
       case Rekeying(slot) => exists j: nat :: PendingFor(n, j, n.sessions[slot].pub)
       case Dropped(entry) => n.pending[entry].active
       case Expired(slot, now) => Silent(n.params, n.sessions[slot], now)
       case Sent(slot, dst, key, q, payload, wire, ok, now, origin) =>
         && n.sessions[slot].active && dst == n.sessions[slot].addr
         && key == n.sessions[slot].key && q == n.sessions[slot].sendSeq
         && (ok ==> OpenFrame(key, wire) == Some(Parsed(q, payload)))
         && (if origin.Keepalive? then payload == [] && Quiet(n.params, n.sessions[slot], now)
             else IsIpv4(payload) && RouteLookup(n.sessions, DstIp(payload)) == Some(slot))
         && (origin.Relayed? ==> JustDelivered(n.log, origin.from, slot, payload))
       case Installed(slot, _, pub, key, cfg, outbound, now, eph, peerEph) =>
         && slot < MAX_PEERS
         && n.params.peers[cfg].pub == pub
         && |peerEph| == KEY_LEN && key == KeyOf(n.params, outbound, pub, eph, peerEph)
         && EphSpent(n, eph, outbound) && EphUnused(n.log, eph, outbound)
         && (!outbound ==> AnswersWith(n.log, eph))
         && (forall k | 0 <= k < |n.sessions| :: k != slot && n.sessions[k].active ==> n.sessions[k].pub != pub)
         && (!outbound && slot < |n.sessions| && n.sessions[slot].active ==>
               now - n.sessions[slot].lastHandshake >= n.params.cooldown)
       case Opened(slot, key, prev, now, _, wire) =>
         && n.sessions[slot].active && OpenPacket(key, wire).Some?
         && if !prev then key == n.sessions[slot].key
            else n.sessions[slot].prevActive && now <= n.sessions[slot].prevExpires && key == n.sessions[slot].prevKey
       case Checked(slot, key, q, payload, ok, _, wire) =>
         && n.sessions[slot].active && key == n.sessions[slot].key && q < U64
         && OpenFrame(key, wire) == Some(Parsed(q, payload))
         && ok == CheckReplay(q, n.sessions[slot].recvHighest, n.sessions[slot].recvWindow).ok
       case Delivered(slot, pub, key, q, prev, payload, sink) =>
         && slot < |n.sessions| && n.sessions[slot].active && pub == n.sessions[slot].pub
         && (IsIpv4(payload) ==> AllowedSrc(n.sessions[slot].routes, SrcIp(payload)))
         && JustPassed(n.log, slot, key, q, prev, payload)
         && (sink.ToPeer? ==>
               sink.slot != slot && IsIpv4(payload) && RouteLookup(n.sessions, DstIp(payload)) == Some(sink.slot))
       case _ => true
  }

  // ----- every event keeps them ---------------------------------------------------------------

  lemma KeepsShape(n: Node, e: Event)
    requires Shape(n) && Guard(n, e)
    ensures Shape(Apply(n, e))
  {
    if e.Installed? {
      InstallKeepsShape(n, e);
    } else if e.Checked? {
      CheckKeepsShape(n, e);
    }
  }

  lemma InstallKeepsShape(n: Node, e: Event)
    requires Shape(n) && Guard(n, e) && e.Installed?
    ensures Shape(Apply(n, e))
  {
  }

  lemma CheckKeepsShape(n: Node, e: Event)
    requires Shape(n) && Guard(n, e) && e.Checked?
    ensures Shape(Apply(n, e))
  {
  }

  lemma KeepsPubs(n: Node, e: Event)
    requires Shape(n) && PubInv(n) && Guard(n, e)
    ensures PubInv(Apply(n, e))
  {
    var n' := Apply(n, e);
    if e.Installed? {
      var s := n'.sessions[e.slot];
      assert Configured(n.params, s) by {
        assert n.params.peers[e.cfg].pub == s.pub && n.params.peers[e.cfg].routes == s.routes;
      }
      forall i | 0 <= i < |n'.sessions| && n'.sessions[i].active
        ensures Configured(n.params, n'.sessions[i])
      {
        assert i != e.slot ==> n'.sessions[i] == n.sessions[i];
      }
    } else {
      SameIdentities(n, e);
      forall i | 0 <= i < |n'.sessions| && n'.sessions[i].active
        ensures Configured(n.params, n'.sessions[i])
      {
        assert Configured(n.params, n.sessions[i]);
      }
    }
  }

  /** Only session_init gives a slot a key and routes. */
  lemma SameIdentities(n: Node, e: Event)
    requires Shape(n) && Guard(n, e) && !e.Installed?
    ensures var n' := Apply(n, e);
            && |n'.sessions| == |n.sessions|
            && forall i | 0 <= i < |n.sessions| ::
                 && n'.sessions[i].pub == n.sessions[i].pub && n'.sessions[i].routes == n.sessions[i].routes
                 && n'.sessions[i].key == n.sessions[i].key
                 && (n'.sessions[i].active ==> n.sessions[i].active)
  {
  }

  lemma KeepsAttempts(n: Node, e: Event)
    requires Shape(n) && AttemptInv(n) && Guard(n, e)
    ensures AttemptInv(Apply(n, e))
  {
  }

  lemma KeepsLegal(n: Node, e: Event)
    requires Inv(n) && Guard(n, e)
    ensures LegalLog(n.params, n.log + [e])
  {
    LegalEvent(n, e);
    LegalLogAppend(n.params, n.log, e);
  }

  lemma LegalEvent(n: Node, e: Event)
    requires Shape(n) && ViewInv(n) && EphNumbers(n) && AttemptInv(n) && Guard(n, e)
    ensures Legal(n.params, n.log, e)
  {
    match e {
      case Installed(slot, _, _, _, _, _, _, _, _) => LegalInstallation(n, e);
      case Delivered(slot, _, _, _, _, payload, sink) =>
        assert SlotOk(n.params, n.sessions[slot], View(n.log, slot));
        if sink.ToPeer? {
          LookupIsOnRoute(n, sink.slot, payload);
        }
      case Expired(slot, _) =>
        assert SlotOk(n.params, n.sessions[slot], View(n.log, slot));
      case Opened(slot, _, _, _, _, _) =>
        assert SlotOk(n.params, n.sessions[slot], View(n.log, slot));
      case Checked(slot, _, _, _, _, _, _) =>
        assert SlotOk(n.params, n.sessions[slot], View(n.log, slot));
      case Sent(slot, _, _, _, payload, _, _, _, origin) =>
        assert SlotOk(n.params, n.sessions[slot], View(n.log, slot));
        if !origin.Keepalive? {
          LookupIsOnRoute(n, slot, payload);
        }
      case _ =>
    }
  }

  lemma LegalInstallation(n: Node, e: Event)
    requires Shape(n) && ViewInv(n) && Guard(n, e) && e.Installed?
    ensures LegalInstall(n.params, n.log, e)
  {
  }

  /** What route_lookup finds in the table is the longest match among the live slots of the log. */
  lemma LookupIsOnRoute(n: Node, slot: nat, payload: seq<Byte>)
    requires Shape(n) && ViewInv(n) && IsIpv4(payload) && RouteLookup(n.sessions, DstIp(payload)) == Some(slot)
    ensures OnRoute(n.params, n.log, slot, payload)
  {
  }

  /** Marks that were set before, with the entries behind them still there. */
  lemma RekeyCarries(n: Node, n': Node)
    requires RekeyInv(n) && n'.params == n.params && |n'.pending| == |n.pending|
    requires forall j | 0 <= j < |n.pending| :: n.pending[j].active ==>
               n'.pending[j].active && n'.pending[j].cfg == n.pending[j].cfg
    requires forall i | 0 <= i < |n'.sessions| :: n'.sessions[i].active && n'.sessions[i].rekeying ==>
               && i < |n.sessions| && n.sessions[i].active && n.sessions[i].rekeying
               && n.sessions[i].pub == n'.sessions[i].pub
    ensures RekeyInv(n')
  {
    forall i | 0 <= i < |n'.sessions| && n'.sessions[i].active && n'.sessions[i].rekeying
      ensures exists j: nat :: PendingFor(n', j, n'.sessions[i].pub)
    {
      var j: nat :| PendingFor(n, j, n.sessions[i].pub);
      assert PendingFor(n', j, n'.sessions[i].pub);
    }
  }

  lemma KeepsRekeyMarked(n: Node, e: Event)
    requires Shape(n) && RekeyInv(n) && Guard(n, e) && e.Rekeying?
    ensures RekeyInv(Apply(n, e))
  {
    var n' := Apply(n, e);
    forall i | 0 <= i < |n'.sessions| && n'.sessions[i].active && n'.sessions[i].rekeying
      ensures exists j: nat :: PendingFor(n', j, n'.sessions[i].pub)
    {
      var j: nat :| PendingFor(n, j, n.sessions[i].pub);
      assert PendingFor(n', j, n'.sessions[i].pub);
    }
  }

  /** The entry that goes was behind the mark that goes, and behind no other. */
  lemma KeepsRekeyDropped(n: Node, e: Event)
    requires Shape(n) && DistinctPubs(n.sessions) && RekeyInv(n) && Guard(n, e) && e.Dropped?
    ensures RekeyInv(Apply(n, e))
  {
    var n' := Apply(n, e);
    forall i | 0 <= i < |n'.sessions| && n'.sessions[i].active && n'.sessions[i].rekeying
      ensures exists j: nat :: PendingFor(n', j, n'.sessions[i].pub)
    {
      var j: nat :| PendingFor(n, j, n.sessions[i].pub);
      assert PendingFor(n', j, n'.sessions[i].pub);
    }
  }

  lemma KeepsRekey(n: Node, e: Event)
    requires Shape(n) && DistinctPubs(n.sessions) && RekeyInv(n) && Guard(n, e)
    ensures RekeyInv(Apply(n, e))
  {
    if e.Rekeying? {
      KeepsRekeyMarked(n, e);
    } else if e.Dropped? {
      KeepsRekeyDropped(n, e);
    } else if e.Installed? {
      RekeyCarries(n, Apply(n, e));
    } else {
      SetsNoMark(n, e);
      RekeyCarries(n, Apply(n, e));
    }
  }

  lemma SetsNoMark(n: Node, e: Event)
    requires Shape(n) && Guard(n, e) && !e.Rekeying? && !e.Dropped? && !e.Installed?
    ensures var n' := Apply(n, e);
            && |n'.sessions| == |n.sessions| && |n'.pending| == |n.pending|
            && (forall i | 0 <= i < |n.sessions| ::
                  && n'.sessions[i].rekeying == n.sessions[i].rekeying && n'.sessions[i].pub == n.sessions[i].pub
                  && (n'.sessions[i].active ==> n.sessions[i].active))
            && forall j | 0 <= j < |n.pending| :: n.pending[j].active ==> n'.pending[j] == n.pending[j]
  {
  }

  lemma KeepsPendingEphs(n: Node, e: Event)
    requires Shape(n) && PendingEphs(n) && n.precomp < n.nextEph && Guard(n, e)
    ensures PendingEphs(Apply(n, e))
  {
  }

  lemma KeepsEphNumbers(n: Node, e: Event)
    requires EphNumbers(n) && Guard(n, e)
    ensures EphNumbers(Apply(n, e))
  {
    assert (n.log + [e])[..|n.log|] == n.log;
  }

  lemma KeepsEph(n: Node, e: Event)
    requires Shape(n) && EphInv(n) && Guard(n, e)
    ensures EphInv(Apply(n, e))
  {
    var n' := Apply(n, e);
    KeepsPendingEphs(n, e);
    KeepsEphNumbers(n, e);
    forall i | 0 <= i < |n'.log| && n'.log[i].Installed?
      ensures EphSpent(n', n'.log[i].eph, n'.log[i].outbound)
    {
      KeepsSpent(n, e, n'.log[i].eph, n'.log[i].outbound);
    }
  }

  /** A spent ephemeral stays spent: new handshakes and new replies use new ones. */
  lemma KeepsSpent(n: Node, e: Event, eph: nat, outbound: bool)
    requires Shape(n) && Guard(n, e) && EphSpent(n, eph, outbound) && n.precomp < n.nextEph
    ensures EphSpent(Apply(n, e), eph, outbound)
  {
  }

  lemma KeepsViews(n: Node, e: Event)
    requires Shape(n) && ViewInv(n) && Guard(n, e)
    ensures ViewInv(Apply(n, e))
  {
    var n' := Apply(n, e);
    forall i | 0 <= i < |n'.sessions|
      ensures SlotOk(n.params, n'.sessions[i], View(n'.log, i))
    {
      ViewAppend(n.log, e, i);
      KeepsSlot(n, e, i, View(n.log, i));
    }
    forall i: nat | i >= |n'.sessions|
      ensures View(n'.log, i) == NoView()
    {
      ViewAppend(n.log, e, i);
    }
  }

  lemma KeepsSlot(n: Node, e: Event, i: nat, v: SlotView)
    requires Shape(n) && Guard(n, e) && i < |Apply(n, e).sessions|
    requires if i < |n.sessions| then SlotOk(n.params, n.sessions[i], v) else v == NoView()
    ensures SlotOk(n.params, Apply(n, e).sessions[i], NextView(v, e, i, |n.log|))
  {
    match e {
      case Checked(_, _, _, _, _, _, _) => KeepsCheckedSlot(n, e, i, v);
      case Sent(_, _, _, _, _, _, _, _, _) => KeepsSentSlot(n, e, i, v);
      case Installed(_, _, _, _, _, _, _, _, _) => KeepsInstalledSlot(n, e, i, v);
      case _ =>
    }
  }

  lemma KeepsInstalledSlot(n: Node, e: Event, i: nat, v: SlotView)
    requires Shape(n) && Guard(n, e) && e.Installed? && i < |Apply(n, e).sessions|
    requires if i < |n.sessions| then SlotOk(n.params, n.sessions[i], v) else v == NoView()
    ensures SlotOk(n.params, Apply(n, e).sessions[i], NextView(v, e, i, |n.log|))
  {
  }

  lemma KeepsSentSlot(n: Node, e: Event, i: nat, v: SlotView)
    requires InRange(n, e) && e.Sent? && i < |n.sessions| && SlotOk(n.params, n.sessions[i], v)
    ensures SlotOk(n.params, Apply(n, e).sessions[i], NextView(v, e, i, |n.log|))
  {
    var s, s' := n.sessions[i], Apply(n, e).sessions[i];
    if i == e.slot {
      assert s' == s.(sendSeq := (s.sendSeq + 1) % U64, lastSent := if e.ok then e.now else s.lastSent);
      CountWraps(v.sent);
    } else {
      assert s' == s;
    }
  }

  lemma KeepsCheckedSlot(n: Node, e: Event, i: nat, v: SlotView)
    requires Shape(n) && Guard(n, e) && e.Checked? && i < |n.sessions| && SlotOk(n.params, n.sessions[i], v)
    ensures SlotOk(n.params, Apply(n, e).sessions[i], NextView(v, e, i, |n.log|))
  {
  }

  lemma CountWraps(k: nat)
    ensures (k % U64 + 1) % U64 == (k + 1) % U64
  {
  }

  /** The invariants as a value: a chain of lemmas hands it on without unfolding it. */
  ghost function HealthOf(n: Node): Health {
    if Inv(n) then Sound else Broken
  }

  /** Every guarded event keeps every invariant. */
  lemma EventKeepsInv(n: Node, e: Event)
    requires HealthOf(n).Sound? && Guard(n, e)
    ensures HealthOf(Apply(n, e)).Sound?
  {
    KeepsShape(n, e);
    KeepsPubs(n, e);
    KeepsRekey(n, e);
    KeepsViews(n, e);
    KeepsEph(n, e);
    KeepsAttempts(n, e);
    KeepsLegal(n, e);
  }
}
