/** What a log of events means, without reference to the tables.

    `View` is a small automaton that reads a log and keeps, for one slot, what the design says
    about it. `Legal` says when an event may follow a log. The invariants prove that every run of
    the node produces a legal log; the properties of whole runs are then facts about legal logs. */
module Trace {
  import opened Options
  import opened Bits
  import opened Crypto
  import opened Handshake
  import opened Framing
  import opened Replay
  import opened Prefixes
  import opened Tables
  import opened Routing

  /** `born` is the position of the slot's latest installation and `since` its time, `cfg` the peer
      it was for, `seqs` the numbers that were checked and `sent` the packets that were sent since
      then; `seen` and `spoke` are the times of the last datagram from the peer, 0 if there was none,
      and of the last one that went out to it. */
  datatype SlotView = SlotView(live: bool, addr: Addr, pub: Bytes, key: Bytes, cfg: nat, outbound: bool, since: int,
                               born: int, prev: Option<Bytes>, seqs: seq<nat>, sent: nat, seen: int, spoke: int)

  function NoView(): SlotView {
    SlotView(false, Addr(0, 0), [], [], 0, false, 0, -1, None, [], 0, 0, 0)
  }

  function NextView(v: SlotView, e: Event, slot: nat, at: nat): SlotView {
    match e
    case Installed(s, addr, pub, key, cfg, outbound, now, _, _) =>
      if s != slot then v
      else SlotView(true, addr, pub, key, cfg, outbound, now, at, if v.live then Some(v.key) else None, [], 0, 0, now)
    case Expired(s, _) => if s == slot then v.(live := false) else v
    case Opened(s, _, prev, _, _, _) => if s == slot && !prev then v.(prev := None) else v
    case Checked(s, _, q, _, _, _, _) => if s == slot then v.(seqs := v.seqs + [q]) else v
    case Sent(s, _, _, _, _, _, ok, now, _) =>
      if s == slot then v.(sent := v.sent + 1, spoke := if ok then now else v.spoke) else v
    case Touched(s, now) => if s == slot then v.(seen := now) else v
    case _ => v
  }

  function View(h: Log, slot: nat): SlotView {
    if h == [] then NoView()
    else NextView(View(h[..|h| - 1], slot), h[|h| - 1], slot, |h| - 1)
  }

  lemma ViewAppend(h: Log, e: Event, slot: nat)
    ensures View(h + [e], slot) == NextView(View(h, slot), e, slot, |h|)
  {
  }

  // ----- legal events -------------------------------------------------------------------------

  /** Every new responder ephemeral was generated: refresh_precomp_eph never failed. */
  ghost predicate NeverReused(h: Log) {
    forall i | 0 <= i < |h| :: h[i] != Refreshed(false)
  }

  /** The session key of a handshake in which we had that role and that ephemeral. */
  function KeyOf(p: Params, outbound: bool, pub: Bytes, eph: nat, peerEph: Bytes): Bytes {
    if outbound then InitiatorKey(OwnStatic(p), OwnEph(p, eph), peerEph, pub)
    else ResponderKey(OwnStatic(p), OwnEph(p, eph), peerEph, pub)
  }

  /** No key was installed with this ephemeral, except that those of two replies may be the same. */
  ghost predicate EphUnused(h: Log, eph: nat, outbound: bool) {
    forall i | 0 <= i < |h| :: h[i].Installed? && (outbound || h[i].outbound) ==> h[i].eph != eph
  }

  /** The number of own ephemerals generated so far: the first reply's, one for every greeting and
      one for every refresh that succeeded. */
  function Generated(h: Log): (k: nat)
    ensures k >= 1
  {
    if h == [] then 1
    else
      var e := h[|h| - 1];
      Generated(h[..|h| - 1]) + if e.Greeted? || e == Refreshed(true) then 1 else 0
  }

  /** The ephemeral of the next reply: the one that the latest successful refresh generated. */
  function ReplyEph(h: Log): (k: nat)
    ensures k < Generated(h)
  {
    if h == [] then 0
    else if h[|h| - 1] == Refreshed(true) then Generated(h[..|h| - 1])
    else ReplyEph(h[..|h| - 1])
  }

  /** The ephemeral of an answer is the one that was ready before it, and the answer is followed by
      an attempt to replace it. */
  ghost predicate AnswersWith(h: Log, eph: nat) {
    |h| > 0 && h[|h| - 1].Refreshed? && eph == ReplyEph(h[..|h| - 1])
  }

  /** The route list of a live slot: the one configured for its peer. */
  function RoutesOf(p: Params, v: SlotView): seq<Prefix> {
    if v.cfg < |p.peers| then p.peers[v.cfg].routes else []
  }

  /** The length of a slot's longest match, or -1. */
  function ViewMatch(p: Params, v: SlotView, ip: nat): int {
    if v.live then LongestMatch(RoutesOf(p, v), ip, |RoutesOf(p, v)|) else -1
  }

  /** Slot `slot` holds a match for the packet's destination and no live slot a longer one. */
  ghost predicate OnRoute(p: Params, h: Log, slot: nat, payload: seq<Byte>) {
    && IsIpv4(payload)
    && ViewMatch(p, View(h, slot), DstIp(payload)) >= 0
    && forall k: nat :: ViewMatch(p, View(h, k), DstIp(payload)) <= ViewMatch(p, View(h, slot), DstIp(payload))
  }

  /** The event before a delivery: the packet decrypted under the previous key, or passed the
      replay check under the current one. */
  ghost predicate JustPassed(h: Log, slot: nat, key: Bytes, q: nat, prev: bool, payload: seq<Byte>) {
    && |h| > 0
    && var last := h[|h| - 1];
       if prev then
         && last.Opened? && last.slot == slot && last.prev && last.key == key
         && OpenFrame(key, last.wire) == Some(Parsed(q, payload))
       else last.Checked? && last.slot == slot && last.ok && last.key == key && last.q == q && last.payload == payload
  }

  /** A relayed packet is sent right after its delivery to that slot. */
  ghost predicate JustDelivered(h: Log, from: nat, slot: nat, payload: seq<Byte>) {
    && |h| > 0
    && var last := h[|h| - 1];
       last.Delivered? && last.slot == from && last.payload == payload && last.sink == ToPeer(slot)
  }

  /** A handshake message of ours: no key opens it as a data packet, and it names us. */
  ghost predicate HandshakeWire(p: Params, wire: Bytes) {
    IdentityIn(wire) == Some(PubBytes(OwnStatic(p))) && forall key :: OpenPacket(key, wire).None?
  }

  ghost predicate LegalInstall(p: Params, h: Log, e: Event)
    requires e.Installed?
  {
    && e.slot < MAX_PEERS
    && e.cfg < |p.peers| && p.peers[e.cfg].pub == e.pub
    && |e.pub| == KEY_LEN && |e.peerEph| == KEY_LEN
    && e.key == KeyOf(p, e.outbound, e.pub, e.eph, e.peerEph)
    && EphUnused(h, e.eph, e.outbound) && (!e.outbound ==> AnswersWith(h, e.eph))
    && (forall k: nat :: k != e.slot && View(h, k).live ==> View(h, k).pub != e.pub)
    && (!e.outbound && View(h, e.slot).live ==> e.now - View(h, e.slot).since >= p.cooldown)
  }

  ghost predicate Legal(p: Params, h: Log, e: Event) {
    match e
    case Attempted(cfg, now, _) =>
      && cfg < |p.peers| && p.peers[cfg].hasEndpoint
      && forall i | 0 <= i < |h| :: h[i].Attempted? && h[i].cfg == cfg ==> now - h[i].now >= p.reconnect
    case Greeted(_, cfg, now, eph, dst, wire) =>
      && cfg < |p.peers| && p.peers[cfg].hasEndpoint && HandshakeWire(p, wire) && eph == Generated(h)
      && wire == ClientInit(p.psk, ClientStart(OwnEph(p, eph), p.peers[cfg].pub), PubBytes(OwnStatic(p)))
      && |h| > 0 && h[|h| - 1] == Attempted(cfg, now, dst)
    case Replied(_, wire) => HandshakeWire(p, wire)
    case Installed(_, _, _, _, _, _, _, _, _) => LegalInstall(p, h, e)
    case Opened(slot, key, prev, now, _, wire) =>
      var v := View(h, slot);
      && v.live && OpenPacket(key, wire).Some?
      && if prev then v.prev == Some(key) && now <= v.since + p.grace else v.key == key
    case Checked(slot, key, q, payload, ok, _, wire) =>
      var v := View(h, slot);
      && v.live && v.key == key && q < U64
      && OpenFrame(key, wire) == Some(Parsed(q, payload))
      && ok == CheckReplay(q, Run(v.seqs, WINDOW_WORDS).highest, Run(v.seqs, WINDOW_WORDS).window).ok
    case Expired(slot, now) =>
      var v := View(h, slot);
      v.live && now - (if v.seen > 0 then v.seen else v.since) > p.expiry
    case Sent(slot, dst, key, q, payload, wire, ok, now, origin) =>
      var v := View(h, slot);
      && v.live && v.addr == dst && v.key == key && q == v.sent % U64
      && (ok ==> OpenFrame(key, wire) == Some(Parsed(q, payload)))
      && (if origin.Keepalive? then payload == [] && now - v.spoke >= p.keepalive else OnRoute(p, h, slot, payload))
      && (origin.Relayed? ==> JustDelivered(h, origin.from, slot, payload))
    case Delivered(slot, pub, key, q, prev, payload, sink) =>
      var v := View(h, slot);
      && v.live && v.pub == pub
      && (IsIpv4(payload) ==> AllowedSrc(RoutesOf(p, v), SrcIp(payload)))
      && (sink.ToPeer? ==> sink.slot != slot && OnRoute(p, h, sink.slot, payload))
      && JustPassed(h, slot, key, q, prev, payload)
    case _ => true
  }

  /** Every event of the log was legal when it happened. */
  ghost predicate LegalLog(p: Params, h: Log) {
    h != [] ==> LegalLog(p, h[..|h| - 1]) && Legal(p, h[..|h| - 1], h[|h| - 1])
  }

  lemma LegalLogAppend(p: Params, h: Log, e: Event)
    requires LegalLog(p, h) && Legal(p, h, e)
    ensures LegalLog(p, h + [e])
  {
  }

  lemma {:induction false} LegalAt(p: Params, h: Log, i: int)
    requires LegalLog(p, h) && 0 <= i < |h|
    ensures Legal(p, h[..i], h[i]) && LegalLog(p, h[..i])
  {
    var k := |h| - 1;
    if i < k {
      LegalAt(p, h[..k], i);
      assert h[..k][..i] == h[..i];
    }
  }
}
