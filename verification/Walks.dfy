/** A datagram's way through the node, event by event. What every event of its kind keeps, the
    step keeps; the other modules choose what to carry along. */
module Walks {
  import opened Options
  import opened Bits
  import opened Crypto
  import opened Handshake
  import opened Framing
  import opened Replay
  import opened Tables
  import opened Steps

  /** The events of a datagram that looks like a handshake message. */
  predicate HandshakeEvent(e: Event, src: Addr, wire: Bytes) {
    match e
    case Dropped(_) => true
    case Replied(dst, _) => dst == src
    case Refreshed(_) => true
    case Installed(_, addr, pub, _, _, _, _, _, _) => addr == src && IdentityIn(wire) == Some(pub)
    case _ => false
  }

  /** The events of any other datagram. */
  predicate DataEvent(e: Event, src: Addr, wire: Bytes) {
    match e
    case Touched(_, _) => true
    case Opened(_, _, _, _, from, bytes) => from == src && bytes == wire
    case Checked(_, _, _, _, _, from, bytes) => from == src && bytes == wire
    case Delivered(_, _, _, _, _, _, _) => true
    case Sent(_, _, _, _, _, _, _, _, origin) => origin.Relayed?
    case _ => false
  }

  predicate UdpEvent(e: Event, src: Addr, wire: Bytes) {
    HandshakeEvent(e, src, wire) || DataEvent(e, src, wire)
  }

  ghost predicate KeptByHandshake(inv: Node -> bool, src: Addr, wire: Bytes) {
    forall n, e | Shape(n) && InRange(n, e) && HandshakeEvent(e, src, wire) && inv(n) :: inv(Apply(n, e))
  }

  ghost predicate KeptByData(inv: Node -> bool, src: Addr, wire: Bytes) {
    forall n, e | Shape(n) && InRange(n, e) && DataEvent(e, src, wire) && inv(n) :: inv(Apply(n, e))
  }

  // ----- handshakes ---------------------------------------------------------------------------

  lemma ResponseKeeps(inv: Node -> bool, n: Node, now: int, src: Addr, wire: Bytes, j: nat, clientOk: bool)
    requires Shape(n) && inv(n) && KeptByHandshake(inv, src, wire) && j < MAX_PEERS && n.pending[j].active
    ensures inv(ResponseStep(n, now, src, wire, j, clientOk))
  {
    assert inv(Apply(n, Dropped(j)));
  }

  lemma AdmitKeeps(inv: Node -> bool, n: Node, now: int, src: Addr, wire: Bytes, r: Response, eph: nat)
    requires Shape(n) && inv(n) && KeptByHandshake(inv, src, wire) && IdentityIn(wire) == Some(r.clientPub)
    ensures inv(AdmitStep(n, now, src, r, eph))
  {
  }

  lemma InboundKeeps(inv: Node -> bool, n: Node, now: int, src: Addr, wire: Bytes, env: UdpEnv)
    requires Shape(n) && inv(n) && KeptByHandshake(inv, src, wire)
    ensures inv(InboundStep(n, now, src, wire, env))
  {
    var r := ServerRespond(n.params.psk, OwnStatic(n.params), OwnEph(n.params, n.precomp), wire);
    if r.Some? {
      var n1 := Apply(n, Replied(src, r.value.wire));
      assert inv(n1);
      var n2 := Apply(n1, Refreshed(env.refreshOk));
      assert inv(n2);
      AdmitKeeps(inv, n2, now, src, wire, r.value, n.precomp);
    }
  }

  lemma HandshakeKeeps(inv: Node -> bool, n: Node, now: int, src: Addr, wire: Bytes, env: UdpEnv)
    requires Shape(n) && inv(n) && KeptByHandshake(inv, src, wire) && HandshakeShaped(n.params, wire)
    ensures inv(DatagramStep(n, now, src, wire, env))
  {
    match FindPending(n.pending, src) {
      case Some(j) => ResponseKeeps(inv, n, now, src, wire, j, env.clientOk);
      case None => InboundKeeps(inv, n, now, src, wire, env);
    }
  }

  // ----- data ---------------------------------------------------------------------------------

  lemma DeliverKeeps(inv: Node -> bool, n: Node, now: int, src: Addr, wire: Bytes, slot: nat, key: Bytes, prev: bool,
                     f: Parsed, c: SendChoice)
    requires Shape(n) && slot < |n.sessions| && inv(n) && KeptByData(inv, src, wire)
    ensures inv(DeliverStep(n, now, slot, key, prev, f, c))
  {
    var sink := SinkOf(n.sessions, slot, f.payload);
    assert inv(Apply(n, Delivered(slot, n.sessions[slot].pub, key, f.q, prev, f.payload, sink)));
  }

  lemma CheckKeeps(inv: Node -> bool, n: Node, now: int, src: Addr, wire: Bytes, slot: nat, f: Parsed, c: SendChoice)
    requires Shape(n) && slot < |n.sessions| && f.q < U64 && inv(n) && KeptByData(inv, src, wire)
    ensures inv(CheckStep(n, now, src, wire, slot, f, c))
  {
    var s := n.sessions[slot];
    var ok := CheckReplay(f.q, s.recvHighest, s.recvWindow).ok;
    var n1 := Apply(n, Checked(slot, s.key, f.q, f.payload, ok, src, wire));
    assert inv(n1);
    DeliverKeeps(inv, n1, now, src, wire, slot, s.key, false, f, c);
  }

  lemma OpenKeeps(inv: Node -> bool, n: Node, now: int, src: Addr, wire: Bytes, slot: nat, c: SendChoice)
    requires Shape(n) && slot < |n.sessions| && inv(n) && KeptByData(inv, src, wire)
    ensures inv(OpenStep(n, now, src, wire, slot, c))
  {
    var s := n.sessions[slot];
    if OpenPacket(s.key, wire).Some? {
      var n1 := Apply(n, Opened(slot, s.key, false, now, src, wire));
      assert inv(n1);
      match OpenFrame(s.key, wire) {
        case None =>
        case Some(f) => CheckKeeps(inv, n1, now, src, wire, slot, f, c);
      }
    } else {
      var n1 := Apply(n, Opened(slot, s.prevKey, true, now, src, wire));
      assert inv(n1);
      match OpenFrame(s.prevKey, wire) {
        case None =>
        case Some(f) => DeliverKeeps(inv, n1, now, src, wire, slot, s.prevKey, true, f, c);
      }
    }
  }

  lemma DataKeeps(inv: Node -> bool, n: Node, now: int, src: Addr, wire: Bytes, c: SendChoice)
    requires Shape(n) && inv(n) && KeptByData(inv, src, wire)
    ensures inv(DataStep(n, now, src, wire, c))
  {
    match FindByAddr(n.sessions, src) {
      case None =>
      case Some(slot) =>
        var n1 := Apply(n, Touched(slot, now));
        assert inv(n1);
        OpenKeeps(inv, n1, now, src, wire, slot, c);
    }
  }

  lemma DatagramKeeps(inv: Node -> bool, n: Node, now: int, src: Addr, wire: Bytes, env: UdpEnv)
    requires Shape(n) && inv(n) && KeptByHandshake(inv, src, wire) && KeptByData(inv, src, wire)
    ensures inv(DatagramStep(n, now, src, wire, env))
  {
    if HandshakeShaped(n.params, wire) {
      HandshakeKeeps(inv, n, now, src, wire, env);
    } else {
      DataKeeps(inv, n, now, src, wire, env.send);
    }
  }
}
