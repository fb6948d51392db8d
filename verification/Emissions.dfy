/** Which events each kind of step adds to the log. */
module Emissions {
  import opened Crypto
  import opened Tables
  import opened Steps
  import opened Walks

  /** The log of `n'` extends that of `n` by events that satisfy `ok`. */
  ghost predicate Adds(n: Node, n': Node, ok: Event -> bool) {
    && |n.log| <= |n'.log| && n'.log[..|n.log|] == n.log
    && forall i | |n.log| <= i < |n'.log| :: ok(n'.log[i])
  }

  lemma AddsOne(n: Node, e: Event, ok: Event -> bool)
    requires InRange(n, e) && ok(e)
    ensures Adds(n, Apply(n, e), ok)
  {
  }

  lemma AddsMore(n: Node, n1: Node, n2: Node, ok: Event -> bool)
    requires Adds(n, n1, ok) && Adds(n1, n2, ok)
    ensures Adds(n, n2, ok)
  {
  }

  predicate TickEvent(e: Event) {
    match e
    case Ticked(_) => true
    case Attempted(_, _, _) => true
    case Greeted(_, _, _, _, _, _) => true
    case Rekeying(_) => true
    case Dropped(_) => true
    case Expired(_, _) => true
    case Sent(_, _, _, _, _, _, _, _, origin) => origin.Keepalive?
    case _ => false
  }

  predicate TunEvent(e: Event) {
    e.Sent? && e.origin.FromTun?
  }

  // ----- ticks --------------------------------------------------------------------------------

  lemma TickPeerAdds(n: Node, now: int, env: TickEnv, i: nat)
    requires Shape(n) && i < |n.params.peers|
    ensures Adds(n, TickPeer(n, now, env, i), TickEvent)
  {
  }

  lemma TickAdds(n: Node, now: int, env: TickEnv)
    requires Shape(n)
    ensures Adds(n, TickStep(n, now, env), TickEvent)
  {
    var grown := (m: Node) => Adds(n, m, TickEvent);
    forall m, i: nat | Shape(m) && i < |m.params.peers| && grown(m)
      ensures grown(TickPeer(m, now, env, i))
    {
      TickPeerAdds(m, now, env, i);
      AddsMore(n, m, TickPeer(m, now, env, i), TickEvent);
    }
    forall m, j: nat | Shape(m) && j < MAX_PEERS && grown(m)
      ensures grown(TickEntry(m, now, j))
    {
      AddsMore(n, m, TickEntry(m, now, j), TickEvent);
    }
    forall m, j: nat | Shape(m) && j < |m.sessions| && grown(m)
      ensures grown(TickSlot(m, now, j))
    {
      AddsMore(n, m, TickSlot(m, now, j), TickEvent);
    }
    forall m, j: nat | Shape(m) && j < |m.sessions| && grown(m)
      ensures grown(TickQuiet(m, now, env, j))
    {
      AddsMore(n, m, TickQuiet(m, now, env, j), TickEvent);
    }
    TickKeeps(grown, n, now, env);
  }

  lemma TunAdds(n: Node, now: int, packet: seq<Byte>, c: SendChoice)
    requires Shape(n)
    ensures Adds(n, TunStep(n, now, packet, c), TunEvent)
  {
  }

  // ----- datagrams ----------------------------------------------------------------------------

  /** A datagram adds only events of its own kind. */
  lemma DatagramAdds(n: Node, now: int, src: Addr, wire: Bytes, env: UdpEnv)
    requires Shape(n)
    ensures Adds(n, DatagramStep(n, now, src, wire, env), e => UdpEvent(e, src, wire))
  {
    var ok := e => UdpEvent(e, src, wire);
    var grown := (m: Node) => Adds(n, m, ok);
    forall m, e | Shape(m) && InRange(m, e) && UdpEvent(e, src, wire) && grown(m)
      ensures grown(Apply(m, e))
    {
      AddsOne(m, e, ok);
      AddsMore(n, m, Apply(m, e), ok);
    }
    DatagramKeeps(grown, n, now, src, wire, env);
  }
}
