/** Any number of nodes on a network that loses, duplicates and reorders datagrams but does not
    invent them: a datagram that arrives was sent by the node at its source address to the
    receiver, and it may arrive any number of times, in any order, or never.

    Each datagram carries a count of the UDP links its payload has crossed; no node reads it. */
module Network {
  import opened Options
  import opened Bits
  import opened Crypto
  import opened Framing
  import opened Tables
  import opened Trace
  import opened Steps
  import opened Walks
  import opened Invariants
  import opened Runs
  import opened LegalLogs
  import opened Emissions
  import opened Guarantees

  datatype Envelope = Envelope(src: Addr, dst: Addr, wire: Bytes, hops: nat)

  datatype Net = Net(nodes: map<Addr, Node>, wires: seq<Envelope>)

  /** What happens at one node: its clock, a packet from its TUN device, or the arrival of one of
      the datagrams ever sent to it. */
  datatype Happening =
    | LocalTick(now: int, tick: TickEnv)
    | LocalTun(now: int, packet: seq<Byte>, send: SendChoice)
    | Arrival(now: int, k: nat, udp: UdpEnv)

  predicate Possible(net: Net, at: Addr, what: Happening) {
    && at in net.nodes
    && (what.Arrival? ==> what.k < |net.wires| && net.wires[what.k].dst == at)
  }

  function InputOf(net: Net, what: Happening): Input
    requires what.Arrival? ==> what.k < |net.wires|
  {
    match what
    case LocalTick(now, env) => Tick(now, env)
    case LocalTun(now, packet, c) => TunRead(now, packet, c)
    case Arrival(now, k, env) => Datagram(now, net.wires[k].src, net.wires[k].wire, env)
  }

  /** Links crossed by what the node sends next: one more than the packet it relays. */
  function HopsIn(net: Net, what: Happening): nat
    requires what.Arrival? ==> what.k < |net.wires|
  {
    if what.Arrival? then net.wires[what.k].hops else 0
  }

  predicate Emits(e: Event) {
    e.Greeted? || e.Replied? || (e.Sent? && e.ok)
  }

  function EnvelopeOf(src: Addr, e: Event, hopsIn: nat): Envelope
    requires Emits(e)
  {
    Envelope(src, e.dst, e.wire, if e.Sent? && e.origin.Relayed? then hopsIn + 1 else 1)
  }

  /** The datagrams that the events of `es` put on the network. */
  function Outgoing(src: Addr, es: seq<Event>, hopsIn: nat): seq<Envelope> {
    if es == [] then []
    else
      Outgoing(src, es[..|es| - 1], hopsIn) +
      if Emits(es[|es| - 1]) then [EnvelopeOf(src, es[|es| - 1], hopsIn)] else []
  }

  lemma {:induction false} OutgoingFrom(src: Addr, es: seq<Event>, hopsIn: nat, k: nat) returns (i: nat)
    requires k < |Outgoing(src, es, hopsIn)|
    ensures i < |es| && Emits(es[i]) && Outgoing(src, es, hopsIn)[k] == EnvelopeOf(src, es[i], hopsIn)
  {
    if k < |Outgoing(src, es[..|es| - 1], hopsIn)| {
      i := OutgoingFrom(src, es[..|es| - 1], hopsIn, k);
    } else {
      i := |es| - 1;
    }
  }

  /** And the converse: every event that emits has its datagram among them. */
  lemma {:induction false} OutgoingHas(src: Addr, es: seq<Event>, hopsIn: nat, i: nat) returns (k: nat)
    requires i < |es| && Emits(es[i])
    ensures k < |Outgoing(src, es, hopsIn)| && Outgoing(src, es, hopsIn)[k] == EnvelopeOf(src, es[i], hopsIn)
  {
    if i < |es| - 1 {
      k := OutgoingHas(src, es[..|es| - 1], hopsIn, i);
    } else {
      k := |Outgoing(src, es[..i], hopsIn)|;
    }
  }

  ghost predicate Ready(net: Net, at: Addr, what: Happening) {
    Possible(net, at, what) && Shape(net.nodes[at])
  }

  /** The node makes its step; what it sends is on the network from then on. */
  ghost function NetStep(net: Net, at: Addr, what: Happening): Net
    requires Ready(net, at, what)
  {
    NodeStep(net, at, what);
    var n := net.nodes[at];
    var n' := Step(n, InputOf(net, what));
    Net(net.nodes[at := n'], net.wires + Outgoing(at, n'.log[|n.log|..], HopsIn(net, what)))
  }

  ghost predicate InitialNet(net: Net) {
    && (forall a | a in net.nodes :: Initial(net.nodes[a]))
    && net.wires == []
  }

  // ----- what the network knows about its nodes -----------------------------------------------

  /** Event `i` of the sender's log put this envelope on the network. */
  ghost predicate SentBy(n: Node, i: nat, w: Envelope) {
    i < |n.log| && Emits(n.log[i]) && n.log[i].dst == w.dst && n.log[i].wire == w.wire
  }

  ghost predicate Traced(net: Net, k: nat)
    requires k < |net.wires|
  {
    net.wires[k].src in net.nodes && exists i: nat :: SentBy(net.nodes[net.wires[k].src], i, net.wires[k])
  }

  /** Envelope `k` is the one that event `j` at node `b` is about. */
  ghost predicate Arrived(net: Net, b: Addr, j: nat, k: nat)
    requires b in net.nodes
  {
    && j < |net.nodes[b].log| && Carries(net.nodes[b].log[j]) && k < |net.wires|
    && net.wires[k].src == net.nodes[b].log[j].src && net.wires[k].dst == b
    && net.wires[k].wire == net.nodes[b].log[j].wire
  }

  ghost predicate NetInv(net: Net) {
    && (forall a | a in net.nodes :: HealthOf(net.nodes[a]).Sound?)
    && (forall k | 0 <= k < |net.wires| :: Traced(net, k))
    && AllArrived(net)
  }

  /** One node's step: its log grows by the events of that kind of step. */
  predicate EventOf(net: Net, what: Happening, e: Event)
    requires what.Arrival? ==> what.k < |net.wires|
  {
    match what
    case LocalTick(_, _) => TickEvent(e)
    case LocalTun(_, _, _) => TunEvent(e)
    case Arrival(_, k, _) => UdpEvent(e, net.wires[k].src, net.wires[k].wire)
  }

  lemma NodeStep(net: Net, at: Addr, what: Happening)
    requires Ready(net, at, what)
    ensures var n, n' := net.nodes[at], Step(net.nodes[at], InputOf(net, what));
            && |n.log| <= |n'.log| && n'.log[..|n.log|] == n.log && n'.params == n.params
            && forall i | |n.log| <= i < |n'.log| :: EventOf(net, what, n'.log[i])
  {
    var n := net.nodes[at];
    StepKeepsParams(n, InputOf(net, what));
    match what {
      case LocalTick(now, env) => TickAdds(n, now, env);
      case LocalTun(now, packet, c) => TunAdds(n, now, packet, c);
      case Arrival(now, k, env) => DatagramAdds(n, now, net.wires[k].src, net.wires[k].wire, env);
    }
  }

  lemma TracedStays(net: Net, net': Net, k: nat)
    requires k < |net.wires| && Traced(net, k) && net.wires <= net'.wires
    requires forall a | a in net.nodes :: a in net'.nodes && net.nodes[a].log <= net'.nodes[a].log
    ensures Traced(net', k)
  {
    var i: nat :| SentBy(net.nodes[net.wires[k].src], i, net.wires[k]);
    assert SentBy(net'.nodes[net.wires[k].src], i, net'.wires[k]);
  }

  lemma ArrivedStays(net: Net, net': Net, b: Addr, j: nat)
    requires b in net.nodes && j < |net.nodes[b].log| && net.wires <= net'.wires
    requires b in net'.nodes && net.nodes[b].log <= net'.nodes[b].log
    requires exists k: nat :: Arrived(net, b, j, k)
    ensures exists k: nat :: Arrived(net', b, j, k)
  {
    var k: nat :| Arrived(net, b, j, k);
    assert Arrived(net', b, j, k);
  }

  /** `net'` is `net` after the node at `at` went on to `n'`, its new events satisfying `ok`. */
  ghost predicate Moved(net: Net, at: Addr, n': Node, hopsIn: nat, ok: Event -> bool, net': Net) {
    && at in net.nodes
    && var n := net.nodes[at];
       && |n.log| <= |n'.log| && n'.log[..|n.log|] == n.log
       && (forall i | |n.log| <= i < |n'.log| :: ok(n'.log[i]))
       && net' == Net(net.nodes[at := n'], net.wires + Outgoing(at, n'.log[|n.log|..], hopsIn))
  }

  lemma NetStepMoves(net: Net, at: Addr, what: Happening)
    requires Ready(net, at, what)
    ensures Moved(net, at, Step(net.nodes[at], InputOf(net, what)), HopsIn(net, what), e => EventOf(net, what, e),
                  NetStep(net, at, what))
  {
    NodeStep(net, at, what);
  }

  /** What a node sends in a step, an initiation, a reply or a packet that went out, is on the network
      from then on: under its own address, for the receiver, with one link more than the packet that
      was relayed, or with one; and what was on the network before still is. */
  lemma SentIsOnTheNetwork(net: Net, at: Addr, what: Happening, i: nat) returns (k: nat)
    requires Ready(net, at, what)
    requires var h := Step(net.nodes[at], InputOf(net, what)).log;
             |net.nodes[at].log| <= i < |h| && (h[i].Greeted? || h[i].Replied? || (h[i].Sent? && h[i].ok))
    ensures var h, net' := Step(net.nodes[at], InputOf(net, what)).log, NetStep(net, at, what);
            var hops := if !(h[i].Sent? && h[i].origin.Relayed?) then 1
                        else if what.Arrival? then net.wires[what.k].hops + 1 else 1;
            && net.wires <= net'.wires && |net.wires| <= k < |net'.wires|
            && net'.wires[k] == Envelope(at, h[i].dst, h[i].wire, hops)
  {
    NetStepMoves(net, at, what);
    k := MovedEmits(net, at, Step(net.nodes[at], InputOf(net, what)), HopsIn(net, what), e => EventOf(net, what, e),
                    NetStep(net, at, what), i);
  }

  lemma MovedEmits(net: Net, at: Addr, n': Node, hopsIn: nat, ok: Event -> bool, net': Net, i: nat) returns (k: nat)
    requires Moved(net, at, n', hopsIn, ok, net') && |net.nodes[at].log| <= i < |n'.log| && Emits(n'.log[i])
    ensures net.wires <= net'.wires && |net.wires| <= k < |net'.wires|
    ensures net'.wires[k] == EnvelopeOf(at, n'.log[i], hopsIn)
  {
    var n := net.nodes[at];
    assert n'.log[|n.log|..][i - |n.log|] == n'.log[i];
    var j := OutgoingHas(at, n'.log[|n.log|..], hopsIn, i - |n.log|);
    k := |net.wires| + j;
  }

  lemma MovedTraced(net: Net, at: Addr, n': Node, hopsIn: nat, ok: Event -> bool, net': Net, k: nat)
    requires Moved(net, at, n', hopsIn, ok, net') && k < |net'.wires|
    requires k < |net.wires| ==> Traced(net, k)
    ensures Traced(net', k)
  {
    var n := net.nodes[at];
    if k < |net.wires| {
      TracedStays(net, net', k);
    } else {
      var i := OutgoingFrom(at, n'.log[|n.log|..], hopsIn, k - |net.wires|);
      assert SentBy(n', |n.log| + i, net'.wires[k]);
    }
  }

  lemma MovedArrived(net: Net, at: Addr, n': Node, hopsIn: nat, what: Happening, net': Net, b: Addr, j: nat)
    requires Possible(net, at, what) && Moved(net, at, n', hopsIn, e => EventOf(net, what, e), net')
    requires b in net'.nodes && j < |net'.nodes[b].log| && Carries(net'.nodes[b].log[j])
    requires b in net.nodes && j < |net.nodes[b].log| && Carries(net.nodes[b].log[j]) ==>
               exists k: nat :: Arrived(net, b, j, k)
    ensures exists k: nat :: Arrived(net', b, j, k)
  {
    if j < |net.nodes[b].log| {
      assert net.nodes[b].log[j] == net'.nodes[b].log[j];
      ArrivedStays(net, net', b, j);
    } else {
      assert EventOf(net, what, n'.log[j]);
      assert Arrived(net', b, j, what.k);
    }
  }

  /** The invariant as a value, as for a single node. */
  ghost function NetHealth(net: Net): Health {
    if NetInv(net) then Sound else Broken
  }

  lemma NetStepKeepsInv(net: Net, at: Addr, what: Happening)
    requires NetHealth(net).Sound? && Ready(net, at, what)
    ensures NetHealth(NetStep(net, at, what)).Sound?
  {
    StepKeepsInv(net.nodes[at], InputOf(net, what));
    StepTraced(net, at, what);
    StepArrived(net, at, what);
  }

  lemma StepTraced(net: Net, at: Addr, what: Happening)
    requires Ready(net, at, what) && forall k | 0 <= k < |net.wires| :: Traced(net, k)
    ensures var net' := NetStep(net, at, what); forall k | 0 <= k < |net'.wires| :: Traced(net', k)
  {
    var n', hopsIn, net' := Step(net.nodes[at], InputOf(net, what)), HopsIn(net, what), NetStep(net, at, what);
    NetStepMoves(net, at, what);
    forall k | 0 <= k < |net'.wires|
      ensures Traced(net', k)
    {
      MovedTraced(net, at, n', hopsIn, e => EventOf(net, what, e), net', k);
    }
  }

  /** Every decryption and check in b's log was made on a datagram of the network. */
  ghost predicate AllArrived(net: Net) {
    forall b, j: nat | b in net.nodes && j < |net.nodes[b].log| && Carries(net.nodes[b].log[j]) ::
      exists k: nat :: Arrived(net, b, j, k)
  }

  lemma StepArrived(net: Net, at: Addr, what: Happening)
    requires Ready(net, at, what) && AllArrived(net)
    ensures AllArrived(NetStep(net, at, what))
  {
    var n', hopsIn, net' := Step(net.nodes[at], InputOf(net, what)), HopsIn(net, what), NetStep(net, at, what);
    NetStepMoves(net, at, what);
    forall b, j: nat | b in net'.nodes && j < |net'.nodes[b].log| && Carries(net'.nodes[b].log[j])
      ensures exists k: nat :: Arrived(net', b, j, k)
    {
      MovedArrived(net, at, n', hopsIn, what, net', b, j);
    }
  }

  // What a healthy network offers, one fact at a time.

  lemma NetLegal(net: Net, a: Addr)
    requires NetHealth(net).Sound? && a in net.nodes
    ensures LegalLog(net.nodes[a].params, net.nodes[a].log)
  {
  }

  lemma NetArrived(net: Net, b: Addr, j: nat) returns (k: nat)
    requires NetHealth(net).Sound? && b in net.nodes && j < |net.nodes[b].log| && Carries(net.nodes[b].log[j])
    ensures Arrived(net, b, j, k)
  {
    k :| Arrived(net, b, j, k);
  }

  lemma NetTraced(net: Net, k: nat) returns (i: nat)
    requires NetHealth(net).Sound? && k < |net.wires|
    ensures net.wires[k].src in net.nodes && SentBy(net.nodes[net.wires[k].src], i, net.wires[k])
  {
    assert Traced(net, k);
    i :| SentBy(net.nodes[net.wires[k].src], i, net.wires[k]);
  }

  // ----- runs of the network ------------------------------------------------------------------

  datatype Move = Move(at: Addr, what: Happening)

  ghost predicate Goes(net: Net, m: Move, net': Net) {
    Ready(net, m.at, m.what) && net' == NetStep(net, m.at, m.what)
  }

  /** The network went from `net` to `net'` by these moves. */
  ghost predicate Reaches(net: Net, moves: seq<Move>, net': Net)
    decreases |moves|
  {
    if moves == [] then net' == net
    else
      var first, last := moves[..|moves| - 1], moves[|moves| - 1];
      exists mid :: Reaches(net, first, mid) && Goes(mid, last, net')
  }

  lemma {:induction false} ReachableNetInv(net: Net, moves: seq<Move>, net': Net)
    requires InitialNet(net) && Reaches(net, moves, net')
    ensures NetHealth(net').Sound?
    decreases |moves|
  {
    if moves == [] {
      forall a | a in net.nodes
        ensures HealthOf(net.nodes[a]).Sound?
      {
        InitialInv(net.nodes[a]);
      }
    } else {
      var m := moves[|moves| - 1];
      var mid :| Reaches(net, moves[..|moves| - 1], mid) && Goes(mid, m, net');
      ReachableNetInv(net, moves[..|moves| - 1], mid);
      NetStepKeepsInv(mid, m.at, m.what);
    }
  }

  // ----- end to end ---------------------------------------------------------------------------

  /** Position `m` of b's log delivers a payload that came in under the current key. */
  ghost predicate CurrentDelivery(net: Net, b: Addr, m: nat)
    requires b in net.nodes
  {
    m < |net.nodes[b].log| && net.nodes[b].log[m].Delivered? && !net.nodes[b].log[m].prev
  }

  /** Position `i` of a's log sends to `b` what position `m` of b's log delivers. */
  ghost predicate SameTransfer(net: Net, a: Addr, i: nat, b: Addr, m: nat)
    requires a in net.nodes && b in net.nodes
  {
    && i < |net.nodes[a].log| && m < |net.nodes[b].log|
    && net.nodes[a].log[i].Sent? && net.nodes[b].log[m].Delivered?
    && var s, d := net.nodes[a].log[i], net.nodes[b].log[m];
       s.ok && s.dst == b && s.key == d.key && s.q == d.q && s.payload == d.payload
  }

  /** Every payload delivered, under the current or the previous key, was sent with the same key,
      number and payload by the node it arrived from. */
  lemma DeliveredWasSent(net: Net, b: Addr, m: nat) returns (a: Addr, i: nat)
    requires NetHealth(net).Sound? && b in net.nodes && m < |net.nodes[b].log| && net.nodes[b].log[m].Delivered?
    ensures a in net.nodes && SameTransfer(net, a, i, b, m)
  {
    var p, h := net.nodes[b].params, net.nodes[b].log;
    NetLegal(net, b);
    PassedBefore(p, h, m);
    var k := NetArrived(net, b, m - 1);
    i := NetTraced(net, k);
    a := net.wires[k].src;
    NetLegal(net, a);
    var g := net.nodes[a].log;
    LegalAt(net.nodes[a].params, g, i);
    OneFrame(net.nodes[a].params, g[i], h[m].key, Parsed(h[m].q, h[m].payload));
  }

  /** What opens under a key was sealed under it by forward_to_peer, not by a handshake. */
  lemma OneFrame(p: Params, s: Event, key: Bytes, f: Parsed)
    requires Emits(s) && OpenFrame(key, s.wire) == Some(f)
    requires (s.Greeted? || s.Replied?) ==> HandshakeWire(p, s.wire)
    requires s.Sent? ==> OpenFrame(s.key, s.wire) == Some(Parsed(s.q, s.payload))
    ensures s.Sent? && s.key == key && Parsed(s.q, s.payload) == f
  {
  }

  /** Each key was installed once and at most 2^64 packets were sent under it. */
  ghost predicate Unrepeated(h: Log) {
    EachKeyOnce(h) && forall key :: SentUnder(h, key) <= U64
  }

  /** End to end, over any schedule of loss, duplication and reordering: the payloads a node
      delivers under current keys map injectively to sends of the same payload, and each send is
      the only one of its sender with that key and number. */
  lemma DeliveriesInject(start: Net, moves: seq<Move>, net: Net, b: Addr) returns (origin: map<nat, (Addr, nat)>)
    requires InitialNet(start) && Reaches(start, moves, net) && b in net.nodes
    requires forall a | a in net.nodes :: Unrepeated(net.nodes[a].log)
    ensures forall m: nat :: m in origin <==> CurrentDelivery(net, b, m)
    ensures forall m | m in origin :: origin[m].0 in net.nodes && SameTransfer(net, origin[m].0, origin[m].1, b, m)
    ensures forall m, m' | m in origin && m' in origin && m != m' :: origin[m] != origin[m']
    ensures forall m, i: nat | m in origin && SameTransfer(net, origin[m].0, i, b, m) :: i == origin[m].1
  {
    ReachableNetInv(start, moves, net);
    origin := Origins(net, b);
    forall m, m' | m in origin && m' in origin && m != m'
      ensures origin[m] != origin[m']
    {
      if origin[m] == origin[m'] {
        OneDelivery(net, b, m, m', origin[m]);
      }
    }
    forall m, i: nat | m in origin && SameTransfer(net, origin[m].0, i, b, m)
      ensures i == origin[m].1
    {
      OneOrigin(net, b, m, origin[m].0, i, origin[m].1);
    }
  }

  lemma OneDelivery(net: Net, b: Addr, m: nat, m': nat, o: (Addr, nat))
    requires NetHealth(net).Sound? && b in net.nodes
    requires Unrepeated(net.nodes[b].log)
    requires CurrentDelivery(net, b, m) && CurrentDelivery(net, b, m')
    requires IsOrigin(net, b, m, o) && IsOrigin(net, b, m', o)
    ensures m == m'
  {
    NetLegal(net, b);
    if m != m' {
      DeliveredAtMostOnce(net.nodes[b].params, net.nodes[b].log, m, m');
    }
  }

  lemma OneOrigin(net: Net, b: Addr, m: nat, a: Addr, i: nat, k: nat)
    requires NetHealth(net).Sound? && b in net.nodes && a in net.nodes
    requires Unrepeated(net.nodes[a].log)
    requires SameTransfer(net, a, i, b, m) && SameTransfer(net, a, k, b, m)
    ensures i == k
  {
    NetLegal(net, a);
    OneSend(net.nodes[a].params, net.nodes[a].log, i, k);
  }

  lemma Origins(net: Net, b: Addr) returns (origin: map<nat, (Addr, nat)>)
    requires NetHealth(net).Sound? && b in net.nodes
    ensures forall m: nat :: m in origin <==> CurrentDelivery(net, b, m)
    ensures forall m | m in origin :: IsOrigin(net, b, m, origin[m])
  {
    AllHaveOrigins(net, b);
    origin := map m: nat | m < |net.nodes[b].log| && CurrentDelivery(net, b, m) :: OriginOf(net, b, m);
  }

  lemma AllHaveOrigins(net: Net, b: Addr)
    requires NetHealth(net).Sound? && b in net.nodes
    ensures forall m: nat :: CurrentDelivery(net, b, m) ==> exists o :: IsOrigin(net, b, m, o)
  {
    forall m: nat | CurrentDelivery(net, b, m)
      ensures exists o :: IsOrigin(net, b, m, o)
    {
      var a, i := DeliveredWasSent(net, b, m);
      assert IsOrigin(net, b, m, (a, i));
    }
  }

  ghost predicate IsOrigin(net: Net, b: Addr, m: nat, o: (Addr, nat))
    requires b in net.nodes
  {
    o.0 in net.nodes && SameTransfer(net, o.0, o.1, b, m)
  }

  ghost function OriginOf(net: Net, b: Addr, m: nat): (o: (Addr, nat))
    requires b in net.nodes && exists o :: IsOrigin(net, b, m, o)
    ensures IsOrigin(net, b, m, o)
  {
    var o :| IsOrigin(net, b, m, o);
    o
  }

  lemma OneSend(p: Params, h: Log, i: nat, k: nat)
    requires LegalLog(p, h) && Unrepeated(h)
    requires i < |h| && k < |h| && h[i].Sent? && h[k].Sent? && h[i].key == h[k].key && h[i].q == h[k].q
    ensures i == k
  {
    if i < k {
      SentOnce(p, h, i, k);
    } else if k < i {
      SentOnce(p, h, k, i);
    }
  }
}
