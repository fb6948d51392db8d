/** The topology the tunnel is made for: a relay, and spokes that know only the relay's key. */
module HubSpoke {
  import opened Options
  import opened Crypto
  import opened Handshake
  import opened Tables
  import opened Trace
  import opened Steps
  import opened Runs
  import opened LegalLogs
  import opened Guarantees
  import opened Network

  ghost predicate OneKey(p: Params) {
    forall c, d | 0 <= c < |p.peers| && 0 <= d < |p.peers| :: p.peers[c].pub == p.peers[d].pub
  }

  ghost predicate HubAndSpokes(net: Net, hub: Addr) {
    && hub in net.nodes && OwnKeyNotAPeer(net.nodes[hub].params)
    && forall a | a in net.nodes && a != hub :: OneKey(net.nodes[a].params)
  }

  /** The relay has no session with its own address. */
  ghost predicate NotSelf(h: Log, self: Addr) {
    forall i | 0 <= i < |h| :: h[i].Installed? ==> h[i].addr != self
  }

  /** A datagram has crossed one link when it arrives, and two only if the relay sent it on to
      somebody else. */
  ghost predicate FewHops(w: Envelope, hub: Addr) {
    w.hops <= if w.src == hub && w.dst != hub then 2 else 1
  }

  ghost predicate HopInv(net: Net, hub: Addr) {
    && HubAndSpokes(net, hub)
    && NotSelf(net.nodes[hub].log, hub)
    && forall k | 0 <= k < |net.wires| :: FewHops(net.wires[k], hub)
  }

  /** Packets go to the address a session was installed with. */
  lemma HubSendsAway(p: Params, h: Log, i: int, hub: Addr)
    requires LegalLog(p, h) && NotSelf(h, hub) && 0 <= i < |h| && h[i].Sent?
    ensures h[i].dst != hub
  {
    LegalAt(p, h, i);
    ViewRemembers(h[..i], h[i].slot);
    var b := View(h[..i], h[i].slot).born;
    assert h[..i][b] == h[b];
  }

  lemma SpokeSendsOwn(p: Params, h: Log, i: int)
    requires LegalLog(p, h) && OneKey(p) && 0 <= i < |h| && h[i].Sent?
    ensures !h[i].origin.Relayed?
  {
    LegalAt(p, h, i);
    if h[i].origin.Relayed? {
      assert h[..i][i - 1] == h[i - 1];
      SpokeNeverRelays(p, h, i - 1);
    }
  }

  lemma NewEnvelopeFewHops(net: Net, at: Addr, what: Happening, hub: Addr, h: Log, i: nat)
    requires HopInv(net, hub) && Possible(net, at, what) && LegalLog(net.nodes[at].params, h)
    requires i < |h| && Emits(h[i]) && EventOf(net, what, h[i]) && (at == hub ==> NotSelf(h, hub))
    ensures FewHops(EnvelopeOf(at, h[i], HopsIn(net, what)), hub)
  {
    if at == hub && h[i].Sent? {
      HubSendsAway(net.nodes[at].params, h, i, hub);
    } else if h[i].Sent? {
      SpokeSendsOwn(net.nodes[at].params, h, i);
    }
  }

  /** What a node sent itself names the node or nobody, not one of its peers. */
  lemma OwnWireNamesNoPeer(p: Params, h: Log, i: int, pub: Bytes)
    requires LegalLog(p, h) && 0 <= i < |h| && Emits(h[i]) && IdentityIn(h[i].wire) == Some(pub)
    ensures pub == PubBytes(OwnStatic(p))
  {
  }

  /** The relay never installs a session with its own address: that takes a handshake message that
      came from the relay and names one of its peers. */
  lemma NoSessionWithSelf(net: Net, what: Happening, hub: Addr, h: Log, j: nat)
    requires NetHealth(net).Sound? && HopInv(net, hub) && Possible(net, hub, what)
    requires LegalLog(net.nodes[hub].params, h) && j < |h| && h[j].Installed? && EventOf(net, what, h[j])
    ensures h[j].addr != hub
  {
    InstalledForPeer(net.nodes[hub].params, h, j);
    InstalledByArrival(net, what, h[j]);
    if h[j].addr == hub {
      WireNamesItsSender(net, what.k, h[j].pub);
    }
  }

  /** A session is installed for the address and the identity in a datagram. */
  lemma InstalledByArrival(net: Net, what: Happening, e: Event)
    requires what.Arrival? ==> what.k < |net.wires|
    requires e.Installed? && EventOf(net, what, e)
    ensures what.Arrival? && net.wires[what.k].src == e.addr && IdentityIn(net.wires[what.k].wire) == Some(e.pub)
  {
  }

  lemma WireNamesItsSender(net: Net, k: nat, pub: Bytes)
    requires NetHealth(net).Sound? && k < |net.wires| && IdentityIn(net.wires[k].wire) == Some(pub)
    ensures net.wires[k].src in net.nodes && pub == PubBytes(OwnStatic(net.nodes[net.wires[k].src].params))
  {
    var i := NetTraced(net, k);
    var a := net.wires[k].src;
    NetLegal(net, a);
    OwnWireNamesNoPeer(net.nodes[a].params, net.nodes[a].log, i, pub);
  }

  lemma NotSelfStays(net: Net, what: Happening, hub: Addr)
    requires NetHealth(net).Sound? && HopInv(net, hub) && Ready(net, hub, what)
    ensures NotSelf(Step(net.nodes[hub], InputOf(net, what)).log, hub)
  {
    NodeStep(net, hub, what);
    NodeLegal(net, hub, what);
    var n, n' := net.nodes[hub], Step(net.nodes[hub], InputOf(net, what));
    forall i | 0 <= i < |n'.log| && n'.log[i].Installed?
      ensures n'.log[i].addr != hub
    {
      if i < |n.log| {
        assert n'.log[i] == n.log[i];
      } else {
        NoSessionWithSelf(net, what, hub, n'.log, i);
      }
    }
  }

  lemma TopologyStays(net: Net, at: Addr, what: Happening, hub: Addr)
    requires HubAndSpokes(net, hub) && Ready(net, at, what)
    ensures HubAndSpokes(NetStep(net, at, what), hub)
  {
    NodeStep(net, at, what);
  }

  lemma NewEnvelopeFrom(net: Net, at: Addr, what: Happening, n': Node, net': Net, k: nat) returns (i: nat)
    requires Possible(net, at, what) && |net.wires| <= k < |net'.wires|
    requires Moved(net, at, n', HopsIn(net, what), e => EventOf(net, what, e), net')
    ensures i < |n'.log| && Emits(n'.log[i]) && EventOf(net, what, n'.log[i])
    ensures net'.wires[k] == EnvelopeOf(at, n'.log[i], HopsIn(net, what))
  {
    var n := net.nodes[at];
    var j := OutgoingFrom(at, n'.log[|n.log|..], HopsIn(net, what), k - |net.wires|);
    i := |n.log| + j;
    assert n'.log[|n.log|..][j] == n'.log[i];
  }

  lemma WireFewHops(net: Net, at: Addr, what: Happening, hub: Addr, n': Node, net': Net, k: nat)
    requires HopInv(net, hub) && Possible(net, at, what)
    requires Moved(net, at, n', HopsIn(net, what), e => EventOf(net, what, e), net')
    requires LegalLog(net.nodes[at].params, n'.log) && (at == hub ==> NotSelf(n'.log, hub))
    requires k < |net'.wires|
    ensures FewHops(net'.wires[k], hub)
  {
    if k < |net.wires| {
      assert net'.wires[k] == net.wires[k];
    } else {
      var i := NewEnvelopeFrom(net, at, what, n', net', k);
      NewEnvelopeFewHops(net, at, what, hub, n'.log, i);
    }
  }

  lemma HopStep(net: Net, at: Addr, what: Happening, hub: Addr)
    requires NetHealth(net).Sound? && HopInv(net, hub) && Ready(net, at, what)
    ensures HopInv(NetStep(net, at, what), hub)
  {
    var net' := NetStep(net, at, what);
    TopologyStays(net, at, what, hub);
    NetStepMoves(net, at, what);
    NodeLegal(net, at, what);
    if at == hub {
      NotSelfStays(net, what, hub);
    }
    forall k | 0 <= k < |net'.wires|
      ensures FewHops(net'.wires[k], hub)
    {
      WireFewHops(net, at, what, hub, Step(net.nodes[at], InputOf(net, what)), net', k);
    }
  }

  lemma NodeLegal(net: Net, at: Addr, what: Happening)
    requires NetHealth(net).Sound? && Ready(net, at, what)
    ensures LegalLog(net.nodes[at].params, Step(net.nodes[at], InputOf(net, what)).log)
  {
    StepKeepsInv(net.nodes[at], InputOf(net, what));
    StepKeepsParams(net.nodes[at], InputOf(net, what));
  }

  /** In a network of a relay and spokes that know only its key, every packet read from a TUN device
      crosses at most two UDP links: one to the relay, and one from it. */
  lemma {:induction false} AtMostTwoLinks(net: Net, moves: seq<Move>, net': Net, hub: Addr)
    requires InitialNet(net) && HubAndSpokes(net, hub) && Reaches(net, moves, net')
    ensures HopInv(net', hub)
    decreases |moves|
  {
    if moves != [] {
      var m := moves[|moves| - 1];
      var mid :| Reaches(net, moves[..|moves| - 1], mid) && Goes(mid, m, net');
      AtMostTwoLinks(net, moves[..|moves| - 1], mid, hub);
      ReachableNetInv(net, moves[..|moves| - 1], mid);
      HopStep(mid, m.at, m.what, hub);
    }
  }
}
