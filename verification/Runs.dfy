/** Every step of the event loop keeps the invariants, so they hold in every reachable state. */
module Runs {
  import opened Options
  import opened Crypto
  import opened Handshake
  import opened Framing
  import opened Replay
  import opened Tables
  import opened Routing
  import opened Trace
  import opened Steps
  import opened Invariants

  // ----- the session table never fills up -----------------------------------------------------

  function SessionPubs(ss: seq<Session>): set<Bytes> {
    set i | 0 <= i < |ss| :: ss[i].pub
  }

  function PeerPubs(peers: seq<Peer>): set<Bytes> {
    set c | 0 <= c < |peers| :: peers[c].pub
  }

  lemma {:induction false} SessionPubsCount(ss: seq<Session>)
    requires DistinctPubs(ss) && forall i | 0 <= i < |ss| :: ss[i].active
    ensures |SessionPubs(ss)| == |ss|
  {
    if ss != [] {
      var k := |ss| - 1;
      SessionPubsCount(ss[..k]);
      assert SessionPubs(ss) == SessionPubs(ss[..k]) + {ss[k].pub};
    }
  }

  lemma {:induction false} PeerPubsCount(peers: seq<Peer>)
    ensures |PeerPubs(peers)| <= |peers|
  {
    if peers != [] {
      var k := |peers| - 1;
      PeerPubsCount(peers[..k]);
      assert PeerPubs(peers) == PeerPubs(peers[..k]) + {peers[k].pub};
    }
  }

  lemma SubsetCount<T>(a: set<T>, b: set<T>)
    requires a <= b
    ensures |a| <= |b|
  {
    assert b == a + (b - a);
  }

  /** alloc_session never returns NULL for a configured key: a full table would hold 64 different
      configured keys other than this one, and there are at most 64. */
  lemma AllocNeverFails(n: Node, pub: Bytes, addr: Addr)
    requires Shape(n) && PubInv(n) && pub in PeerPubs(n.params.peers)
    ensures Alloc(n.sessions, pub, addr).Some?
  {
    if Alloc(n.sessions, pub, addr).None? {
      var held := SessionPubs(n.sessions);
      var known := PeerPubs(n.params.peers);
      SessionPubsCount(n.sessions);
      PeerPubsCount(n.params.peers);
      assert held <= known by {
        forall x | x in held
          ensures x in known
        {
          var i :| 0 <= i < |n.sessions| && n.sessions[i].pub == x;
          assert Configured(n.params, n.sessions[i]);
        }
      }
      SubsetCount(held + {pub}, known);
      assert false;
    }
  }

  // ----- the steps ----------------------------------------------------------------------------

  lemma ForwardKeepsInv(n: Node, slot: nat, payload: seq<Byte>, c: SendChoice, now: int, origin: Origin)
    requires Shape(n) && HealthOf(n).Sound? && slot < |n.sessions| && n.sessions[slot].active
    requires if origin.Keepalive? then payload == [] && Quiet(n.params, n.sessions[slot], now)
             else IsIpv4(payload) && RouteLookup(n.sessions, DstIp(payload)) == Some(slot)
    requires origin.Relayed? ==> JustDelivered(n.log, origin.from, slot, payload)
    ensures HealthOf(Forward(n, slot, payload, c, now, origin)).Sound?
  {
    var s := n.sessions[slot];
    SealedFrameRoundTrip(s.key, s.key, c.iv, s.sendSeq, payload);
    var e := Sent(slot, s.addr, s.key, s.sendSeq, payload, SealFrame(s.key, c.iv, s.sendSeq, payload),
                  c.encrypted && c.sent, now, origin);
    EventKeepsInv(n, e);
  }

  lemma InstallKeepsInv(n: Node, addr: Addr, pub: Bytes, cfg: nat, outbound: bool, now: int, eph: nat, peerEph: Bytes)
    requires Shape(n) && HealthOf(n).Sound? && cfg < |n.params.peers| && n.params.peers[cfg].pub == pub
    requires |peerEph| == KEY_LEN && EphSpent(n, eph, outbound) && EphUnused(n.log, eph, outbound)
    requires !outbound ==> AnswersWith(n.log, eph)
    requires !outbound ==> Cooled(n, FindByPub(n.sessions, pub), now) && Cooled(n, FindByAddr(n.sessions, addr), now)
    ensures var key := KeyOf(n.params, outbound, pub, eph, peerEph);
            HealthOf(Install(n, addr, pub, key, cfg, outbound, now, eph, peerEph)).Sound?
  {
    match Alloc(n.sessions, pub, addr) {
      case None =>
      case Some(slot) =>
        var key := KeyOf(n.params, outbound, pub, eph, peerEph);
        EventKeepsInv(n, Installed(slot, addr, pub, key, cfg, outbound, now, eph, peerEph));
    }
  }

  /** That slot's last handshake is at least `cooldown` seconds old. */
  predicate Cooled(n: Node, slot: Option<nat>, now: int)
    requires slot.Some? ==> slot.value < |n.sessions|
  {
    slot.Some? ==> now - n.sessions[slot.value].lastHandshake >= n.params.cooldown
  }

  lemma TunKeepsInv(n: Node, now: int, packet: seq<Byte>, c: SendChoice)
    requires Shape(n) && HealthOf(n).Sound?
    ensures HealthOf(TunStep(n, now, packet, c)).Sound?
  {
    if IsIpv4(packet) {
      match RouteLookup(n.sessions, DstIp(packet)) {
        case None =>
        case Some(slot) => ForwardKeepsInv(n, slot, packet, c, now, FromTun);
      }
    }
  }

  lemma OursIsHandshake(p: Params, psk: Option<Bytes>, eph: Secret, material: Bytes)
    ensures HandshakeWire(p, Message(psk, PubBytes(eph), SealIdentity(material, PubBytes(OwnStatic(p)))))
  {
    var sealed := SealIdentity(material, PubBytes(OwnStatic(p)));
    MessageIdentity(psk, PubBytes(eph), material, PubBytes(OwnStatic(p)));
    forall key
      ensures OpenPacket(key, Message(psk, PubBytes(eph), sealed)).None?
    {
      MessageIsNoPacket(psk, eph, sealed, key);
    }
  }

  /** The events of one handshake initiation: the attempt, and the message if it went out. */
  lemma InitiateKeepsInv(n: Node, i: nat, now: int, endpoint: Addr, greetOk: bool)
    requires Shape(n) && HealthOf(n).Sound? && i < |n.params.peers| && n.params.peers[i].hasEndpoint
    requires now - n.targets[i].lastAttempt >= n.params.reconnect
    ensures HealthOf(Initiate(n, i, now, endpoint, greetOk)).Sound?
    ensures Initiated(n, greetOk) ==>
              PendingFor(Initiate(n, i, now, endpoint, greetOk), FindFreeEntry(n.pending).value, n.params.peers[i].pub)
  {
    var e := Attempted(i, now, endpoint);
    EventKeepsInv(n, e);
    var n1 := Apply(n, e);
    var n' := Initiate(n, i, now, endpoint, greetOk);
    if Initiated(n, greetOk) {
      var hs := ClientStart(OwnEph(n.params, n.nextEph), n.params.peers[i].pub);
      var wire := ClientInit(n.params.psk, hs, PubBytes(OwnStatic(n.params)));
      var g := Greeted(FindFreeEntry(n.pending).value, i, now, n.nextEph, endpoint, wire);
      OursIsHandshake(n.params, n.params.psk, hs.eph, hs.ecdhEcSs);
      EventKeepsInv(n1, g);
      assert n' == Apply(n1, g);
    } else {
      assert n' == n1;
    }
  }

  lemma TickPeerKeepsInv(n: Node, now: int, env: TickEnv, i: nat)
    requires Shape(n) && HealthOf(n).Sound? && i < |n.params.peers|
    ensures HealthOf(TickPeer(n, now, env, i)).Sound?
  {
    var n' := TickPeer(n, now, env, i);
    var s := FindByPub(n.sessions, n.params.peers[i].pub);
    var rested := now - n.targets[i].lastAttempt >= n.params.reconnect;
    if n.params.peers[i].hasEndpoint && NeedsHandshake(n, i, now) && rested {
      var endpoint := if env.resolve(i).Some? then env.resolve(i).value else n.targets[i].endpoint;
      InitiateKeepsInv(n, i, now, endpoint, env.greet(i));
      var n1 := Initiate(n, i, now, endpoint, env.greet(i));
      if Initiated(n, env.greet(i)) && s.Some? {
        EventKeepsInv(n1, Rekeying(s.value));
        assert n' == Apply(n1, Rekeying(s.value));
      } else {
        assert n' == n1;
      }
    } else {
      assert n' == n;
    }
  }

  lemma TickEntryKeepsInv(n: Node, now: int, j: nat)
    requires Shape(n) && HealthOf(n).Sound? && j < MAX_PEERS
    ensures HealthOf(TickEntry(n, now, j)).Sound?
  {
    if TickEntry(n, now, j) != n {
      EventKeepsInv(n, Dropped(j));
    }
  }

  lemma TickSlotKeepsInv(n: Node, now: int, j: nat)
    requires Shape(n) && HealthOf(n).Sound? && j < |n.sessions|
    ensures HealthOf(TickSlot(n, now, j)).Sound?
  {
    if Silent(n.params, n.sessions[j], now) {
      EventKeepsInv(n, Expired(j, now));
    }
  }

  lemma TickQuietKeepsInv(n: Node, now: int, env: TickEnv, j: nat)
    requires Shape(n) && HealthOf(n).Sound? && j < |n.sessions|
    ensures HealthOf(TickQuiet(n, now, env, j)).Sound?
  {
    if Quiet(n.params, n.sessions[j], now) {
      ForwardKeepsInv(n, j, [], env.send(j), now, Keepalive);
    }
  }

  ghost predicate Healthy(n: Node) {
    HealthOf(n).Sound?
  }

  lemma TickKeepsInv(n: Node, now: int, env: TickEnv)
    requires Shape(n) && HealthOf(n).Sound?
    ensures HealthOf(TickStep(n, now, env)).Sound?
  {
    EventKeepsInv(n, Ticked(now));
    forall m, i: nat | Shape(m) && i < |m.params.peers| && Healthy(m)
      ensures Healthy(TickPeer(m, now, env, i))
    {
      TickPeerKeepsInv(m, now, env, i);
    }
    forall m, j: nat | Shape(m) && j < MAX_PEERS && Healthy(m)
      ensures Healthy(TickEntry(m, now, j))
    {
      TickEntryKeepsInv(m, now, j);
    }
    forall m, j: nat | Shape(m) && j < |m.sessions| && Healthy(m)
      ensures Healthy(TickSlot(m, now, j))
    {
      TickSlotKeepsInv(m, now, j);
    }
    forall m, j: nat | Shape(m) && j < |m.sessions| && Healthy(m)
      ensures Healthy(TickQuiet(m, now, env, j))
    {
      TickQuietKeepsInv(m, now, env, j);
    }
    TickKeeps(Healthy, n, now, env);
  }

  lemma ResponseKeepsInv(n: Node, now: int, src: Addr, wire: Bytes, j: nat, clientOk: bool)
    requires Shape(n) && HealthOf(n).Sound? && j < MAX_PEERS && n.pending[j].active
    ensures HealthOf(ResponseStep(n, now, src, wire, j, clientOk)).Sound?
  {
    var p := n.pending[j];
    var pub := n.params.peers[p.cfg].pub;
    var key := ClientRecv(n.params.psk, OwnStatic(n.params), pub, p.hs, wire);
    var n1 := Apply(n, Dropped(j));
    EventKeepsInv(n, Dropped(j));
    if clientOk && key.Some? {
      PendingEphIsSpent(n, j);
      InstallKeepsInv(n1, src, pub, p.cfg, true, now, p.eph, EphOf(wire));
    }
  }

  /** Once its handshake is consumed, a pending ephemeral is in no other use. */
  lemma PendingEphIsSpent(n: Node, j: nat)
    requires Shape(n) && EphInv(n) && j < MAX_PEERS && n.pending[j].active
    ensures EphSpent(Apply(n, Dropped(j)), n.pending[j].eph, true)
    ensures EphUnused(n.log + [Dropped(j)], n.pending[j].eph, true)
  {
  }

  lemma InboundKeepsInv(n: Node, now: int, src: Addr, wire: Bytes, env: UdpEnv)
    requires Shape(n) && HealthOf(n).Sound?
    ensures HealthOf(InboundStep(n, now, src, wire, env)).Sound?
  {
    var n' := InboundStep(n, now, src, wire, env);
    var r := ServerRespond(n.params.psk, OwnStatic(n.params), OwnEph(n.params, n.precomp), wire);
    if !Cooled(n, FindByAddr(n.sessions, src), now) || !env.replyOk || r.None? {
      assert n' == n;
    } else {
      var n1 := Apply(n, Replied(src, r.value.wire));
      var eph := OwnEph(n.params, n.precomp);
      OursIsHandshake(n.params, n.params.psk, eph, SharedSecret(eph, EphOf(wire)));
      EventKeepsInv(n, Replied(src, r.value.wire));
      if !env.keyOk {
        assert n' == n1;
      } else {
        var n2 := Apply(n1, Refreshed(env.refreshOk));
        EventKeepsInv(n1, Refreshed(env.refreshOk));
        PrecompIsSpent(n, Replied(src, r.value.wire), n2, env.refreshOk);
        AdmitKeepsInv(n2, now, src, r.value, n.precomp);
        assert n' == AdmitStep(n2, now, src, r.value, n.precomp);
      }
    }
  }

  lemma AdmitKeepsInv(n: Node, now: int, src: Addr, r: Response, eph: nat)
    requires Shape(n) && HealthOf(n).Sound?
    requires |r.clientEph| == KEY_LEN && r.key == KeyOf(n.params, false, r.clientPub, eph, r.clientEph)
    requires EphSpent(n, eph, false) && EphUnused(n.log, eph, false) && AnswersWith(n.log, eph)
    requires Cooled(n, FindByAddr(n.sessions, src), now)
    ensures HealthOf(AdmitStep(n, now, src, r, eph)).Sound?
  {
    var cfg := FindPeer(n.params.peers, r.clientPub);
    if cfg.Some? && Cooled(n, FindByPub(n.sessions, r.clientPub), now) {
      InstallKeepsInv(n, src, r.clientPub, cfg.value, false, now, eph, r.clientEph);
    }
  }

  /** After a reply and the refresh the ephemeral that was used is in no use but other replies. */
  lemma PrecompIsSpent(n: Node, r: Event, n2: Node, refreshOk: bool)
    requires Shape(n) && EphInv(n) && EphInv(n2) && n2.pending == n.pending && n2.nextEph >= n.nextEph
    requires n2.log == n.log + [r] + [Refreshed(refreshOk)] && r.Replied?
    ensures EphSpent(n2, n.precomp, false) && EphUnused(n2.log, n.precomp, false) && AnswersWith(n2.log, n.precomp)
  {
    assert n2.log[..|n2.log| - 1] == n.log + [r];
  }

  lemma PassOnKeepsInv(n: Node, now: int, e: Event, c: SendChoice)
    requires Shape(n) && HealthOf(n).Sound? && Guard(n, e) && e.Delivered?
    requires e.sink.ToPeer? ==> e.sink.slot < |n.sessions|
    ensures HealthOf(PassOn(n, now, e, c)).Sound?
  {
    EventKeepsInv(n, e);
    if e.sink.ToPeer? {
      ForwardKeepsInv(Apply(n, e), e.sink.slot, e.payload, c, now, Relayed(e.slot));
    }
  }

  lemma DeliveryIsGuarded(n: Node, slot: nat, key: Bytes, prev: bool, f: Parsed)
    requires Shape(n) && slot < |n.sessions| && n.sessions[slot].active && !Spoofed(n.sessions[slot], f.payload)
    requires JustPassed(n.log, slot, key, f.q, prev, f.payload)
    ensures var sink := SinkOf(n.sessions, slot, f.payload);
            Guard(n, Delivered(slot, n.sessions[slot].pub, key, f.q, prev, f.payload, sink))
  {
  }

  lemma DeliverKeepsInv(n: Node, now: int, slot: nat, key: Bytes, prev: bool, f: Parsed, c: SendChoice)
    requires Shape(n) && HealthOf(n).Sound? && slot < |n.sessions| && n.sessions[slot].active
    requires JustPassed(n.log, slot, key, f.q, prev, f.payload)
    ensures HealthOf(DeliverStep(n, now, slot, key, prev, f, c)).Sound?
  {
    var s := n.sessions[slot];
    var n' := DeliverStep(n, now, slot, key, prev, f, c);
    if f.payload == [] || Spoofed(s, f.payload) {
      assert n' == n;
    } else {
      var e := Delivered(slot, s.pub, key, f.q, prev, f.payload, SinkOf(n.sessions, slot, f.payload));
      DeliveryIsGuarded(n, slot, key, prev, f);
      PassOnKeepsInv(n, now, e, c);
      assert n' == PassOn(n, now, e, c);
    }
  }

  lemma CurrentKeyKeepsInv(n: Node, now: int, src: Addr, wire: Bytes, slot: nat, c: SendChoice)
    requires Shape(n) && HealthOf(n).Sound? && slot < |n.sessions| && n.sessions[slot].active
    requires OpenPacket(n.sessions[slot].key, wire).Some?
    ensures HealthOf(CurrentKeyStep(n, now, src, wire, slot, c)).Sound?
  {
    var s := n.sessions[slot];
    EventKeepsInv(n, Opened(slot, s.key, false, now, src, wire));
    var n1 := Apply(n, Opened(slot, s.key, false, now, src, wire));
    match OpenFrame(s.key, wire) {
      case None =>
      case Some(f) =>
        var ok := CheckReplay(f.q, s.recvHighest, s.recvWindow).ok;
        var e := Checked(slot, s.key, f.q, f.payload, ok, src, wire);
        EventKeepsInv(n1, e);
        if ok {
          DeliverKeepsInv(Apply(n1, e), now, slot, s.key, false, f, c);
        }
    }
  }

  lemma PrevKeyKeepsInv(n: Node, now: int, src: Addr, wire: Bytes, slot: nat, c: SendChoice)
    requires Shape(n) && HealthOf(n).Sound? && slot < |n.sessions| && n.sessions[slot].active
    requires n.sessions[slot].prevActive && now <= n.sessions[slot].prevExpires
    requires OpenPacket(n.sessions[slot].prevKey, wire).Some?
    ensures HealthOf(PrevKeyStep(n, now, src, wire, slot, c)).Sound?
  {
    var s := n.sessions[slot];
    EventKeepsInv(n, Opened(slot, s.prevKey, true, now, src, wire));
    match OpenFrame(s.prevKey, wire) {
      case None =>
      case Some(f) =>
        DeliverKeepsInv(Apply(n, Opened(slot, s.prevKey, true, now, src, wire)), now, slot, s.prevKey, true, f, c);
    }
  }

  lemma DataKeepsInv(n: Node, now: int, src: Addr, wire: Bytes, c: SendChoice)
    requires Shape(n) && HealthOf(n).Sound?
    ensures HealthOf(DataStep(n, now, src, wire, c)).Sound?
  {
    match FindByAddr(n.sessions, src) {
      case None =>
      case Some(slot) =>
        EventKeepsInv(n, Touched(slot, now));
        var n1 := Apply(n, Touched(slot, now));
        var s := n1.sessions[slot];
        if OpenPacket(s.key, wire).Some? {
          CurrentKeyKeepsInv(n1, now, src, wire, slot, c);
        } else if s.prevActive && now <= s.prevExpires && OpenPacket(s.prevKey, wire).Some? {
          PrevKeyKeepsInv(n1, now, src, wire, slot, c);
        }
    }
  }

  lemma StepKeepsInv(n: Node, input: Input)
    requires Shape(n) && HealthOf(n).Sound?
    ensures HealthOf(Step(n, input)).Sound?
  {
    match input {
      case Tick(now, env) => TickKeepsInv(n, now, env);
      case TunRead(now, packet, c) => TunKeepsInv(n, now, packet, c);
      case Datagram(now, src, wire, env) =>
        if !HandshakeShaped(n.params, wire) {
          DataKeepsInv(n, now, src, wire, env.send);
        } else {
          match FindPending(n.pending, src) {
            case Some(j) => ResponseKeepsInv(n, now, src, wire, j, env.clientOk);
            case None => InboundKeepsInv(n, now, src, wire, env);
          }
        }
    }
  }

  lemma InitialInv(n: Node)
    requires Initial(n)
    ensures HealthOf(n).Sound?
  {
  }

  /** The invariants hold in every reachable state. */
  lemma {:induction false} ReachableInv(n: Node, inputs: seq<Input>)
    requires Initial(n)
    ensures HealthOf(Steps.Run(n, inputs)).Sound?
  {
    InitialInv(n);
    if inputs != [] {
      ReachableInv(n, inputs[..|inputs| - 1]);
      StepKeepsInv(Steps.Run(n, inputs[..|inputs| - 1]), inputs[|inputs| - 1]);
    }
  }
}
