/** The event loop of src/peer.c as it is written: tables updated in place, searched by loops.

    Every method is proved equal to the function of module Steps that it implements, so everything
    that is proved about runs of that state machine holds of this code. */
module PeerNode {
  import opened Options
  import opened Bits
  import opened Crypto
  import opened Handshake
  import opened Framing
  import opened Replay
  import opened Prefixes
  import opened Tables
  import opened Routing
  import opened Steps

  /** What the program gets to see of an input: its buffers cut what does not fit. */
  function Clip(input: Input): (r: Input)
    ensures input.Tick? ==> r == input
    ensures input.TunRead? ==>
              && r.TunRead? && r == input.(packet := r.packet) && r.packet <= input.packet
              && |r.packet| == if |input.packet| <= 2048 then |input.packet| else 2048
    ensures input.Datagram? ==>
              && r.Datagram? && r == input.(wire := r.wire) && r.wire <= input.wire
              && |r.wire| == if |input.wire| <= 2092 then |input.wire| else 2092
  {
    match input
    case Tick(_, _) => input
    case TunRead(now, packet, c) => TunRead(now, if |packet| <= BUFFER_SIZE then packet else packet[..BUFFER_SIZE], c)
    case Datagram(now, src, wire, env) =>
      Datagram(now, src, if |wire| <= WIRE_SIZE then wire else wire[..WIRE_SIZE], env)
  }

  function Clipped(inputs: seq<Input>): (r: seq<Input>)
    ensures |r| == |inputs|
  {
    seq(|inputs|, i requires 0 <= i < |inputs| => Clip(inputs[i]))
  }

  class EventLoop {
    const params: Params
    const targets: array<Target>
    const sessions: array<Session>
    const pending: array<Pending>
    const buffer: array<Byte>
    const plainBuf: array<Byte>
    const wireBuf: array<Atom>
    var slots: nat
    var precomp: nat
    var nextEph: nat
    var lastCheck: int
    ghost var log: Log

    ghost function State(): Node
      requires slots <= sessions.Length
      reads this, targets, sessions, pending
    {
      Node(params, targets[..], sessions[..slots], pending[..], precomp, nextEph, lastCheck, log)
    }

    ghost predicate Valid()
      reads this, targets, sessions, pending
    {
      && buffer.Length == BUFFER_SIZE && plainBuf.Length == PLAIN_SIZE && wireBuf.Length == WIRE_SIZE
      && buffer != plainBuf
      && sessions.Length == MAX_PEERS && slots <= MAX_PEERS
      && (forall i | slots <= i < MAX_PEERS :: sessions[i] == BlankSession())
      && Shape(State())
    }

    // ----- searching --------------------------------------------------------------------------

    method FindPeerConfig(pub: Bytes) returns (r: Option<nat>)
      ensures r == FindPeer(params.peers, pub)
    {
      for i := 0 to |params.peers|
        invariant FindPeer(params.peers, pub) == FindPeer(params.peers, pub, i)
      {
        if params.peers[i].pub == pub {
          return Some(i);
        }
      }
      return None;
    }

    method FindSessionByAddr(addr: Addr) returns (r: Option<nat>)
      requires Valid()
      ensures r == FindByAddr(State().sessions, addr)
    {
      ghost var ss := State().sessions;
      for i := 0 to slots
        invariant FindByAddr(ss, addr) == FindByAddr(ss, addr, i)
      {
        assert ss[i] == sessions[i];
        if sessions[i].active && sessions[i].addr == addr {
          return Some(i);
        }
      }
      return None;
    }

    method FindSessionByPub(pub: Bytes) returns (r: Option<nat>)
      requires Valid()
      ensures r == FindByPub(State().sessions, pub)
    {
      ghost var ss := State().sessions;
      for i := 0 to slots
        invariant FindByPub(ss, pub) == FindByPub(ss, pub, i)
      {
        assert ss[i] == sessions[i];
        if sessions[i].active && sessions[i].pub == pub {
          return Some(i);
        }
      }
      return None;
    }

    /** The table after alloc_session: one slot longer if the slot is a new one. */
    static function Grown(ss: seq<Session>, slot: nat): seq<Session> {
      if slot < |ss| then ss else ss + [BlankSession()]
    }

    /** alloc_session: taking an unused slot moves session_slots. */
    method AllocSession(pub: Bytes, addr: Addr) returns (r: Option<nat>)
      requires Valid()
      modifies this`slots
      ensures Valid()
      ensures r == Alloc(old(State()).sessions, pub, addr)
      ensures slots == if r == Some(old(slots)) then old(slots) + 1 else old(slots)
      ensures r.Some? ==> State() == old(State()).(sessions := Grown(old(State()).sessions, r.value))
    {
      r := FindSessionByPub(pub);
      if r.Some? {
        return;
      }
      r := FindSessionByAddr(addr);
      if r.Some? {
        return;
      }
      ghost var ss := State().sessions;
      for i := 0 to slots
        invariant FindInactive(ss) == FindInactive(ss, i)
      {
        assert ss[i] == sessions[i];
        if !sessions[i].active {
          return Some(i);
        }
      }
      if slots >= MAX_PEERS {
        return None;
      }
      r := Some(slots);
      assert sessions[..slots + 1] == ss + [BlankSession()];
      slots := slots + 1;
    }

    method LookupRoute(ip: nat) returns (r: Option<nat>)
      requires slots <= sessions.Length
      ensures r == RouteLookup(State().sessions, ip)
    {
      ghost var ss := State().sessions;
      var bestPrefix: int := -1;
      r := None;
      for i := 0 to slots
        invariant -1 <= bestPrefix && Best(r, bestPrefix) == BestRoute(ss, ip, i)
      {
        assert ss[i] == sessions[i];
        if sessions[i].active {
          r, bestPrefix := LookupRouteIn(i, sessions[i].routes, ip, r, bestPrefix);
        }
      }
    }

    /** The inner loop of route_lookup: the routes of one session. */
    method LookupRouteIn(slot: nat, routes: seq<Prefix>, ip: nat, before: Option<nat>, beforeLen: int)
      returns (r: Option<nat>, bestPrefix: int)
      requires -1 <= beforeLen
      ensures -1 <= bestPrefix
      ensures var len := LongestMatch(routes, ip, |routes|);
              Best(r, bestPrefix) == if len > beforeLen then Best(Some(slot), len) else Best(before, beforeLen)
    {
      r, bestPrefix := before, beforeLen;
      for j := 0 to |routes|
        invariant var len := LongestMatch(routes, ip, j);
                  Best(r, bestPrefix) == if len > beforeLen then Best(Some(slot), len) else Best(before, beforeLen)
      {
        if And(ip, routes[j].mask) == routes[j].network && routes[j].len > bestPrefix {
          bestPrefix := routes[j].len;
          r := Some(slot);
        }
      }
    }

    method CheckAllowedSrc(slot: nat, ip: nat) returns (ok: bool)
      requires Valid() && slot < slots
      ensures ok <==> AllowedSrc(sessions[slot].routes, ip)
    {
      var routes := sessions[slot].routes;
      if |routes| == 0 {
        return true;
      }
      for i := 0 to |routes|
        invariant forall j | 0 <= j < i :: !Matches(routes[j], ip)
      {
        if And(ip, routes[i].mask) == routes[i].network {
          return true;
        }
      }
      return false;
    }

    method FindPendingFrom(src: Addr) returns (r: Option<nat>)
      requires Valid()
      ensures r == FindPending(State().pending, src)
    {
      ghost var ps := pending[..];
      for j := 0 to MAX_PEERS
        invariant FindPending(ps, src) == FindPending(ps, src, j)
      {
        if pending[j].active && pending[j].server == src {
          return Some(j);
        }
      }
      return None;
    }

    method FindFreePending() returns (r: Option<nat>)
      requires Valid()
      ensures r == FindFreeEntry(State().pending)
    {
      ghost var ps := pending[..];
      for j := 0 to MAX_PEERS
        invariant FindFreeEntry(ps) == FindFreeEntry(ps, j)
      {
        if !pending[j].active {
          return Some(j);
        }
      }
      return None;
    }

    // ----- updating ---------------------------------------------------------------------------

    /** A store into a used slot of the session table. */
    method PutSession(slot: nat, s: Session, ghost e: Event)
      requires sessions.Length == MAX_PEERS && slot < slots <= MAX_PEERS
      modifies sessions, this`log
      ensures State() == old(State()).(sessions := old(State()).sessions[slot := s], log := old(log) + [e])
      ensures forall i | slots <= i < MAX_PEERS :: sessions[i] == old(sessions[i])
    {
      sessions[slot] := s;
      log := log + [e];
      assert sessions[..slots] == old(sessions[..slots])[slot := s];
    }

    /** session_init on a slot that AllocSession returned. */
    method InitSlot(slot: nat, addr: Addr, pub: Bytes, key: Bytes, cfg: nat, outbound: bool, now: int,
                    ghost eph: nat, ghost peerEph: Bytes)
      requires sessions.Length == MAX_PEERS && slot < slots <= MAX_PEERS && cfg < |params.peers|
      modifies sessions, this`log
      ensures var s := InitSession(params, old(sessions[slot]), addr, pub, key, cfg, outbound, now);
              State() == old(State()).(
                sessions := old(State()).sessions[slot := s],
                log := old(log) + [Installed(slot, addr, pub, key, cfg, outbound, now, eph, peerEph)])
      ensures forall i | slots <= i < MAX_PEERS :: sessions[i] == old(sessions[i])
    {
      var s := sessions[slot];
      var wasActive := s.active;
      s := s.(active := true, addr := addr, pub := pub);
      if wasActive {
        s := s.(prevKey := s.key, prevActive := true, prevExpires := now + params.grace);
      } else {
        s := s.(prevActive := false);
      }
      s := s.(key := key, lastSeen := 0, lastSent := now, lastHandshake := now,
              rekeyDeadline := now + params.rekeyAfter, rekeying := false,
              sendSeq := 0, recvHighest := 0, recvWindow := ZeroWindow(WINDOW_WORDS),
              outbound := outbound, routes := params.peers[cfg].routes);
      PutSession(slot, s, Installed(slot, addr, pub, key, cfg, outbound, now, eph, peerEph));
    }

    static lemma InstallsInGrown(n: Node, e: Event)
      requires e.Installed? && InRange(n, e)
      ensures var ss := Grown(n.sessions, e.slot);
              var s := InitSession(n.params, ss[e.slot], e.addr, e.pub, e.key, e.cfg, e.outbound, e.now);
              Apply(n, e) == n.(sessions := ss[e.slot := s], log := n.log + [e])
    {
    }

    /** alloc_session and session_init, as both handshake paths call them. */
    method InstallSession(addr: Addr, pub: Bytes, key: Bytes, cfg: nat, outbound: bool, now: int,
                          ghost eph: nat, ghost peerEph: Bytes)
      requires Valid() && cfg < |params.peers|
      modifies this`slots, sessions, this`log
      ensures Valid()
      ensures State() == Install(old(State()), addr, pub, key, cfg, outbound, now, eph, peerEph)
    {
      var slot := AllocSession(pub, addr);
      if slot.Some? {
        ghost var n := old(State());
        InitSlot(slot.value, addr, pub, key, cfg, outbound, now, eph, peerEph);
        InstallsInGrown(n, Installed(slot.value, addr, pub, key, cfg, outbound, now, eph, peerEph));
      }
    }

    /** The frame is built in one buffer and sealed into the other. */
    method SealPayload(key: Bytes, q: nat, payload: array<Byte>, offset: nat, len: nat, c: SendChoice)
      returns (encLen: Option<nat>)
      requires plainBuf.Length == PLAIN_SIZE && wireBuf.Length == WIRE_SIZE && q < U64
      requires len <= BUFFER_SIZE && offset + len <= payload.Length && (payload != plainBuf || offset == PREFIX_SIZE)
      modifies plainBuf, wireBuf
      ensures encLen == if c.encrypted then Some(len + WIRE_OVERHEAD) else None
      ensures c.encrypted ==>
                wireBuf[..len + WIRE_OVERHEAD] == SealFrame(key, c.iv, q, old(payload[offset..offset + len]))
    {
      BuildFrame(plainBuf, q, payload, offset, len);
      encLen := EncryptInto(key, c.iv, plainBuf, PREFIX_SIZE + len, wireBuf, c.encrypted);
    }

    /** forward_to_peer, through the two buffers; the payload may sit in the frame buffer already. */
    method ForwardToPeer(slot: nat, payload: array<Byte>, offset: nat, len: nat, c: SendChoice, now: int,
                         ghost origin: Origin)
      requires Valid() && slot < slots && len <= BUFFER_SIZE && offset + len <= payload.Length
      requires payload != plainBuf || offset == PREFIX_SIZE
      modifies sessions, this`log, plainBuf, wireBuf
      ensures Valid()
      ensures State() == Forward(old(State()), slot, old(payload[offset..offset + len]), c, now, origin)
      ensures var e := log[|log| - 1];
              e.Sent? && (c.encrypted ==> wireBuf[..len + WIRE_OVERHEAD] == e.wire)
    {
      ghost var n, data := State(), payload[offset..offset + len];
      var s := sessions[slot];
      var q := s.sendSeq;
      ghost var wire := SealFrame(s.key, c.iv, q, data);
      var encLen := SealPayload(s.key, q, payload, offset, len, c);
      assert State() == n && Valid();
      CountSent(slot, encLen.Some? && c.sent, now,
                Sent(slot, s.addr, s.key, q, data, wire, c.encrypted && c.sent, now, origin));
    }

    /** The sequence number moves on whether or not the packet went out. */
    method CountSent(slot: nat, ok: bool, now: int, ghost e: Event)
      requires Valid() && slot < slots && e.Sent? && e.slot == slot && e.ok == ok && e.now == now
      modifies sessions, this`log
      ensures Valid()
      ensures State() == Apply(old(State()), e)
    {
      var s := sessions[slot];
      PutSession(slot, s.(sendSeq := (s.sendSeq + 1) % U64, lastSent := if ok then now else s.lastSent), e);
    }

    /** The end of a pending handshake: its session is no longer being rekeyed. */
    method DropPending(j: nat)
      requires Valid() && j < MAX_PEERS && pending[j].active
      modifies pending, sessions, this`log
      ensures Valid()
      ensures State() == Apply(old(State()), Dropped(j))
    {
      ghost var n := State();
      var pub := params.peers[pending[j].cfg].pub;
      pending[j] := pending[j].(active := false);
      assert pending[..] == n.pending[j := n.pending[j].(active := false)];
      assert Shape(State());
      var s := FindSessionByPub(pub);
      if s.Some? {
        PutSession(s.value, sessions[s.value].(rekeying := false), Dropped(j));
      } else {
        log := log + [Dropped(j)];
      }
      assert State() == Apply(n, Dropped(j));
    }

    method InitiateHandshake(i: nat, now: int, endpoint: Addr, greetOk: bool) returns (ok: bool)
      requires Valid() && i < |params.peers|
      modifies targets, pending, this`nextEph, this`log
      ensures Valid()
      ensures State() == Initiate(old(State()), i, now, endpoint, greetOk)
      ensures ok <==> Initiated(old(State()), greetOk)
    {
      MarkAttempt(i, now, endpoint);
      var j := FindFreePending();
      if j.None? || !greetOk {
        return false;
      }
      Greet(j.value, i, now, endpoint);
      return true;
    }

    method MarkAttempt(i: nat, now: int, endpoint: Addr)
      requires Valid() && i < |params.peers|
      modifies targets, this`log
      ensures Valid()
      ensures State() == Apply(old(State()), Attempted(i, now, endpoint))
    {
      ghost var n := State();
      targets[i] := Target(endpoint, now);
      log := log + [Attempted(i, now, endpoint)];
      assert targets[..] == n.targets[i := Target(endpoint, now)];
    }

    /** The entry of a handshake whose initiation went out. */
    method Greet(j: nat, i: nat, now: int, endpoint: Addr)
      requires Valid() && i < |params.peers| && j < MAX_PEERS
      modifies pending, this`nextEph, this`log
      ensures Valid()
      ensures var hs := ClientStart(OwnEph(params, old(nextEph)), params.peers[i].pub);
              var wire := ClientInit(params.psk, hs, PubBytes(OwnStatic(params)));
              State() == Apply(old(State()), Greeted(j, i, now, old(nextEph), endpoint, wire))
    {
      ghost var n := State();
      var hs := ClientStart(OwnEph(params, nextEph), params.peers[i].pub);
      ghost var wire := ClientInit(params.psk, hs, PubBytes(OwnStatic(params)));
      pending[j] := Pending(true, i, now, nextEph, hs, endpoint);
      log := log + [Greeted(j, i, now, nextEph, endpoint, wire)];
      nextEph := nextEph + 1;
      assert pending[..] == n.pending[j := Pending(true, i, now, n.nextEph, hs, endpoint)];
    }

    // ----- the periodic work ------------------------------------------------------------------

    method TickOnePeer(now: int, env: TickEnv, i: nat)
      requires Valid() && i < |params.peers|
      modifies targets, sessions, pending, this`nextEph, this`log
      ensures Valid()
      ensures State() == TickPeer(old(State()), now, env, i)
    {
      if !params.peers[i].hasEndpoint {
        return;
      }
      var s := FindSessionByPub(params.peers[i].pub);
      var needs := s.None? || (now >= sessions[s.value].lastHandshake + params.rekeyAfter * 4 / 5
                               && !sessions[s.value].rekeying);
      var ready := now - targets[i].lastAttempt >= params.reconnect;
      assert needs == NeedsHandshake(State(), i, now);
      if needs && ready {
        var endpoint := if env.resolve(i).Some? then env.resolve(i).value else targets[i].endpoint;
        if s.Some? {
          StartRekeying(i, now, endpoint, env.greet(i), s.value);
        } else {
          var _ := InitiateHandshake(i, now, endpoint, env.greet(i));
        }
      }
    }

    /** The C code marks the session first and unmarks it if the handshake cannot be started. The
        mark is off before and nothing in between reads it, so it is set here on success only. */
    method StartRekeying(i: nat, now: int, endpoint: Addr, greetOk: bool, slot: nat)
      requires Valid() && i < |params.peers| && slot < slots
      modifies targets, sessions, pending, this`nextEph, this`log
      ensures Valid()
      ensures var n1 := Initiate(old(State()), i, now, endpoint, greetOk);
              State() == if Initiated(old(State()), greetOk) then Apply(n1, Rekeying(slot)) else n1
    {
      var ok := InitiateHandshake(i, now, endpoint, greetOk);
      if ok {
        PutSession(slot, sessions[slot].(rekeying := true), Rekeying(slot));
      }
    }

    method TickPeersLoop(now: int, env: TickEnv)
      requires Valid()
      modifies targets, sessions, pending, this`nextEph, this`log
      ensures Valid()
      ensures State() == TickPeers(old(State()), now, env, |params.peers|)
    {
      ghost var n := State();
      for i := 0 to |params.peers|
        invariant Valid()
        invariant State() == TickPeers(n, now, env, i)
      {
        ghost var m := State();
        TickOnePeer(now, env, i);
        assert State() == TickPeer(m, now, env, i);
      }
    }

    method TickPendingLoop(now: int)
      requires Valid()
      modifies sessions, pending, this`log
      ensures Valid()
      ensures State() == TickPending(old(State()), now, MAX_PEERS)
    {
      ghost var n, m := State(), State();
      for j := 0 to MAX_PEERS
        invariant Valid() && State() == m
        invariant m == TickPending(n, now, j)
      {
        DropIfOld(now, j);
        m := TickEntry(m, now, j);
      }
    }

    method DropIfOld(now: int, j: nat)
      requires Valid() && j < MAX_PEERS
      modifies sessions, pending, this`log
      ensures Valid()
      ensures State() == TickEntry(old(State()), now, j)
    {
      if pending[j].active && now - pending[j].sentAt >= params.timeout {
        DropPending(j);
      }
    }

    method TickExpiryLoop(now: int)
      requires Valid()
      modifies sessions, this`log
      ensures Valid()
      ensures State() == TickExpiry(old(State()), now, slots)
    {
      ghost var n, m := State(), State();
      for j := 0 to slots
        invariant Valid() && State() == m
        invariant m == TickExpiry(n, now, j)
      {
        ExpireIfSilent(now, j);
        m := TickSlot(m, now, j);
      }
    }

    method ExpireIfSilent(now: int, j: nat)
      requires Valid() && j < slots
      modifies sessions, this`log
      ensures Valid()
      ensures State() == TickSlot(old(State()), now, j)
    {
      var s := sessions[j];
      if s.active {
        var ref := if s.lastSeen > 0 then s.lastSeen else s.lastHandshake;
        if now - ref > params.expiry {
          PutSession(j, s.(active := false), Expired(j, now));
        }
      }
    }

    method TickKeepaliveLoop(now: int, env: TickEnv)
      requires Valid()
      modifies sessions, this`log, plainBuf, wireBuf
      ensures Valid()
      ensures State() == TickKeepalive(old(State()), now, env, slots)
    {
      ghost var n, m := State(), State();
      for j := 0 to slots
        invariant Valid() && State() == m
        invariant m == TickKeepalive(n, now, env, j)
      {
        NudgeIfQuiet(now, env, j);
        m := TickQuiet(m, now, env, j);
      }
    }

    method NudgeIfQuiet(now: int, env: TickEnv, j: nat)
      requires Valid() && j < slots
      modifies sessions, this`log, plainBuf, wireBuf
      ensures Valid()
      ensures State() == TickQuiet(old(State()), now, env, j)
    {
      if sessions[j].active && now - sessions[j].lastSent >= params.keepalive {
        assert buffer[0..0] == [];
        ForwardToPeer(j, buffer, 0, 0, env.send(j), now, Keepalive);
      }
    }

    /** The periodic part of the loop. */
    method DoTick(now: int, env: TickEnv)
      requires Valid()
      modifies this, targets, sessions, pending, plainBuf, wireBuf
      ensures Valid()
      ensures State() == TickStep(old(State()), now, env)
    {
      if now - lastCheck < TICK_SECS {
        return;
      }
      lastCheck := now;
      log := log + [Ticked(now)];
      assert State() == Apply(old(State()), Ticked(now));
      TickPeersLoop(now, env);
      TickPendingLoop(now);
      TickExpiryLoop(now);
      TickKeepaliveLoop(now, env);
    }

    // ----- the TUN device and the socket ------------------------------------------------------

    /** The `nr` bytes of a packet that were read into the buffer. */
    method OnTunRead(now: int, nr: nat, c: SendChoice)
      requires Valid() && nr <= BUFFER_SIZE
      modifies sessions, this`log, plainBuf, wireBuf
      ensures Valid()
      ensures State() == TunStep(old(State()), now, buffer[..nr], c)
    {
      var packet := buffer[..nr];
      if IsIpv4(packet) {
        var slot := LookupRoute(DstIp(packet));
        if slot.Some? {
          assert buffer[0..0 + nr] == packet;
          ForwardToPeer(slot.value, buffer, 0, nr, c, now, FromTun);
        }
      }
    }

    /** The answer to a pending handshake. The C code unmarks the session only if the answer is bad;
        if it is good, session_init resets the mark in the slot with that key anyway. */
    method OnResponse(now: int, src: Addr, wire: Bytes, j: nat, clientOk: bool)
      requires Valid() && j < MAX_PEERS && pending[j].active
      modifies this`slots, sessions, pending, this`log
      ensures Valid()
      ensures State() == ResponseStep(old(State()), now, src, wire, j, clientOk)
    {
      var p := pending[j];
      var pub := params.peers[p.cfg].pub;
      var key := ClientRecv(params.psk, OwnStatic(params), pub, p.hs, wire);
      DropPending(j);
      if clientOk && key.Some? {
        InstallSession(src, pub, key.value, p.cfg, true, now, p.eph, EphOf(wire));
      }
    }

    method TieBreakLoop(src: Addr, higher: bool) returns (skip: bool)
      requires Valid()
      modifies sessions, pending, this`log
      ensures Valid()
      ensures TieBreak(State(), skip) == BreakTie(old(State()), src, higher)
    {
      var j := FindPendingFrom(src);
      if j.None? {
        return false;
      }
      if higher {
        return true;
      }
      DropPending(j.value);
      return false;
    }

    method OnInbound(now: int, src: Addr, wire: Bytes, env: UdpEnv)
      requires Valid()
      modifies this`slots, this`precomp, this`nextEph, sessions, this`log
      ensures Valid()
      ensures State() == InboundStep(old(State()), now, src, wire, env)
    {
      var existing := FindSessionByAddr(src);
      if existing.Some? && now - sessions[existing.value].lastHandshake < params.cooldown {
        return;
      }
      var eph := precomp;
      var r := ServerRespond(params.psk, OwnStatic(params), OwnEph(params, eph), wire);
      if !env.replyOk || r.None? {
        return;
      }
      ghost var n1 := Apply(State(), Replied(src, r.value.wire));
      log := log + [Replied(src, r.value.wire)];
      if !env.keyOk {
        return;
      }
      assert State() == n1;
      RefreshPrecomp(env.refreshOk);
      Admit(now, src, r.value, eph);
    }

    /** refresh_precomp_eph: the old key stays if no new one can be generated. */
    method RefreshPrecomp(ok: bool)
      requires Valid()
      modifies this`precomp, this`nextEph, this`log
      ensures Valid()
      ensures State() == Apply(old(State()), Refreshed(ok))
    {
      if ok {
        precomp, nextEph := nextEph, nextEph + 1;
      }
      log := log + [Refreshed(ok)];
    }

    method Admit(now: int, src: Addr, r: Response, ghost eph: nat)
      requires Valid()
      modifies this`slots, sessions, this`log
      ensures Valid()
      ensures State() == AdmitStep(old(State()), now, src, r, eph)
    {
      var cfg := FindPeerConfig(r.clientPub);
      if cfg.None? {
        return;
      }
      var byPub := FindSessionByPub(r.clientPub);
      if byPub.Some? && now - sessions[byPub.value].lastHandshake < params.cooldown {
        return;
      }
      InstallSession(src, r.clientPub, r.key, cfg.value, false, now, eph, r.clientEph);
    }

    method CheckSpoofed(slot: nat, payload: seq<Byte>) returns (spoofed: bool)
      requires Valid() && slot < slots
      ensures spoofed <==> Spoofed(State().sessions[slot], payload)
    {
      if |sessions[slot].routes| > 0 && IsIpv4(payload) {
        var ok := CheckAllowedSrc(slot, SrcIp(payload));
        return !ok;
      }
      return false;
    }

    /** The relay shortcut: to another peer if the destination is routed there. */
    method ChooseSink(slot: nat, payload: seq<Byte>) returns (sink: Sink)
      requires Valid()
      ensures sink == SinkOf(State().sessions, slot, payload)
    {
      if IsIpv4(payload) {
        var fwd := LookupRoute(DstIp(payload));
        if fwd.Some? && fwd.value != slot {
          return ToPeer(fwd.value);
        }
      }
      return ToTun;
    }

    /** What follows the replay check, on the payload behind the prefix in the frame buffer. */
    method Deliver(now: int, slot: nat, ghost key: Bytes, ghost prev: bool, f: Parsed, c: SendChoice)
      requires Valid() && slot < slots && Holds(f)
      modifies sessions, this`log, plainBuf, wireBuf
      ensures Valid()
      ensures State() == DeliverStep(old(State()), now, slot, key, prev, f, c)
    {
      if f.payload == [] {
        return;
      }
      var spoofed := CheckSpoofed(slot, f.payload);
      if spoofed {
        return;
      }
      var sink := ChooseSink(slot, f.payload);
      Relay(now, slot, f, sink, c, Delivered(slot, sessions[slot].pub, key, f.q, prev, f.payload, sink));
    }

    /** A payload for another peer goes out from where it is in the frame buffer. */
    method Relay(now: int, slot: nat, f: Parsed, sink: Sink, c: SendChoice, ghost e: Event)
      requires Valid() && Holds(f) && (sink.ToPeer? ==> sink.slot < slots)
      requires e.Delivered? && e.slot == slot && e.payload == f.payload && e.sink == sink
      modifies sessions, this`log, plainBuf, wireBuf
      ensures Valid()
      ensures State() == PassOn(old(State()), now, e, c)
    {
      log := log + [e];
      assert State() == Apply(old(State()), e);
      if sink.ToPeer? {
        ForwardToPeer(sink.slot, plainBuf, PREFIX_SIZE, |f.payload|, c, now, Relayed(slot));
      }
    }

    /** The payload is in the frame buffer, behind the prefix. */
    ghost predicate Holds(f: Parsed)
      reads plainBuf
    {
      && PREFIX_SIZE + |f.payload| <= plainBuf.Length == PLAIN_SIZE
      && plainBuf[PREFIX_SIZE..PREFIX_SIZE + |f.payload|] == f.payload
    }

    /** The header check and the sequence number of the `n` bytes in the frame buffer. */
    method ReadFrame(n: nat) returns (f: Option<Parsed>)
      requires n <= plainBuf.Length == PLAIN_SIZE
      ensures f == ParseFrame(plainBuf[..n]) && (f.Some? ==> Holds(f.value))
    {
      ghost var plain := plainBuf[..n];
      if n < PREFIX_SIZE {
        return None;
      }
      assert plainBuf[..HEADER_SIZE] == plain[..HEADER_SIZE];
      if plainBuf[..HEADER_SIZE] != HEADER {
        return None;
      }
      assert plainBuf[HEADER_SIZE..PREFIX_SIZE] == plain[HEADER_SIZE..PREFIX_SIZE];
      assert plainBuf[PREFIX_SIZE..n] == plain[PREFIX_SIZE..];
      return Some(Parsed(FromBigEndian(plainBuf[HEADER_SIZE..PREFIX_SIZE]), plainBuf[PREFIX_SIZE..n]));
    }

    /** The plaintext of the wire, `n` bytes, is in the frame buffer. */
    ghost predicate Decrypted(key: Bytes, wire: Bytes, n: nat)
      reads plainBuf
    {
      n <= plainBuf.Length == PLAIN_SIZE && OpenPacket(key, wire) == Some(plainBuf[..n])
    }

    /** The replay state of a session is a value here; module Replay has the check in place. */
    method OnCurrentKey(now: int, ghost src: Addr, ghost wire: Bytes, n: nat, slot: nat, c: SendChoice)
      requires Valid() && slot < slots && Decrypted(sessions[slot].key, wire, n)
      modifies sessions, this`log, plainBuf, wireBuf
      ensures Valid()
      ensures State() == CurrentKeyStep(old(State()), now, src, wire, slot, c)
    {
      var s := sessions[slot];
      ghost var e1 := Opened(slot, s.key, false, now, src, wire);
      ghost var n1 := Apply(State(), e1);
      PutSession(slot, s.(prevActive := false), e1);
      assert State() == n1;
      var f := ReadFrame(n);
      if f.Some? {
        CheckAndDeliver(now, src, wire, slot, f.value, c);
      }
    }

    /** The replay check under the current key and what follows it. */
    method CheckAndDeliver(now: int, ghost src: Addr, ghost wire: Bytes, slot: nat, f: Parsed, c: SendChoice)
      requires Valid() && slot < slots && Holds(f) && f.q < U64
      modifies sessions, this`log, plainBuf, wireBuf
      ensures Valid()
      ensures State() == CheckStep(old(State()), now, src, wire, slot, f, c)
    {
      ghost var n := State();
      var s := sessions[slot];
      var v := CheckReplay(f.q, s.recvHighest, s.recvWindow);
      ghost var e := Checked(slot, s.key, f.q, f.payload, v.ok, src, wire);
      PutSession(slot, s.(recvHighest := v.highest, recvWindow := v.window), e);
      assert State() == Apply(n, e);
      if v.ok {
        Deliver(now, slot, s.key, false, f, c);
      }
    }

    method OnPrevKey(now: int, ghost src: Addr, ghost wire: Bytes, n: nat, slot: nat, c: SendChoice)
      requires Valid() && slot < slots && Decrypted(sessions[slot].prevKey, wire, n)
      modifies sessions, this`log, plainBuf, wireBuf
      ensures Valid()
      ensures State() == PrevKeyStep(old(State()), now, src, wire, slot, c)
    {
      var prevKey := sessions[slot].prevKey;
      ghost var e := Opened(slot, prevKey, true, now, src, wire);
      log := log + [e];
      assert State() == Apply(old(State()), e);
      var f := ReadFrame(n);
      if f.Some? {
        Deliver(now, slot, prevKey, true, f.value, c);
      }
    }

    /** The data path on the `nr` bytes in the wire buffer. */
    method OnData(now: int, src: Addr, nr: nat, c: SendChoice)
      requires Valid() && nr <= WIRE_SIZE
      modifies sessions, this`log, plainBuf, wireBuf
      ensures Valid()
      ensures State() == DataStep(old(State()), now, src, old(wireBuf[..nr]), c)
    {
      var r := FindSessionByAddr(src);
      if r.None? {
        return;
      }
      var slot := r.value;
      PutSession(slot, sessions[slot].(lastSeen := now), Touched(slot, now));
      assert State() == Apply(old(State()), Touched(slot, now));
      OpenAndHandle(now, src, nr, slot, c);
    }

    /** A packet that does not open under the current key has overwritten the frame buffer when the
        previous one is tried. */
    method OpenAndHandle(now: int, ghost src: Addr, nr: nat, slot: nat, c: SendChoice)
      requires Valid() && nr <= WIRE_SIZE && slot < slots
      modifies sessions, this`log, plainBuf, wireBuf
      ensures Valid()
      ensures State() == OpenStep(old(State()), now, src, old(wireBuf[..nr]), slot, c)
    {
      ghost var st, wire := State(), wireBuf[..nr];
      var s := sessions[slot];
      var n := DecryptInto(s.key, wireBuf, nr, plainBuf);
      assert Valid() && State() == st;
      if n.Some? {
        OnCurrentKey(now, src, wire, n.value, slot, c);
      } else if s.prevActive && now <= s.prevExpires {
        n := DecryptInto(s.prevKey, wireBuf, nr, plainBuf);
        assert Valid() && State() == st;
        if n.Some? {
          OnPrevKey(now, src, wire, n.value, slot, c);
        }
      }
    }

    /** The `nr` bytes of a datagram that were received in the wire buffer. The tie-break never tells
        to skip one. */
    method OnDatagram(now: int, src: Addr, nr: nat, env: UdpEnv) returns (ghost skipped: bool)
      requires Valid() && nr <= WIRE_SIZE
      modifies this, sessions, pending, plainBuf, wireBuf
      ensures Valid() && !skipped
      ensures State() == DatagramStep(old(State()), now, src, old(wireBuf[..nr]), env)
    {
      skipped := false;
      var wire := wireBuf[..nr];
      if HandshakeShaped(params, wire) {
        var j := FindPendingFrom(src);
        if j.Some? {
          OnResponse(now, src, wire, j.value, env.clientOk);
          return;
        }
        var skip := TieBreakLoop(src, env.higher);
        skipped := skip;
        if !skip {
          OnInbound(now, src, wire, env);
        }
      } else {
        OnData(now, src, nr, env.send);
      }
    }

    /** read and recvfrom: at most as many bytes as fit. */
    static method Receive<T>(data: seq<T>, buf: array<T>) returns (nr: nat)
      modifies buf
      ensures nr <= buf.Length && buf[..nr] == if |data| <= buf.Length then data else data[..buf.Length]
    {
      nr := if |data| < buf.Length then |data| else buf.Length;
      for i := 0 to nr
        invariant buf[..i] == data[..i]
      {
        buf[i] := data[i];
      }
    }

    method ReadTun(now: int, packet: seq<Byte>, c: SendChoice)
      requires Valid()
      modifies sessions, this`log, buffer, plainBuf, wireBuf
      ensures Valid()
      ensures State() == Step(old(State()), Clip(TunRead(now, packet, c)))
    {
      ghost var n := State();
      var nr := Receive(packet, buffer);
      assert Valid() && State() == n;
      OnTunRead(now, nr, c);
    }

    method ReadSocket(now: int, src: Addr, wire: Bytes, env: UdpEnv)
      requires Valid()
      modifies this, sessions, pending, plainBuf, wireBuf
      ensures Valid()
      ensures State() == Step(old(State()), Clip(Datagram(now, src, wire, env)))
    {
      ghost var n := State();
      var nr := Receive(wire, wireBuf);
      assert Valid() && State() == n;
      var _ := OnDatagram(now, src, nr, env);
    }

    /** One iteration of the loop, for whatever woke it. */
    method Iterate(input: Input)
      requires Valid()
      modifies this, targets, sessions, pending, buffer, plainBuf, wireBuf
      ensures Valid()
      ensures State() == Step(old(State()), Clip(input))
    {
      match input {
        case Tick(now, env) => DoTick(now, env);
        case TunRead(now, packet, c) => ReadTun(now, packet, c);
        case Datagram(now, src, wire, env) => ReadSocket(now, src, wire, env);
      }
    }

    /** start_peer: empty tables, the configured endpoints, the first responder ephemeral. */
    constructor (params: Params, endpoints: seq<Addr>)
      requires ValidParams(params) && |endpoints| == |params.peers|
      ensures Valid() && Initial(State()) && this.params == params
      ensures fresh(targets) && fresh(sessions) && fresh(pending) && fresh(buffer) && fresh(plainBuf) && fresh(wireBuf)
      ensures forall c | 0 <= c < |endpoints| :: targets[c].endpoint == endpoints[c]
    {
      this.params := params;
      targets := new Target[|endpoints|](i requires 0 <= i < |endpoints| => Target(endpoints[i], 0));
      sessions := new Session[MAX_PEERS](_ => BlankSession());
      pending := new Pending[MAX_PEERS](_ => Pending(false, 0, 0, 0, ClientState(Static(0), [], []), Addr(0, 0)));
      buffer := new Byte[BUFFER_SIZE];
      plainBuf := new Byte[PLAIN_SIZE];
      wireBuf := new Atom[WIRE_SIZE](_ => Lit(0));
      slots, precomp, nextEph, lastCheck := 0, 0, 1, 0;
      log := [];
    }

    /** The whole loop over a list of happenings. */
    method Loop(inputs: seq<Input>)
      requires Valid()
      modifies this, targets, sessions, pending, buffer, plainBuf, wireBuf
      ensures Valid()
      ensures State() == Steps.Run(old(State()), Clipped(inputs))
    {
      ghost var n, seen := State(), Clipped(inputs);
      for i := 0 to |inputs|
        invariant Valid()
        invariant State() == Steps.Run(n, seen[..i])
      {
        RunPrefix(n, seen, i);
        Iterate(inputs[i]);
      }
      assert seen[..|inputs|] == seen;
    }
  }
}
