/** The event loop of src/peer.c as a state machine.

    `Apply` is the effect of one event on the tables. The three kinds of loop iteration - the
    periodic work, a packet from the TUN device, a datagram from the socket - are functions that
    follow the branches of event_loop and apply events. What the program gets from outside (the
    clock, resolved addresses, whether a foreign call succeeds, random IVs) comes in as arguments. */
module Steps {
  import opened Options
  import opened Bits
  import opened Crypto
  import opened Handshake
  import opened Framing
  import opened Replay
  import opened Tables
  import opened Routing

  // ----- effects ------------------------------------------------------------------------------

  /** The indices an event names exist. */
  predicate InRange(n: Node, e: Event) {
    match e
    case Attempted(cfg, _, _) => cfg < |n.targets| && cfg < |n.params.peers|
    case Greeted(entry, cfg, _, _, _, _) => entry < |n.pending| && cfg < |n.params.peers|
    case Rekeying(slot) => slot < |n.sessions|
    case Dropped(entry) => entry < |n.pending| && n.pending[entry].cfg < |n.params.peers|
    case Expired(slot, _) => slot < |n.sessions|
    case Sent(slot, _, _, _, _, _, _, _, _) => slot < |n.sessions|
    case Installed(slot, _, _, _, cfg, _, _, _, _) => slot <= |n.sessions| && cfg < |n.params.peers|
    case Touched(slot, _) => slot < |n.sessions|
    case Opened(slot, _, _, _, _, _) => slot < |n.sessions|
    case Checked(slot, _, _, _, _, _, _) => slot < |n.sessions| && |n.sessions[slot].recvWindow| > 0
    case _ => true
  }

  /** session_init on the old contents of a slot. */
  function InitSession(p: Params, old_: Session, addr: Addr, pub: Bytes, key: Bytes, cfg: nat, outbound: bool, now: int)
    : Session
    requires cfg < |p.peers|
  {
    Session(true, addr, pub, key,
            if old_.active then old_.key else old_.prevKey,
            old_.active,
            if old_.active then now + p.grace else old_.prevExpires,
            0, now, now, now + p.rekeyAfter, false, 0, 0, ZeroWindow(WINDOW_WORDS),
            p.peers[cfg].routes, outbound)
  }

  function ClearRekeying(ss: seq<Session>, pub: Bytes): (r: seq<Session>)
    ensures |r| == |ss|
  {
    match FindByPub(ss, pub)
    case None => ss
    case Some(i) => ss[i := ss[i].(rekeying := false)]
  }

  function Effect(n: Node, e: Event): Node
    requires InRange(n, e)
  {
    match e
    case Ticked(now) => n.(lastCheck := now)
    case Attempted(cfg, now, endpoint) => n.(targets := n.targets[cfg := Target(endpoint, now)])
    case Greeted(entry, cfg, now, eph, dst, _) =>
      var hs := ClientStart(OwnEph(n.params, eph), n.params.peers[cfg].pub);
      n.(pending := n.pending[entry := Pending(true, cfg, now, eph, hs, dst)], nextEph := eph + 1)
    case Rekeying(slot) => n.(sessions := n.sessions[slot := n.sessions[slot].(rekeying := true)])
    case Dropped(entry) =>
      n.(pending := n.pending[entry := n.pending[entry].(active := false)],
         sessions := ClearRekeying(n.sessions, n.params.peers[n.pending[entry].cfg].pub))
    case Expired(slot, _) => n.(sessions := n.sessions[slot := n.sessions[slot].(active := false)])
    case Sent(slot, _, _, _, _, _, ok, now, _) =>
      var s := n.sessions[slot];
      n.(sessions := n.sessions[slot := s.(sendSeq := (s.sendSeq + 1) % U64,
                                           lastSent := if ok then now else s.lastSent)])
    case Refreshed(ok) => if ok then n.(precomp := n.nextEph, nextEph := n.nextEph + 1) else n
    case Installed(slot, addr, pub, key, cfg, outbound, now, _, _) =>
      if slot < |n.sessions| then
        n.(sessions := n.sessions[slot := InitSession(n.params, n.sessions[slot], addr, pub, key, cfg, outbound, now)])
      else
        n.(sessions := n.sessions + [InitSession(n.params, BlankSession(), addr, pub, key, cfg, outbound, now)])
    case Touched(slot, now) => n.(sessions := n.sessions[slot := n.sessions[slot].(lastSeen := now)])
    case Opened(slot, _, prev, _, _, _) =>
      if prev then n else n.(sessions := n.sessions[slot := n.sessions[slot].(prevActive := false)])
    case Checked(slot, _, q, _, _, _, _) =>
      var s := n.sessions[slot];
      var v := CheckReplay(q, s.recvHighest, s.recvWindow);
      n.(sessions := n.sessions[slot := s.(recvHighest := v.highest, recvWindow := v.window)])
    case _ => n
  }

  function Apply(n: Node, e: Event): (n': Node)
    requires InRange(n, e)
    ensures n'.log == n.log + [e] && n'.params == n.params
  {
    Effect(n, e).(log := n.log + [e])
  }

  // ----- what comes from outside --------------------------------------------------------------

  datatype SendChoice = SendChoice(iv: Iv, encrypted: bool, sent: bool)

  /** Per configured peer: the re-resolved address, if resolution worked, and whether the
      initiation went out; per session: the choices for its keepalive. */
  datatype TickEnv = TickEnv(resolve: nat -> Option<Addr>, greet: nat -> bool, send: nat -> SendChoice)

  /** Whether the foreign calls succeed: those of handshake_client_recv, those of
      handshake_server_respond up to and including sendto, its last derivation, the generation of
      the next ephemeral key; whether our public key compares higher than the peer's; and the
      choices for a relayed packet. */
  datatype UdpEnv = UdpEnv(clientOk: bool, replyOk: bool, keyOk: bool, refreshOk: bool, higher: bool,
                           send: SendChoice)

  datatype Input =
    | Tick(now: int, tick: TickEnv)
    | TunRead(now: int, packet: seq<Byte>, send: SendChoice)
    | Datagram(now: int, src: Addr, wire: Bytes, udp: UdpEnv)

  /** Table sizes, and what makes every access of the loop well-defined. */
  ghost predicate Shape(n: Node) {
    && ValidParams(n.params)
    && |n.targets| == |n.params.peers|
    && |n.sessions| <= MAX_PEERS
    && |n.pending| == MAX_PEERS
    && (forall j | 0 <= j < MAX_PEERS :: n.pending[j].active ==> n.pending[j].cfg < |n.params.peers|)
    && (forall i | 0 <= i < |n.sessions| ::
          && |n.sessions[i].recvWindow| == WINDOW_WORDS
          && n.sessions[i].sendSeq < U64 && n.sessions[i].recvHighest < U64)
  }

  // ----- sending ------------------------------------------------------------------------------

  /** forward_to_peer. */
  function Forward(n: Node, slot: nat, payload: seq<Byte>, c: SendChoice, now: int, origin: Origin): (n': Node)
    requires Shape(n) && slot < |n.sessions|
    ensures Shape(n')
  {
    var s := n.sessions[slot];
    var ok := c.encrypted && c.sent;
    Apply(n, Sent(slot, s.addr, s.key, s.sendSeq, payload, SealFrame(s.key, c.iv, s.sendSeq, payload), ok, now, origin))
  }

  /** The TUN branch. */
  function TunStep(n: Node, now: int, packet: seq<Byte>, c: SendChoice): (n': Node)
    requires Shape(n)
    ensures Shape(n')
  {
    if !IsIpv4(packet) then n
    else
      match RouteLookup(n.sessions, DstIp(packet))
      case None => n
      case Some(slot) => Forward(n, slot, packet, c, now, FromTun)
  }

  // ----- the periodic work --------------------------------------------------------------------

  /** initiate_outbound_handshake, after resolve_endpoint. */
  function Initiate(n: Node, i: nat, now: int, endpoint: Addr, greetOk: bool): (n': Node)
    requires Shape(n) && i < |n.params.peers|
    ensures Shape(n') && n'.params == n.params && n'.sessions == n.sessions && n.log <= n'.log
  {
    var n1 := Apply(n, Attempted(i, now, endpoint));
    match FindFreeEntry(n1.pending)
    case None => n1
    case Some(j) =>
      if !greetOk then n1
      else
        var hs := ClientStart(OwnEph(n.params, n.nextEph), n.params.peers[i].pub);
        var wire := ClientInit(n.params.psk, hs, PubBytes(OwnStatic(n.params)));
        Apply(n1, Greeted(j, i, now, n.nextEph, endpoint, wire))
  }

  predicate Initiated(n: Node, greetOk: bool) {
    FindFreeEntry(n.pending).Some? && greetOk
  }

  /** Peer `i` has no session, or one that is due for a new key and not already getting one. */
  predicate NeedsHandshake(n: Node, i: nat, now: int)
    requires i < |n.params.peers|
  {
    match FindByPub(n.sessions, n.params.peers[i].pub)
    case None => true
    case Some(k) => now >= n.sessions[k].lastHandshake + n.params.rekeyAfter * 4 / 5 && !n.sessions[k].rekeying
  }

  function TickPeer(n: Node, now: int, env: TickEnv, i: nat): (n': Node)
    requires Shape(n) && i < |n.params.peers|
    ensures Shape(n') && n'.params == n.params
  {
    var s := FindByPub(n.sessions, n.params.peers[i].pub);
    if !n.params.peers[i].hasEndpoint || !NeedsHandshake(n, i, now) then n
    else if now - n.targets[i].lastAttempt < n.params.reconnect then n
    else
      var endpoint := if env.resolve(i).Some? then env.resolve(i).value else n.targets[i].endpoint;
      var n1 := Initiate(n, i, now, endpoint, env.greet(i));
      if Initiated(n, env.greet(i)) && s.Some? then Apply(n1, Rekeying(s.value)) else n1
  }

  /** The state after the first `i` peers have been looked at; likewise below. */
  function TickPeers(n: Node, now: int, env: TickEnv, i: nat): (n': Node)
    requires Shape(n) && i <= |n.params.peers|
    ensures Shape(n') && n'.params == n.params
  {
    if i == 0 then n else TickPeer(TickPeers(n, now, env, i - 1), now, env, i - 1)
  }

  function TickEntry(n: Node, now: int, j: nat): (n': Node)
    requires Shape(n) && j < MAX_PEERS
    ensures Shape(n') && n'.params == n.params
  {
    if !n.pending[j].active || now - n.pending[j].sentAt < n.params.timeout then n else Apply(n, Dropped(j))
  }

  function TickPending(n: Node, now: int, j: nat): (n': Node)
    requires Shape(n) && j <= MAX_PEERS
    ensures Shape(n') && n'.params == n.params
  {
    if j == 0 then n else TickEntry(TickPending(n, now, j - 1), now, j - 1)
  }

  predicate Silent(p: Params, s: Session, now: int) {
    var ref := if s.lastSeen > 0 then s.lastSeen else s.lastHandshake;
    s.active && now - ref > p.expiry
  }

  function TickSlot(n: Node, now: int, j: nat): (n': Node)
    requires Shape(n) && j < |n.sessions|
    ensures Shape(n') && n'.params == n.params && |n'.sessions| == |n.sessions|
  {
    if Silent(n.params, n.sessions[j], now) then Apply(n, Expired(j, now)) else n
  }

  function TickExpiry(n: Node, now: int, j: nat): (n': Node)
    requires Shape(n) && j <= |n.sessions|
    ensures Shape(n') && n'.params == n.params && |n'.sessions| == |n.sessions|
  {
    if j == 0 then n else TickSlot(TickExpiry(n, now, j - 1), now, j - 1)
  }

  predicate Quiet(p: Params, s: Session, now: int) {
    s.active && now - s.lastSent >= p.keepalive
  }

  function TickQuiet(n: Node, now: int, env: TickEnv, j: nat): (n': Node)
    requires Shape(n) && j < |n.sessions|
    ensures Shape(n') && n'.params == n.params && |n'.sessions| == |n.sessions|
  {
    if Quiet(n.params, n.sessions[j], now) then Forward(n, j, [], env.send(j), now, Keepalive) else n
  }

  function TickKeepalive(n: Node, now: int, env: TickEnv, j: nat): (n': Node)
    requires Shape(n) && j <= |n.sessions|
    ensures Shape(n') && n'.params == n.params && |n'.sessions| == |n.sessions|
  {
    if j == 0 then n else TickQuiet(TickKeepalive(n, now, env, j - 1), now, env, j - 1)
  }

  function TickStep(n: Node, now: int, env: TickEnv): (n': Node)
    requires Shape(n)
    ensures Shape(n')
  {
    if now - n.lastCheck < TICK_SECS then n
    else
      var n1 := TickPeers(Apply(n, Ticked(now)), now, env, |n.params.peers|);
      var n2 := TickPending(n1, now, MAX_PEERS);
      var n3 := TickExpiry(n2, now, |n2.sessions|);
      TickKeepalive(n3, now, env, |n3.sessions|)
  }

  // What every round of a tick's loops keeps, the tick keeps.

  /** Rounds in order: the invariant may speak of the number of peers already looked at. */
  ghost predicate KeptByPeers(inv: (Node, nat) -> bool, now: int, env: TickEnv) {
    forall n, i: nat | Shape(n) && i < |n.params.peers| && inv(n, i) :: inv(TickPeer(n, now, env, i), i + 1)
  }

  ghost predicate KeptByEntries(inv: Node -> bool, now: int) {
    forall n, j: nat | Shape(n) && j < MAX_PEERS && inv(n) :: inv(TickEntry(n, now, j))
  }

  ghost predicate KeptBySlots(inv: Node -> bool, now: int) {
    forall n, j: nat | Shape(n) && j < |n.sessions| && inv(n) :: inv(TickSlot(n, now, j))
  }

  ghost predicate KeptByQuiet(inv: Node -> bool, now: int, env: TickEnv) {
    forall n, j: nat | Shape(n) && j < |n.sessions| && inv(n) :: inv(TickQuiet(n, now, env, j))
  }

  lemma {:induction false} PeersLoopKeeps(inv: (Node, nat) -> bool, n: Node, now: int, env: TickEnv, i: nat)
    requires Shape(n) && i <= |n.params.peers| && inv(n, 0) && KeptByPeers(inv, now, env)
    ensures inv(TickPeers(n, now, env, i), i)
  {
    if i > 0 {
      PeersLoopKeeps(inv, n, now, env, i - 1);
    }
  }

  lemma {:induction false} PendingLoopKeeps(inv: Node -> bool, n: Node, now: int, j: nat)
    requires Shape(n) && j <= MAX_PEERS && inv(n) && KeptByEntries(inv, now)
    ensures inv(TickPending(n, now, j))
  {
    if j > 0 {
      PendingLoopKeeps(inv, n, now, j - 1);
    }
  }

  lemma {:induction false} ExpiryLoopKeeps(inv: Node -> bool, n: Node, now: int, j: nat)
    requires Shape(n) && j <= |n.sessions| && inv(n) && KeptBySlots(inv, now)
    ensures inv(TickExpiry(n, now, j))
  {
    if j > 0 {
      ExpiryLoopKeeps(inv, n, now, j - 1);
    }
  }

  lemma {:induction false} KeepaliveLoopKeeps(inv: Node -> bool, n: Node, now: int, env: TickEnv, j: nat)
    requires Shape(n) && j <= |n.sessions| && inv(n) && KeptByQuiet(inv, now, env)
    ensures inv(TickKeepalive(n, now, env, j))
  {
    if j > 0 {
      KeepaliveLoopKeeps(inv, n, now, env, j - 1);
    }
  }

  lemma TickKeeps(inv: Node -> bool, n: Node, now: int, env: TickEnv)
    requires Shape(n) && inv(n) && inv(Apply(n, Ticked(now)))
    requires KeptByPeers((m, i) => inv(m), now, env) && KeptByEntries(inv, now)
    requires KeptBySlots(inv, now) && KeptByQuiet(inv, now, env)
    ensures inv(TickStep(n, now, env))
  {
    if now - n.lastCheck >= TICK_SECS {
      var n0 := Apply(n, Ticked(now));
      PeersLoopKeeps((m, i) => inv(m), n0, now, env, |n.params.peers|);
      var n1 := TickPeers(n0, now, env, |n.params.peers|);
      PendingLoopKeeps(inv, n1, now, MAX_PEERS);
      var n2 := TickPending(n1, now, MAX_PEERS);
      ExpiryLoopKeeps(inv, n2, now, |n2.sessions|);
      var n3 := TickExpiry(n2, now, |n2.sessions|);
      KeepaliveLoopKeeps(inv, n3, now, env, |n3.sessions|);
    }
  }

  // ----- datagrams ----------------------------------------------------------------------------

  /** A datagram of the handshake size that starts with the magic. */
  predicate HandshakeShaped(p: Params, wire: Bytes) {
    |wire| == HsSize(p.psk) && wire[..HEADER_SIZE] == Lits(HEADER)
  }

  /** alloc_session followed by session_init; nothing when the table is full. */
  function Install(n: Node, addr: Addr, pub: Bytes, key: Bytes, cfg: nat, outbound: bool, now: int, eph: nat,
                   peerEph: Bytes): (n': Node)
    requires Shape(n) && cfg < |n.params.peers|
    ensures Shape(n') && n'.params == n.params
  {
    match Alloc(n.sessions, pub, addr)
    case None => n
    case Some(slot) => Apply(n, Installed(slot, addr, pub, key, cfg, outbound, now, eph, peerEph))
  }

  /** The answer to pending handshake `j`, which is consumed whether or not it is good. */
  function ResponseStep(n: Node, now: int, src: Addr, wire: Bytes, j: nat, clientOk: bool): (n': Node)
    requires Shape(n) && j < MAX_PEERS && n.pending[j].active
    ensures Shape(n')
  {
    var p := n.pending[j];
    var pub := n.params.peers[p.cfg].pub;
    var key := ClientRecv(n.params.psk, OwnStatic(n.params), pub, p.hs, wire);
    var n1 := Apply(n, Dropped(j));
    if clientOk && key.Some? then Install(n1, src, pub, key.value, p.cfg, true, now, p.eph, EphOf(wire)) else n1
  }

  datatype TieBreak = TieBreak(node: Node, skip: bool)

  /** The tie-break loop: with a handshake of our own pending at that address, the side with the
      higher key ignores the initiation and the other side drops its own. Symbolic keys have no
      order, so the outcome of the comparison is an argument. */
  function BreakTie(n: Node, src: Addr, higher: bool): (t: TieBreak)
    requires Shape(n)
    ensures Shape(t.node) && t.node.params == n.params
  {
    match FindPending(n.pending, src)
    case None => TieBreak(n, false)
    case Some(j) => if higher then TieBreak(n, true) else TieBreak(Apply(n, Dropped(j)), false)
  }

  /** The end of an inbound handshake: the client must be configured and must not have a session
      whose last handshake is too recent. */
  function AdmitStep(n: Node, now: int, src: Addr, r: Response, eph: nat): (n': Node)
    requires Shape(n)
    ensures Shape(n')
  {
    match FindPeer(n.params.peers, r.clientPub)
    case None => n
    case Some(cfg) =>
      var byPub := FindByPub(n.sessions, r.clientPub);
      if byPub.Some? && now - n.sessions[byPub.value].lastHandshake < n.params.cooldown then n
      else Install(n, src, r.clientPub, r.key, cfg, false, now, eph, r.clientEph)
  }

  /** The inbound handshake, after the tie-break. */
  function InboundStep(n: Node, now: int, src: Addr, wire: Bytes, env: UdpEnv): (n': Node)
    requires Shape(n)
    ensures Shape(n')
  {
    var existing := FindByAddr(n.sessions, src);
    if existing.Some? && now - n.sessions[existing.value].lastHandshake < n.params.cooldown then n
    else
      var r := ServerRespond(n.params.psk, OwnStatic(n.params), OwnEph(n.params, n.precomp), wire);
      if !env.replyOk || r.None? then n
      else
        var n1 := Apply(n, Replied(src, r.value.wire));
        if !env.keyOk then n1
        else AdmitStep(Apply(n1, Refreshed(env.refreshOk)), now, src, r.value, n.precomp)
  }

  /** Where an accepted payload goes: straight to another peer if the route to its destination
      leads there, else to the TUN device. */
  function SinkOf(ss: seq<Session>, slot: nat, payload: seq<Byte>): (sink: Sink)
    ensures sink.ToPeer? ==> sink.slot < |ss| && ss[sink.slot].active && sink.slot != slot
  {
    if !IsIpv4(payload) then ToTun
    else
      match RouteLookup(ss, DstIp(payload))
      case None => ToTun
      case Some(fwd) => if fwd != slot then ToPeer(fwd) else ToTun
  }

  /** A payload whose source the session's route list rules out. */
  predicate Spoofed(s: Session, payload: seq<Byte>) {
    s.routes != [] && IsIpv4(payload) && !AllowedSrc(s.routes, SrcIp(payload))
  }

  /** A delivery, and the relay that follows if it goes to another peer. */
  function PassOn(n: Node, now: int, e: Event, c: SendChoice): (n': Node)
    requires Shape(n) && e.Delivered? && (e.sink.ToPeer? ==> e.sink.slot < |n.sessions|)
    ensures Shape(n')
  {
    if e.sink.ToPeer? then Forward(Apply(n, e), e.sink.slot, e.payload, c, now, Relayed(e.slot)) else Apply(n, e)
  }

  /** What follows a packet that decrypted and passed the replay check. */
  function DeliverStep(n: Node, now: int, slot: nat, key: Bytes, prev: bool, f: Parsed, c: SendChoice): (n': Node)
    requires Shape(n) && slot < |n.sessions|
    ensures Shape(n')
  {
    var s := n.sessions[slot];
    if f.payload == [] || Spoofed(s, f.payload) then n
    else
      PassOn(n, now, Delivered(slot, s.pub, key, f.q, prev, f.payload, SinkOf(n.sessions, slot, f.payload)), c)
  }

  /** The replay check of a frame under the current key, and what follows if it passes. */
  function CheckStep(n: Node, now: int, src: Addr, wire: Bytes, slot: nat, f: Parsed, c: SendChoice): (n': Node)
    requires Shape(n) && slot < |n.sessions| && f.q < U64
    ensures Shape(n')
  {
    var s := n.sessions[slot];
    var ok := CheckReplay(f.q, s.recvHighest, s.recvWindow).ok;
    var n1 := Apply(n, Checked(slot, s.key, f.q, f.payload, ok, src, wire));
    if ok then DeliverStep(n1, now, slot, s.key, false, f, c) else n1
  }

  /** A packet that decrypts under the current key: the previous key is given up and the sequence
      number goes through the replay window. */
  function CurrentKeyStep(n: Node, now: int, src: Addr, wire: Bytes, slot: nat, c: SendChoice): (n': Node)
    requires Shape(n) && slot < |n.sessions|
    ensures Shape(n')
  {
    var s := n.sessions[slot];
    var n1 := Apply(n, Opened(slot, s.key, false, now, src, wire));
    match OpenFrame(s.key, wire)
    case None => n1
    case Some(f) => CheckStep(n1, now, src, wire, slot, f, c)
  }

  /** A packet that decrypts under the previous key: no replay check. */
  function PrevKeyStep(n: Node, now: int, src: Addr, wire: Bytes, slot: nat, c: SendChoice): (n': Node)
    requires Shape(n) && slot < |n.sessions|
    ensures Shape(n')
  {
    var s := n.sessions[slot];
    var n1 := Apply(n, Opened(slot, s.prevKey, true, now, src, wire));
    match OpenFrame(s.prevKey, wire)
    case None => n1
    case Some(f) => DeliverStep(n1, now, slot, s.prevKey, true, f, c)
  }

  /** The packet is tried under the current key, and then under the previous one if that is alive. */
  function OpenStep(n: Node, now: int, src: Addr, wire: Bytes, slot: nat, c: SendChoice): (n': Node)
    requires Shape(n) && slot < |n.sessions|
    ensures Shape(n')
  {
    var s := n.sessions[slot];
    if OpenPacket(s.key, wire).Some? then CurrentKeyStep(n, now, src, wire, slot, c)
    else if s.prevActive && now <= s.prevExpires && OpenPacket(s.prevKey, wire).Some? then
      PrevKeyStep(n, now, src, wire, slot, c)
    else n
  }

  /** The data path. */
  function DataStep(n: Node, now: int, src: Addr, wire: Bytes, c: SendChoice): (n': Node)
    requires Shape(n)
    ensures Shape(n')
  {
    match FindByAddr(n.sessions, src)
    case None => n
    case Some(slot) => OpenStep(Apply(n, Touched(slot, now)), now, src, wire, slot, c)
  }

  function DatagramStep(n: Node, now: int, src: Addr, wire: Bytes, env: UdpEnv): (n': Node)
    requires Shape(n)
    ensures Shape(n')
  {
    if !HandshakeShaped(n.params, wire) then DataStep(n, now, src, wire, env.send)
    else
      match FindPending(n.pending, src)
      case Some(j) => ResponseStep(n, now, src, wire, j, env.clientOk)
      case None =>
        var t := BreakTie(n, src, env.higher);
        if t.skip then t.node else InboundStep(t.node, now, src, wire, env)
  }

  function Step(n: Node, input: Input): (n': Node)
    requires Shape(n)
    ensures Shape(n')
  {
    match input
    case Tick(now, env) => TickStep(n, now, env)
    case TunRead(now, packet, c) => TunStep(n, now, packet, c)
    case Datagram(now, src, wire, env) => DatagramStep(n, now, src, wire, env)
  }

  // ----- runs ---------------------------------------------------------------------------------

  /** The node as event_loop finds it: empty tables and the first responder ephemeral. */
  ghost predicate Initial(n: Node) {
    && ValidParams(n.params)
    && |n.targets| == |n.params.peers|
    && (forall c | 0 <= c < |n.targets| :: n.targets[c].lastAttempt == 0)
    && n.sessions == []
    && |n.pending| == MAX_PEERS && (forall j | 0 <= j < MAX_PEERS :: !n.pending[j].active)
    && n.precomp == 0 && n.nextEph == 1
    && n.lastCheck == 0
    && n.log == []
  }

  /** The state after a sequence of inputs. */
  function Run(n: Node, inputs: seq<Input>): (n': Node)
    requires Shape(n)
    ensures Shape(n')
    decreases |inputs|
  {
    if inputs == [] then n else Step(Run(n, inputs[..|inputs| - 1]), inputs[|inputs| - 1])
  }

  lemma RunAppend(n: Node, inputs: seq<Input>, input: Input)
    requires Shape(n)
    ensures Run(n, inputs + [input]) == Step(Run(n, inputs), input)
  {
    assert (inputs + [input])[..|inputs|] == inputs;
  }

  lemma RunPrefix(n: Node, inputs: seq<Input>, i: nat)
    requires Shape(n) && i < |inputs|
    ensures Run(n, inputs[..i + 1]) == Step(Run(n, inputs[..i]), inputs[i])
  {
    assert inputs[..i + 1] == inputs[..i] + [inputs[i]];
    RunAppend(n, inputs[..i], inputs[i]);
  }

  lemma RunThree(n: Node, n1: Node, n2: Node, inputs: seq<Input>)
    requires Shape(n) && |inputs| == 3
    requires n1 == Step(n, inputs[0]) && Shape(n1) && n2 == Step(n1, inputs[1])
    ensures Shape(n2) && Run(n, inputs) == Step(n2, inputs[2])
  {
    RunPrefix(n, inputs, 0);
    assert Run(n, inputs[..0]) == n;
    assert Run(n, inputs[..1]) == n1;
    RunPrefix(n, inputs, 1);
    assert Run(n, inputs[..2]) == n2;
    RunPrefix(n, inputs, 2);
    assert inputs[..3] == inputs;
  }

  lemma RunOne(n: Node, input: Input)
    requires Shape(n)
    ensures Run(n, [input]) == Step(n, input)
  {
    var none: seq<Input> := [];
    RunAppend(n, none, input);
    assert none + [input] == [input];
  }
}
