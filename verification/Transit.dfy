/** One packet from TUN device to TUN device: what a sealed packet becomes at a peer that holds the
    key, and the one way in which it can get lost on arrival. */
module Transit {
  import opened Options
  import opened Bits
  import opened Crypto
  import opened Handshake
  import opened Framing
  import opened Replay
  import opened Prefixes
  import opened Tables
  import opened Routing
  import opened Steps
  import opened Walks

  /** All that decides where a payload goes. */
  ghost predicate SameLookup(ss: seq<Session>, tt: seq<Session>) {
    && |ss| == |tt|
    && forall k | 0 <= k < |ss| ::
         ss[k].active == tt[k].active && ss[k].routes == tt[k].routes && ss[k].pub == tt[k].pub
  }

  /** And all that decides how it is sealed there. */
  ghost predicate SameRouting(ss: seq<Session>, tt: seq<Session>) {
    && SameLookup(ss, tt)
    && forall k | 0 <= k < |ss| ::
         ss[k].addr == tt[k].addr && ss[k].key == tt[k].key && ss[k].sendSeq == tt[k].sendSeq
  }

  lemma KeepsRouting(n: Node, e: Event)
    requires Shape(n) && InRange(n, e) && (e.Touched? || e.Opened? || (e.Checked? && e.q < U64))
    ensures Shape(Apply(n, e)) && SameRouting(n.sessions, Apply(n, e).sessions)
  {
  }

  lemma {:induction false} BestRouteSame(ss: seq<Session>, tt: seq<Session>, ip: nat, n: nat)
    requires SameLookup(ss, tt) && n <= |ss|
    ensures BestRoute(ss, ip, n) == BestRoute(tt, ip, n)
  {
    if n > 0 {
      BestRouteSame(ss, tt, ip, n - 1);
    }
  }

  // ----- what is taken for a handshake --------------------------------------------------------

  /** A sealed packet has the size of a handshake message and its IV starts with the magic. */
  predicate Mistaken(psk: Option<Bytes>, iv: Iv, payload: seq<Byte>) {
    |payload| + WIRE_OVERHEAD == HsSize(psk) && iv[..HEADER_SIZE] == HEADER
  }

  lemma MistakenExactly(p: Params, key: Bytes, iv: Iv, q: nat, payload: seq<Byte>)
    ensures HandshakeShaped(p, SealFrame(key, iv, q, payload)) <==> Mistaken(p.psk, iv, payload)
  {
    var wire := SealFrame(key, iv, q, payload);
    assert wire[..HEADER_SIZE] == Lits(iv)[..HEADER_SIZE] == Lits(iv[..HEADER_SIZE]);
    if Lits(iv[..HEADER_SIZE]) == Lits(HEADER) {
      LitsInjective(iv[..HEADER_SIZE], HEADER);
    }
  }

  /** It can happen to IPv4 packets: of 44 bytes without a PSK, and of 76 bytes with one. */
  lemma MistakenHappens(psk: Option<Bytes>) returns (iv: Iv, packet: seq<Byte>)
    ensures IsIpv4(packet) && |packet| == (if psk.None? then 44 else 76)
    ensures Mistaken(psk, iv, packet)
  {
    iv := HEADER + [0, 0, 0, 0];
    packet := seq(if psk.None? then 44 else 76, i => if i == 0 then 0x45 else 0);
  }

  // ----- what is delivered --------------------------------------------------------------------

  /** The deliveries of a log, in order. */
  function Deliveries(h: Log): Log {
    if h == [] then []
    else Deliveries(h[..|h| - 1]) + if h[|h| - 1].Delivered? then [h[|h| - 1]] else []
  }

  lemma DeliveriesApply(n: Node, e: Event)
    requires InRange(n, e)
    ensures Deliveries(Apply(n, e).log) == Deliveries(n.log) + if e.Delivered? then [e] else []
  {
    var h := n.log + [e];
    assert h[..|h| - 1] == n.log;
  }

  lemma HandshakeDeliversNothing(n: Node, now: int, src: Addr, wire: Bytes, env: UdpEnv)
    requires Shape(n) && HandshakeShaped(n.params, wire)
    ensures Deliveries(DatagramStep(n, now, src, wire, env).log) == Deliveries(n.log)
  {
    var same := (m: Node) => Deliveries(m.log) == Deliveries(n.log);
    forall m, e | Shape(m) && InRange(m, e) && HandshakeEvent(e, src, wire) && same(m)
      ensures same(Apply(m, e))
    {
      DeliveriesApply(m, e);
    }
    HandshakeKeeps(same, n, now, src, wire, env);
  }

  /** The session lets the key and the number in: under its current key a number that is new to its
      window, and under its previous key, while that lasts, any number. */
  predicate Admitted(s: Session, now: int, key: Bytes, q: nat)
    requires |s.recvWindow| > 0
  {
    if key == s.key then CheckReplay(q, s.recvHighest, s.recvWindow).ok
    else s.prevActive && now <= s.prevExpires && key == s.prevKey
  }

  /** The payload is not empty, and an IPv4 payload has a source that matches one of the session's
      routes, if it has any. */
  predicate Proper(s: Session, payload: seq<Byte>) {
    && payload != []
    && (IsIpv4(payload) && s.routes != [] ==>
          exists j :: 0 <= j < |s.routes| && Matches(s.routes[j], SrcIp(payload)))
  }

  /** Where a payload from slot `slot` goes: to another slot if that one leads for its destination, and
      else to the TUN device. */
  function Outlet(ss: seq<Session>, slot: nat, payload: seq<Byte>): (sink: Sink)
    ensures sink.ToPeer? ==> IsIpv4(payload) && sink.slot != slot && Leads(ss, DstIp(payload), sink.slot)
    ensures sink.ToTun? && IsIpv4(payload) ==> forall k: nat | k != slot :: !Leads(ss, DstIp(payload), k)
  {
    if !IsIpv4(payload) then ToTun
    else
      var hop := RouteLookup(ss, DstIp(payload));
      assert forall k: nat :: hop == Some(k) <==> Leads(ss, DstIp(payload), k) by {
        forall k: nat ensures hop == Some(k) <==> Leads(ss, DstIp(payload), k) {
          LookupLeads(ss, DstIp(payload), k);
        }
      }
      if hop.None? || hop.value == slot then ToTun else ToPeer(hop.value)
  }

  /** A relayed payload goes out once more, under the key, number and address of the session it is for. */
  function RelayOf(ss: seq<Session>, now: int, slot: nat, payload: seq<Byte>, sink: Sink, c: SendChoice): Log
    requires sink.ToPeer? ==> sink.slot < |ss|
  {
    if sink.ToTun? then []
    else
      var t := ss[sink.slot];
      [Sent(sink.slot, t.addr, t.key, t.sendSeq, payload, SealFrame(t.key, c.iv, t.sendSeq, payload),
            c.encrypted && c.sent, now, Relayed(slot))]
  }

  /** What a frame gets delivered as once the session has let it in. */
  function DeliveredAs(ss: seq<Session>, slot: nat, key: Bytes, prev: bool, f: Parsed): Log
    requires slot < |ss|
  {
    if !Proper(ss[slot], f.payload) then []
    else [Delivered(slot, ss[slot].pub, key, f.q, prev, f.payload, Outlet(ss, slot, f.payload))]
  }

  /** The delivery with the relay that follows it. */
  function Passage(ss: seq<Session>, now: int, slot: nat, key: Bytes, prev: bool, f: Parsed, c: SendChoice): Log
    requires slot < |ss|
  {
    DeliveredAs(ss, slot, key, prev, f) +
    if Proper(ss[slot], f.payload) then RelayOf(ss, now, slot, f.payload, Outlet(ss, slot, f.payload), c) else []
  }

  lemma DeliveredSame(ss: seq<Session>, tt: seq<Session>, slot: nat, key: Bytes, prev: bool, f: Parsed)
    requires SameLookup(ss, tt) && slot < |ss|
    ensures Outlet(ss, slot, f.payload) == Outlet(tt, slot, f.payload)
    ensures DeliveredAs(ss, slot, key, prev, f) == DeliveredAs(tt, slot, key, prev, f)
  {
    if IsIpv4(f.payload) {
      BestRouteSame(ss, tt, DstIp(f.payload), |ss|);
    }
  }

  lemma PassageSame(ss: seq<Session>, tt: seq<Session>, now: int, slot: nat, key: Bytes, prev: bool, f: Parsed,
                    c: SendChoice)
    requires SameRouting(ss, tt) && slot < |ss|
    ensures Passage(ss, now, slot, key, prev, f, c) == Passage(tt, now, slot, key, prev, f, c)
  {
    DeliveredSame(ss, tt, slot, key, prev, f);
  }

  /** What a sealed frame from `src` gets delivered as, if it is not mistaken for a handshake. */
  function DeliveryOf(n: Node, now: int, src: Addr, key: Bytes, f: Parsed): Log
    requires Shape(n)
  {
    match FindByAddr(n.sessions, src)
    case None => []
    case Some(slot) =>
      var s := n.sessions[slot];
      if Admitted(s, now, key, f.q) then DeliveredAs(n.sessions, slot, key, key != s.key, f) else []
  }

  /** All that a frame in a datagram `wire` from `src`, sealed under `key`, adds to the log. */
  function PacketLog(n: Node, now: int, src: Addr, key: Bytes, f: Parsed, wire: Bytes, c: SendChoice): Log
    requires Shape(n)
  {
    match FindByAddr(n.sessions, src)
    case None => []
    case Some(slot) => [Touched(slot, now)] + OpenedLog(n.sessions, now, src, slot, key, f, wire, c)
  }

  function OpenedLog(ss: seq<Session>, now: int, src: Addr, slot: nat, key: Bytes, f: Parsed, wire: Bytes,
                     c: SendChoice): Log
    requires slot < |ss| && |ss[slot].recvWindow| > 0
  {
    var s := ss[slot];
    var passage := if Admitted(s, now, key, f.q) then Passage(ss, now, slot, key, key != s.key, f, c) else [];
    if key == s.key then
      [Opened(slot, key, false, now, src, wire),
       Checked(slot, key, f.q, f.payload, Admitted(s, now, key, f.q), src, wire)] + passage
    else if Admitted(s, now, key, f.q) then [Opened(slot, key, true, now, src, wire)] + passage
    else []
  }

  lemma DeliverStepExactly(n: Node, now: int, slot: nat, key: Bytes, prev: bool, f: Parsed, c: SendChoice)
    requires Shape(n) && slot < |n.sessions|
    ensures DeliverStep(n, now, slot, key, prev, f, c).log == n.log + Passage(n.sessions, now, slot, key, prev, f, c)
  {
    var s := n.sessions[slot];
    assert Proper(s, f.payload) <==> f.payload != [] && !Spoofed(s, f.payload);
    if Proper(s, f.payload) {
      assert Outlet(n.sessions, slot, f.payload) == SinkOf(n.sessions, slot, f.payload);
      PassOnExactly(n, now, Delivered(slot, s.pub, key, f.q, prev, f.payload, SinkOf(n.sessions, slot, f.payload)), c);
    }
  }

  lemma PassOnExactly(n: Node, now: int, e: Event, c: SendChoice)
    requires Shape(n) && e.Delivered? && (e.sink.ToPeer? ==> e.sink.slot < |n.sessions|)
    ensures PassOn(n, now, e, c).log == n.log + ([e] + RelayOf(n.sessions, now, e.slot, e.payload, e.sink, c))
  {
  }

  lemma CheckStepExactly(n: Node, now: int, src: Addr, wire: Bytes, slot: nat, f: Parsed, c: SendChoice)
    requires Shape(n) && slot < |n.sessions| && f.q < U64
    ensures var s := n.sessions[slot];
            var ok := CheckReplay(f.q, s.recvHighest, s.recvWindow).ok;
            CheckStep(n, now, src, wire, slot, f, c).log ==
            n.log + ([Checked(slot, s.key, f.q, f.payload, ok, src, wire)] +
                     if ok then Passage(n.sessions, now, slot, s.key, false, f, c) else [])
  {
    var s := n.sessions[slot];
    var ok := CheckReplay(f.q, s.recvHighest, s.recvWindow).ok;
    var e := Checked(slot, s.key, f.q, f.payload, ok, src, wire);
    var n1 := Apply(n, e);
    KeepsRouting(n, e);
    DeliverStepExactly(n1, now, slot, s.key, false, f, c);
    PassageSame(n.sessions, n1.sessions, now, slot, s.key, false, f, c);
    LogAppends(n.log, [e], if ok then Passage(n.sessions, now, slot, s.key, false, f, c) else []);
  }

  lemma LogAppends(h: Log, a: Log, b: Log)
    ensures h + a + b == h + (a + b)
  {
  }

  /** The packet under the session's current key. */
  lemma CurrentKeyExactly(n: Node, now: int, src: Addr, iv: Iv, f: Parsed, slot: nat, c: SendChoice)
    requires Shape(n) && slot < |n.sessions| && f.q < U64
    ensures var key := n.sessions[slot].key;
            var wire := SealFrame(key, iv, f.q, f.payload);
            CurrentKeyStep(n, now, src, wire, slot, c).log ==
            n.log + OpenedLog(n.sessions, now, src, slot, key, f, wire, c)
  {
    var s := n.sessions[slot];
    var wire := SealFrame(s.key, iv, f.q, f.payload);
    OpensUnder(s.key, s.key, iv, f);
    var e := Opened(slot, s.key, false, now, src, wire);
    var n1 := Apply(n, e);
    KeepsRouting(n, e);
    assert CurrentKeyStep(n, now, src, wire, slot, c) == CheckStep(n1, now, src, wire, slot, f, c);
    assert n1.sessions[slot] == s.(prevActive := false);
    CheckStepExactly(n1, now, src, wire, slot, f, c);
    PassageSame(n.sessions, n1.sessions, now, slot, s.key, false, f, c);
    var ok := CheckReplay(f.q, s.recvHighest, s.recvWindow).ok;
    var e2 := Checked(slot, s.key, f.q, f.payload, ok, src, wire);
    var passage := if ok then Passage(n.sessions, now, slot, s.key, false, f, c) else [];
    LogAppends(n.log, [e], [e2] + passage);
    LogAppends([e], [e2], passage);
    assert [e] + [e2] == [e, e2];
  }

  /** The packet under the session's previous key. */
  lemma PrevKeyExactly(n: Node, now: int, src: Addr, iv: Iv, f: Parsed, slot: nat, c: SendChoice)
    requires Shape(n) && slot < |n.sessions| && f.q < U64
    ensures var key := n.sessions[slot].prevKey;
            var wire := SealFrame(key, iv, f.q, f.payload);
            PrevKeyStep(n, now, src, wire, slot, c).log ==
            n.log + ([Opened(slot, key, true, now, src, wire)] + Passage(n.sessions, now, slot, key, true, f, c))
  {
    var s := n.sessions[slot];
    var wire := SealFrame(s.prevKey, iv, f.q, f.payload);
    OpensUnder(s.prevKey, s.prevKey, iv, f);
    var e := Opened(slot, s.prevKey, true, now, src, wire);
    KeepsRouting(n, e);
    DeliverStepExactly(Apply(n, e), now, slot, s.prevKey, true, f, c);
    PassageSame(n.sessions, Apply(n, e).sessions, now, slot, s.prevKey, true, f, c);
    LogAppends(n.log, [e], Passage(n.sessions, now, slot, s.prevKey, true, f, c));
  }

  lemma OpenStepExactly(n: Node, now: int, src: Addr, key: Bytes, iv: Iv, f: Parsed, slot: nat, c: SendChoice)
    requires Shape(n) && slot < |n.sessions| && f.q < U64
    ensures var wire := SealFrame(key, iv, f.q, f.payload);
            OpenStep(n, now, src, wire, slot, c).log ==
            n.log + OpenedLog(n.sessions, now, src, slot, key, f, wire, c)
  {
    var s := n.sessions[slot];
    OpensUnder(key, s.key, iv, f);
    OpensUnder(key, s.prevKey, iv, f);
    if key == s.key {
      CurrentKeyExactly(n, now, src, iv, f, slot, c);
    } else if s.prevActive && now <= s.prevExpires && key == s.prevKey {
      PrevKeyExactly(n, now, src, iv, f, slot, c);
    }
  }

  lemma OpensUnder(key: Bytes, other: Bytes, iv: Iv, f: Parsed)
    requires f.q < U64
    ensures OpenPacket(other, SealFrame(key, iv, f.q, f.payload)).Some? <==> other == key
    ensures OpenFrame(other, SealFrame(key, iv, f.q, f.payload)) == if other == key then Some(f) else None
  {
    PacketRoundTrip(key, other, iv, Frame(f.q, f.payload));
    SealedFrameRoundTrip(key, other, iv, f.q, f.payload);
  }

  lemma DataStepExactly(n: Node, now: int, src: Addr, key: Bytes, iv: Iv, f: Parsed, c: SendChoice)
    requires Shape(n) && f.q < U64
    ensures var wire := SealFrame(key, iv, f.q, f.payload);
            DataStep(n, now, src, wire, c).log == n.log + PacketLog(n, now, src, key, f, wire, c)
  {
    match FindByAddr(n.sessions, src) {
      case None =>
      case Some(slot) =>
        var n1, wire := Apply(n, Touched(slot, now)), SealFrame(key, iv, f.q, f.payload);
        KeepsRouting(n, Touched(slot, now));
        OpenStepExactly(n1, now, src, key, iv, f, slot, c);
        TouchedOpensAlike(n, now, src, slot, key, f, wire, c);
        LogAppends(n.log, [Touched(slot, now)], OpenedLog(n.sessions, now, src, slot, key, f, wire, c));
    }
  }

  lemma TouchedOpensAlike(n: Node, now: int, src: Addr, slot: nat, key: Bytes, f: Parsed, wire: Bytes, c: SendChoice)
    requires Shape(n) && slot < |n.sessions|
    ensures var n1 := Apply(n, Touched(slot, now));
            && |n1.sessions| == |n.sessions| && |n1.sessions[slot].recvWindow| > 0
            && OpenedLog(n.sessions, now, src, slot, key, f, wire, c)
            == OpenedLog(n1.sessions, now, src, slot, key, f, wire, c)
  {
    var n1, s := Apply(n, Touched(slot, now)), n.sessions[slot];
    KeepsRouting(n, Touched(slot, now));
    PassageSame(n.sessions, n1.sessions, now, slot, key, key != s.key, f, c);
    assert n1.sessions[slot] == s.(lastSeen := now);
  }

  /** For every node and every sealed packet that is not mistaken for a handshake: all that happens.
      The first session at its source address notes the time. If that session admits the key and the
      number and the payload is proper, the payload is delivered: to the slot that leads for its
      destination, if that is another one, where it is sent on at once under that session's key,
      number and address; and else to the TUN device, and nothing is sent. */
  lemma PacketExactly(n: Node, now: int, src: Addr, key: Bytes, iv: Iv, f: Parsed, env: UdpEnv)
    requires Shape(n) && f.q < U64 && !Mistaken(n.params.psk, iv, f.payload)
    ensures var wire := SealFrame(key, iv, f.q, f.payload);
            DatagramStep(n, now, src, wire, env).log == n.log + PacketLog(n, now, src, key, f, wire, env.send)
  {
    MistakenExactly(n.params, key, iv, f.q, f.payload);
    DataStepExactly(n, now, src, key, iv, f, env.send);
  }

  /** What a session makes of a datagram that opens to a frame under no key. */
  function UnframedLog(s: Session, now: int, src: Addr, slot: nat, wire: Bytes): Log {
    if OpenPacket(s.key, wire).Some? then [Opened(slot, s.key, false, now, src, wire)]
    else if s.prevActive && now <= s.prevExpires && OpenPacket(s.prevKey, wire).Some? then
      [Opened(slot, s.prevKey, true, now, src, wire)]
    else []
  }

  lemma UnframedOpens(n: Node, now: int, src: Addr, wire: Bytes, slot: nat, c: SendChoice)
    requires Shape(n) && slot < |n.sessions|
    requires OpenFrame(n.sessions[slot].key, wire).None? && OpenFrame(n.sessions[slot].prevKey, wire).None?
    ensures OpenStep(n, now, src, wire, slot, c).log == n.log + UnframedLog(n.sessions[slot], now, src, slot, wire)
  {
  }

  /** The other datagrams, which open to a frame under no key: the first session at the source address
      notes the time, and perhaps that it could decrypt them, and no more. */
  lemma NoFrameExactly(n: Node, now: int, src: Addr, wire: Bytes, env: UdpEnv)
    requires Shape(n) && !HandshakeShaped(n.params, wire) && forall key :: OpenFrame(key, wire).None?
    ensures var s := FindByAddr(n.sessions, src);
            DatagramStep(n, now, src, wire, env).log == n.log +
            if s.None? then []
            else [Touched(s.value, now)] + UnframedLog(n.sessions[s.value], now, src, s.value, wire)
  {
    var slot := FindByAddr(n.sessions, src);
    if slot.Some? {
      var n1, s := Apply(n, Touched(slot.value, now)), n.sessions[slot.value];
      assert n1.sessions[slot.value] == s.(lastSeen := now);
      assert OpenFrame(s.key, wire).None? && OpenFrame(s.prevKey, wire).None?;
      KeepsRouting(n, Touched(slot.value, now));
      UnframedOpens(n1, now, src, wire, slot.value, env.send);
      LogAppends(n.log, [Touched(slot.value, now)], UnframedLog(s, now, src, slot.value, wire));
    }
  }

  lemma {:induction false} DeliveriesAppend(g: Log, h: Log)
    ensures Deliveries(g + h) == Deliveries(g) + Deliveries(h)
  {
    if h == [] {
      assert g + h == g;
    } else {
      var n := |h| - 1;
      assert (g + h)[..|g| + n] == g + h[..n];
      DeliveriesAppend(g, h[..n]);
    }
  }

  lemma DeliveriesOfTwo(d: Event, e: Event)
    ensures Deliveries([e]) == if e.Delivered? then [e] else []
    ensures Deliveries([d, e]) == Deliveries([d]) + Deliveries([e])
  {
    assert [e][..0] == [];
    assert [d, e] == [d] + [e];
    DeliveriesAppend([d], [e]);
  }

  lemma DeliveriesOfPassage(ss: seq<Session>, now: int, slot: nat, key: Bytes, prev: bool, f: Parsed, c: SendChoice)
    requires slot < |ss|
    ensures Deliveries(Passage(ss, now, slot, key, prev, f, c)) == DeliveredAs(ss, slot, key, prev, f)
  {
    if Proper(ss[slot], f.payload) {
      var sink := Outlet(ss, slot, f.payload);
      var d := Delivered(slot, ss[slot].pub, key, f.q, prev, f.payload, sink);
      assert DeliveredAs(ss, slot, key, prev, f) == [d];
      DeliveriesOfTwo(d, d);
      DeliveriesOfRelay(ss, now, slot, f.payload, sink, c);
      DeliveriesAppend([d], RelayOf(ss, now, slot, f.payload, sink, c));
    }
  }

  lemma DeliveriesOfRelay(ss: seq<Session>, now: int, slot: nat, payload: seq<Byte>, sink: Sink, c: SendChoice)
    requires sink.ToPeer? ==> sink.slot < |ss|
    ensures Deliveries(RelayOf(ss, now, slot, payload, sink, c)) == []
  {
    var g := RelayOf(ss, now, slot, payload, sink, c);
    if sink.ToPeer? {
      DeliveriesOfTwo(g[0], g[0]);
    }
  }

  lemma DeliveriesOfOpened(ss: seq<Session>, now: int, src: Addr, slot: nat, key: Bytes, f: Parsed, wire: Bytes,
                           c: SendChoice)
    requires slot < |ss| && |ss[slot].recvWindow| > 0
    ensures Deliveries(OpenedLog(ss, now, src, slot, key, f, wire, c)) ==
            if Admitted(ss[slot], now, key, f.q) then DeliveredAs(ss, slot, key, key != ss[slot].key, f) else []
  {
    var s := ss[slot];
    var ok := Admitted(s, now, key, f.q);
    var passage := if ok then Passage(ss, now, slot, key, key != s.key, f, c) else [];
    DeliveriesOfPassage(ss, now, slot, key, key != s.key, f, c);
    var d := Opened(slot, key, key != s.key, now, src, wire);
    var e := Checked(slot, key, f.q, f.payload, ok, src, wire);
    if key == s.key {
      DeliveriesOfTwo(d, e);
      DeliveriesAppend([d, e], passage);
    } else {
      DeliveriesOfTwo(d, d);
      DeliveriesAppend([d], passage);
    }
  }

  /** For every node and every sealed packet: it is delivered, once and unchanged, exactly if it is
      not mistaken for a handshake, there is a session at its source address, the first such one
      admits its key and number, and the payload is proper. */
  lemma SealedPacketExactly(n: Node, now: int, src: Addr, key: Bytes, iv: Iv, f: Parsed, env: UdpEnv)
    requires Shape(n) && f.q < U64
    ensures Deliveries(DatagramStep(n, now, src, SealFrame(key, iv, f.q, f.payload), env).log) == Deliveries(n.log) +
            if Mistaken(n.params.psk, iv, f.payload) then [] else DeliveryOf(n, now, src, key, f)
  {
    var wire := SealFrame(key, iv, f.q, f.payload);
    MistakenExactly(n.params, key, iv, f.q, f.payload);
    if Mistaken(n.params.psk, iv, f.payload) {
      HandshakeDeliversNothing(n, now, src, wire, env);
    } else {
      PacketExactly(n, now, src, key, iv, f, env);
      DeliveriesAppend(n.log, PacketLog(n, now, src, key, f, wire, env.send));
      DeliveriesOfPacket(n, now, src, key, f, wire, env.send);
    }
  }

  lemma DeliveriesOfPacket(n: Node, now: int, src: Addr, key: Bytes, f: Parsed, wire: Bytes, c: SendChoice)
    requires Shape(n)
    ensures Deliveries(PacketLog(n, now, src, key, f, wire, c)) == DeliveryOf(n, now, src, key, f)
  {
    match FindByAddr(n.sessions, src) {
      case None =>
      case Some(slot) =>
        DeliveriesOfOpened(n.sessions, now, src, slot, key, f, wire, c);
        DeliveriesOfTwo(Touched(slot, now), Touched(slot, now));
        DeliveriesAppend([Touched(slot, now)], OpenedLog(n.sessions, now, src, slot, key, f, wire, c));
    }
  }

  /** A packet from the TUN device is sent once if some slot leads for its destination, to that slot and
      under its key and number; and else nothing happens. */
  lemma TunExactly(n: Node, now: int, packet: seq<Byte>, c: SendChoice, k: nat)
    requires Shape(n)
    ensures var n' := TunStep(n, now, packet, c);
            && (IsIpv4(packet) && Leads(n.sessions, DstIp(packet), k) ==>
                  && k < |n.sessions|
                  && var s := n.sessions[k];
                     n'.log == n.log + [Sent(k, s.addr, s.key, s.sendSeq, packet,
                                             SealFrame(s.key, c.iv, s.sendSeq, packet),
                                             c.encrypted && c.sent, now, FromTun)])
            && (n' != n ==> IsIpv4(packet) && exists i: nat :: Leads(n.sessions, DstIp(packet), i))
  {
    if IsIpv4(packet) {
      LookupLeads(n.sessions, DstIp(packet), k);
      var hop := RouteLookup(n.sessions, DstIp(packet));
      if hop.Some? {
        LookupLeads(n.sessions, DstIp(packet), hop.value);
      }
    }
  }

  lemma TunSends(n: Node, now: int, packet: seq<Byte>, c: SendChoice, i: nat)
    requires Shape(n) && IsIpv4(packet) && RouteLookup(n.sessions, DstIp(packet)) == Some(i)
    ensures var s, h := n.sessions[i], TunStep(n, now, packet, c).log;
            && |h| == |n.log| + 1 && h[|n.log|].Sent? && h[|n.log|].dst == s.addr
            && h[|n.log|].ok == (c.encrypted && c.sent)
            && h[|n.log|].wire == SealFrame(s.key, c.iv, s.sendSeq, packet)
  {
  }

  /** From one TUN device to the next: a packet that has a route at one node, is sent and arrives at
      another is delivered there, unchanged, under exactly those conditions. */
  lemma PacketGoesThrough(a: Node, b: Node, packet: seq<Byte>, c: SendChoice, i: nat, src: Addr,
                          now: int, now': int, env: UdpEnv)
    requires Shape(a) && Shape(b) && IsIpv4(packet) && RouteLookup(a.sessions, DstIp(packet)) == Some(i)
    ensures var s, h := a.sessions[i], TunStep(a, now, packet, c).log;
            && |h| == |a.log| + 1 && h[|a.log|].Sent? && h[|a.log|].dst == s.addr
            && h[|a.log|].ok == (c.encrypted && c.sent)
            && Deliveries(DatagramStep(b, now', src, h[|a.log|].wire, env).log) == Deliveries(b.log) +
               if Mistaken(b.params.psk, c.iv, packet) then []
               else DeliveryOf(b, now', src, s.key, Parsed(s.sendSeq, packet))
  {
    TunSends(a, now, packet, c, i);
    SealedPacketExactly(b, now', src, a.sessions[i].key, c.iv, Parsed(a.sessions[i].sendSeq, packet), env);
  }

  /** The session of node `h` that packets from `src` are taken for is slot `slot`; it admits the packet,
      and the packet's destination leads to slot `k`. */
  ghost predicate RelaysTo(h: Node, now: int, src: Addr, key: Bytes, f: Parsed, slot: nat, k: nat)
    requires Shape(h)
  {
    && FindByAddr(h.sessions, src) == Some(slot) && Admitted(h.sessions[slot], now, key, f.q)
    && Proper(h.sessions[slot], f.payload) && IsIpv4(f.payload)
    && k != slot && Leads(h.sessions, DstIp(f.payload), k)
  }

  lemma RelaySends(h: Node, now: int, src: Addr, key: Bytes, iv: Iv, f: Parsed, slot: nat, k: nat, env: UdpEnv)
    requires Shape(h) && f.q < U64 && !Mistaken(h.params.psk, iv, f.payload)
    requires RelaysTo(h, now, src, key, f, slot, k)
    ensures var g := DatagramStep(h, now, src, SealFrame(key, iv, f.q, f.payload), env).log;
            && k < |h.sessions| && |g| >= |h.log| + 2
            && g[|g| - 2] == Delivered(slot, h.sessions[slot].pub, key, f.q, key != h.sessions[slot].key, f.payload,
                                       ToPeer(k))
            && var t := h.sessions[k];
               g[|g| - 1] == Sent(k, t.addr, t.key, t.sendSeq, f.payload,
                                  SealFrame(t.key, env.send.iv, t.sendSeq, f.payload),
                                  env.send.encrypted && env.send.sent, now, Relayed(slot))
  {
    PacketExactly(h, now, src, key, iv, f, env);
    RelayPassage(h.sessions, now, slot, key, key != h.sessions[slot].key, f, k, env.send);
    var opening := OpeningOf(h.sessions[slot], now, src, slot, key, f, SealFrame(key, iv, f.q, f.payload));
    AdmittedPacketLog(h, now, src, key, f, SealFrame(key, iv, f.q, f.payload), slot, env.send);
    LogAppends(h.log, opening, Passage(h.sessions, now, slot, key, key != h.sessions[slot].key, f, env.send));
  }

  /** What precedes the passage of a packet that is admitted. */
  function OpeningOf(s: Session, now: int, src: Addr, slot: nat, key: Bytes, f: Parsed, wire: Bytes): Log {
    [Touched(slot, now), Opened(slot, key, key != s.key, now, src, wire)] +
    if key == s.key then [Checked(slot, key, f.q, f.payload, true, src, wire)] else []
  }

  lemma AdmittedPacketLog(n: Node, now: int, src: Addr, key: Bytes, f: Parsed, wire: Bytes, slot: nat, c: SendChoice)
    requires Shape(n) && FindByAddr(n.sessions, src) == Some(slot) && Admitted(n.sessions[slot], now, key, f.q)
    ensures PacketLog(n, now, src, key, f, wire, c) ==
            OpeningOf(n.sessions[slot], now, src, slot, key, f, wire) +
            Passage(n.sessions, now, slot, key, key != n.sessions[slot].key, f, c)
  {
  }

  lemma RelayPassage(ss: seq<Session>, now: int, slot: nat, key: Bytes, prev: bool, f: Parsed, k: nat, c: SendChoice)
    requires slot < |ss| && Proper(ss[slot], f.payload) && IsIpv4(f.payload)
    requires k != slot && Leads(ss, DstIp(f.payload), k)
    ensures k < |ss|
    ensures Passage(ss, now, slot, key, prev, f, c) ==
            [Delivered(slot, ss[slot].pub, key, f.q, prev, f.payload, ToPeer(k)),
             Sent(k, ss[k].addr, ss[k].key, ss[k].sendSeq, f.payload,
                  SealFrame(ss[k].key, c.iv, ss[k].sendSeq, f.payload), c.encrypted && c.sent, now, Relayed(slot))]
  {
    LookupLeads(ss, DstIp(f.payload), k);
    assert Outlet(ss, slot, f.payload) == ToPeer(k);
  }

  /** What the relay sends is delivered where it arrives under exactly the conditions of any packet. */
  lemma RelayArrives(h: Node, b: Node, now: int, src: Addr, key: Bytes, iv: Iv, f: Parsed, slot: nat, k: nat,
                     env: UdpEnv, atH: Addr, now': int, env': UdpEnv)
    requires Shape(h) && Shape(b) && f.q < U64 && !Mistaken(h.params.psk, iv, f.payload)
    requires RelaysTo(h, now, src, key, f, slot, k)
    ensures var g := DatagramStep(h, now, src, SealFrame(key, iv, f.q, f.payload), env).log;
            && k < |h.sessions| && |g| > 0 && g[|g| - 1].Sent? && g[|g| - 1].dst == h.sessions[k].addr
            && Deliveries(DatagramStep(b, now', atH, g[|g| - 1].wire, env').log) == Deliveries(b.log) +
               if Mistaken(b.params.psk, env.send.iv, f.payload) then []
               else DeliveryOf(b, now', atH, h.sessions[k].key, Parsed(h.sessions[k].sendSeq, f.payload))
  {
    RelaySends(h, now, src, key, iv, f, slot, k, env);
    var t := h.sessions[k];
    SealedPacketExactly(b, now', atH, t.key, env.send.iv, Parsed(t.sendSeq, f.payload), env');
  }

  /** From one TUN device to another over a relay: a packet that a node sends, that the relay admits and
      whose destination leads to another of its sessions, leaves the relay for that session's address,
      and is delivered there unchanged under exactly the conditions of any packet. */
  lemma RelayGoesThrough(a: Node, h: Node, b: Node, packet: seq<Byte>, c: SendChoice, i: nat, slot: nat, k: nat,
                         now: int, atA: Addr, now': int, env: UdpEnv, atH: Addr, now'': int, env': UdpEnv)
    requires Shape(a) && Shape(h) && Shape(b) && IsIpv4(packet) && RouteLookup(a.sessions, DstIp(packet)) == Some(i)
    requires !Mistaken(h.params.psk, c.iv, packet)
    requires RelaysTo(h, now', atA, a.sessions[i].key, Parsed(a.sessions[i].sendSeq, packet), slot, k)
    ensures var w := TunStep(a, now, packet, c).log;
            && |w| == |a.log| + 1 && w[|a.log|].Sent? && w[|a.log|].dst == a.sessions[i].addr
            && var g := DatagramStep(h, now', atA, w[|a.log|].wire, env).log;
               && k < |h.sessions| && |g| > 0 && g[|g| - 1].Sent? && g[|g| - 1].dst == h.sessions[k].addr
               && Deliveries(DatagramStep(b, now'', atH, g[|g| - 1].wire, env').log) == Deliveries(b.log) +
                  if Mistaken(b.params.psk, env.send.iv, packet) then []
                  else DeliveryOf(b, now'', atH, h.sessions[k].key, Parsed(h.sessions[k].sendSeq, packet))
  {
    TunSends(a, now, packet, c, i);
    var key, f := a.sessions[i].key, Parsed(a.sessions[i].sendSeq, packet);
    RelayArrives(h, b, now', atA, key, c.iv, f, slot, k, env, atH, now'', env');
  }

  // ----- the previous key ---------------------------------------------------------------------

  /** The session tables agree in all that decides about a packet under a previous key. */
  ghost predicate SamePrevious(ss: seq<Session>, tt: seq<Session>) {
    && |ss| == |tt|
    && forall k | 0 <= k < |ss| ::
         && ss[k].active == tt[k].active && ss[k].pub == tt[k].pub && ss[k].addr == tt[k].addr
         && ss[k].key == tt[k].key && ss[k].prevKey == tt[k].prevKey && ss[k].prevActive == tt[k].prevActive
         && ss[k].prevExpires == tt[k].prevExpires && ss[k].routes == tt[k].routes
  }

  lemma DeliverKeepsPrevious(n: Node, now: int, slot: nat, key: Bytes, prev: bool, f: Parsed, c: SendChoice)
    requires Shape(n) && slot < |n.sessions|
    ensures SamePrevious(n.sessions, DeliverStep(n, now, slot, key, prev, f, c).sessions)
  {
    if f.payload != [] && !Spoofed(n.sessions[slot], f.payload) {
      var sink := SinkOf(n.sessions, slot, f.payload);
      var n1 := Apply(n, Delivered(slot, n.sessions[slot].pub, key, f.q, prev, f.payload, sink));
      if sink.ToPeer? {
        ForwardKeepsPrevious(n1, sink.slot, f.payload, c, now, Relayed(slot));
      }
    }
  }

  lemma ForwardKeepsPrevious(n: Node, slot: nat, payload: seq<Byte>, c: SendChoice, now: int, origin: Origin)
    requires Shape(n) && slot < |n.sessions|
    ensures SamePrevious(n.sessions, Forward(n, slot, payload, c, now, origin).sessions)
  {
  }

  lemma PrevStepKeepsPrevious(n: Node, now: int, src: Addr, wire: Bytes, slot: nat, c: SendChoice)
    requires Shape(n) && FindByAddr(n.sessions, src) == Some(slot) && OpenPacket(n.sessions[slot].key, wire).None?
    ensures SamePrevious(n.sessions, DataStep(n, now, src, wire, c).sessions)
  {
    var n1, prevKey := Apply(n, Touched(slot, now)), n.sessions[slot].prevKey;
    EventKeepsPrevious(n, Touched(slot, now));
    var e := Opened(slot, prevKey, true, now, src, wire);
    EventKeepsPrevious(n1, e);
    match OpenFrame(prevKey, wire) {
      case None =>
      case Some(f) => DeliverKeepsPrevious(Apply(n1, e), now, slot, prevKey, true, f, c);
    }
  }

  lemma EventKeepsPrevious(n: Node, e: Event)
    requires Shape(n) && InRange(n, e) && (e.Touched? || (e.Opened? && e.prev))
    ensures Shape(Apply(n, e)) && SamePrevious(n.sessions, Apply(n, e).sessions)
  {
  }

  /** A packet delivered under the previous key is delivered again, the same way, whenever it arrives
      again before that key expires: nothing but the time decides. */
  lemma PreviousKeyAdmitsAgain(n: Node, now: int, now': int, src: Addr, key: Bytes, iv: Iv, f: Parsed, c: SendChoice)
    requires Shape(n) && f.q < U64 && DeliveryOf(n, now, src, key, f) != []
    requires key != n.sessions[FindByAddr(n.sessions, src).value].key
    ensures var n' := DataStep(n, now, src, SealFrame(key, iv, f.q, f.payload), c);
            var s := n.sessions[FindByAddr(n.sessions, src).value];
            DeliveryOf(n', now', src, key, f) == if now' <= s.prevExpires then DeliveryOf(n, now, src, key, f) else []
  {
    var slot, wire := FindByAddr(n.sessions, src).value, SealFrame(key, iv, f.q, f.payload);
    OpensUnder(key, n.sessions[slot].key, iv, f);
    PrevStepKeepsPrevious(n, now, src, wire, slot, c);
    var n' := DataStep(n, now, src, wire, c);
    FindSame(n.sessions, n'.sessions, [], src, 0);
    DeliveredSame(n.sessions, n'.sessions, slot, key, true, f);
  }
}
