/** Runs from the initial state that show why the conditions of the main results are there: when a
    session key is installed twice, when a packet is delivered twice, and when the first packet of
    a new session is lost. */
module Counterexamples {
  import opened Options
  import opened Bits
  import opened Crypto
  import opened Handshake
  import opened Framing
  import opened Tables
  import opened Routing
  import opened Trace
  import opened Steps
  import opened Cadence
  import opened Emissions
  import opened LegalLogs
  import opened Transit
  import opened Guarantees
  import opened Connect

  /** The environment in which every foreign call succeeds, except perhaps the generation of the
      next ephemeral key. */
  function AllWell(refreshOk: bool): UdpEnv {
    UdpEnv(true, true, true, refreshOk, false, SendChoice(seq(IV_LEN, _ => 0), true, true))
  }

  ghost predicate NothingPending(n: Node) {
    forall j | 0 <= j < |n.pending| :: !n.pending[j].active
  }

  /** An initiation to `n` by the holder of `client`. */
  function InitFor(n: Node, client: Secret, ec: Secret): Bytes {
    ClientInit(n.params.psk, ClientStart(ec, PubOf(n)), PubBytes(client))
  }

  /** The reply to it. */
  lemma Responds(n: Node, client: Secret, ec: Secret) returns (r: Response)
    ensures HandshakeShaped(n.params, InitFor(n, client, ec))
    ensures var init := InitFor(n, client, ec);
            ServerRespond(n.params.psk, OwnStatic(n.params), OwnEph(n.params, n.precomp), init) == Some(r)
    ensures r.clientPub == PubBytes(client)
    ensures r.key == KeyOf(n.params, false, PubBytes(client), n.precomp, PubBytes(ec))
  {
    var st := ClientStart(ec, PubOf(n));
    RespondsExactlyToItsInitiators(n.params.psk, n.params.psk, client, OwnStatic(n.params), OwnStatic(n.params), ec,
                                   OwnEph(n.params, n.precomp));
    MessageIsShaped(n.params, st.ephPub, SealIdentity(st.ecdhEcSs, PubBytes(client)));
    r := ServerRespond(n.params.psk, OwnStatic(n.params), OwnEph(n.params, n.precomp), InitFor(n, client, ec)).value;
  }

  /** A node with no session but perhaps one with that client answers it in slot 0. */
  lemma AnswersAlone(n: Node, now: int, src: Addr, wire: Bytes, env: UdpEnv, r: Response)
    requires Shape(n) && HandshakeShaped(n.params, wire) && FindPending(n.pending, src).None? && |n.sessions| <= 1
    requires ServerRespond(n.params.psk, OwnStatic(n.params), OwnEph(n.params, n.precomp), wire) == Some(r)
    requires FindPeer(n.params.peers, r.clientPub).Some? && env.replyOk && env.keyOk
    requires |n.sessions| == 1 ==>
               HasPub(n.sessions[0], r.clientPub) && now - n.sessions[0].lastHandshake >= n.params.cooldown
    ensures var n' := DatagramStep(n, now, src, wire, env);
            Answered(n, now, src, env, r, 0, n') && |n'.sessions| == 1
  {
    assert Alloc(n.sessions, r.clientPub, src) == Some(0);
    Answers(n, now, src, wire, env, r);
  }

  /** Slot `k` is held by that client at that address since then. */
  ghost predicate HeldBy(n: Node, k: nat, client: Secret, addr: Addr, since: int) {
    && k < |n.sessions| && HasPub(n.sessions[k], PubBytes(client))
    && n.sessions[k].addr == addr && n.sessions[k].lastHandshake == since
  }

  /** The key of the slot's session is that of an answer to that client. */
  ghost predicate Keyed(n: Node, k: nat, client: Secret, eph: nat, ec: Secret) {
    k < |n.sessions| && n.sessions[k].key == KeyOf(n.params, false, PubBytes(client), eph, PubBytes(ec))
  }

  lemma FirstConnects(b: Node, first: Secret, ec: Secret, x: Addr)
    requires Initial(b) && FindPeer(b.params.peers, PubBytes(first)).Some?
    ensures var b1 := DatagramStep(b, 0, x, InitFor(b, first, ec), AllWell(true));
            && |b1.sessions| == 1 && HeldBy(b1, 0, first, x, 0) && Keyed(b1, 0, first, b.precomp, ec)
            && !b1.sessions[0].prevActive && b1.precomp == b.nextEph
            && NothingPending(b1) && b1.params == b.params && Deliveries(b1.log) == []
  {
    var r := Responds(b, first, ec);
    AnswersAlone(b, 0, x, InitFor(b, first, ec), AllWell(true), r);
    HandshakeDeliversNothing(b, 0, x, InitFor(b, first, ec), AllWell(true));
  }

  // ----- a key that is installed twice --------------------------------------------------------

  /** If refresh_precomp_eph fails, the same initiation received twice installs the same key
      twice. */
  lemma StaleEphemeralRepeatsKey(n: Node, src: Addr, wire: Bytes, r: Response) returns (inputs: seq<Input>)
    requires Initial(n) && HandshakeShaped(n.params, wire)
    requires ServerRespond(n.params.psk, OwnStatic(n.params), OwnEph(n.params, n.precomp), wire) == Some(r)
    requires FindPeer(n.params.peers, r.clientPub).Some?
    ensures !EachKeyOnce(Steps.Run(n, inputs).log)
  {
    var t, env := n.params.cooldown, AllWell(false);
    var a, b := Datagram(0, src, wire, env), Datagram(t, src, wire, env);
    inputs := [a, b];
    TwoSteps(n, a, b);
    var n1 := Step(n, a);
    AnswersTwice(n, n1, Step(n1, b), src, wire, r);
  }

  lemma AnswersTwice(n: Node, n1: Node, n2: Node, src: Addr, wire: Bytes, r: Response)
    requires Initial(n) && HandshakeShaped(n.params, wire) && FindPeer(n.params.peers, r.clientPub).Some?
    requires ServerRespond(n.params.psk, OwnStatic(n.params), OwnEph(n.params, n.precomp), wire) == Some(r)
    requires n1 == DatagramStep(n, 0, src, wire, AllWell(false))
    requires n2 == DatagramStep(n1, n.params.cooldown, src, wire, AllWell(false))
    ensures !EachKeyOnce(n2.log)
  {
    AnswersAlone(n, 0, src, wire, AllWell(false), r);
    AnswersAlone(n1, n.params.cooldown, src, wire, AllWell(false), r);
    assert n2.log[2] == n1.log[2];
    assert n2.log[2].Installed? && n2.log[5].Installed? && n2.log[2].key == n2.log[5].key;
  }

  /** A node that waits for the answer to its own greeting: entry `j` is the only one pending, it is
      for the node's own key, and no key has been installed yet. */
  ghost predicate AsksItself(n: Node, j: nat, ec: Secret) {
    && n.sessions == [] && j < |n.pending| && n.pending[j].active
    && (forall k | 0 <= k < |n.pending| && k != j :: !n.pending[k].active)
    && n.pending[j].cfg < |n.params.peers| && n.params.peers[n.pending[j].cfg].pub == PubOf(n)
    && n.pending[j].hs == ClientStart(ec, PubOf(n))
  }

  lemma AnswersOwnGreeting(n: Node, now: int, x: Addr, j: nat, ec: Secret) returns (r: Response)
    requires Shape(n) && AsksItself(n, j, ec) && x != n.pending[j].server
    ensures var n1 := DatagramStep(n, now, x, InitFor(n, OwnStatic(n.params), ec), AllWell(true));
            Answered(n, now, x, AllWell(true), r, 0, n1) && |n1.sessions| == 1
    ensures HandshakeShaped(n.params, r.wire) && r.clientPub == PubOf(n)
    ensures ClientRecv(n.params.psk, OwnStatic(n.params), PubOf(n), n.pending[j].hs, r.wire) == Some(r.key)
  {
    var own, eph, init := OwnStatic(n.params), OwnEph(n.params, n.precomp), InitFor(n, OwnStatic(n.params), ec);
    HandshakeAgreement(n.params.psk, own, own, ec, eph);
    r := Responds(n, own, ec);
    AnswersAlone(n, now, x, init, AllWell(true), r);
    ReplyIsShaped(n.params, own, eph, init);
  }

  lemma CompletesOwnGreeting(n: Node, n1: Node, now: int, x: Addr, j: nat, ec: Secret, r: Response)
    requires Shape(n) && Shape(n1) && AsksItself(n, j, ec) && NeverReused(n.log)
    requires Answered(n, now, x, AllWell(true), r, 0, n1) && |n1.sessions| == 1
    requires HandshakeShaped(n.params, r.wire) && r.clientPub == PubOf(n)
    requires ClientRecv(n.params.psk, OwnStatic(n.params), PubOf(n), n.pending[j].hs, r.wire) == Some(r.key)
    ensures var h := DatagramStep(n1, now, n.pending[j].server, r.wire, AllWell(true)).log;
            NeverReused(h) && !EachKeyOnce(h)
  {
    var at := n.pending[j].server;
    assert FindPending(n1.pending, at) == Some(j);
    assert Alloc(n1.sessions, PubOf(n), at) == Some(0);
    Completes(n1, now, at, r.wire, AllWell(true), j, r.key);
    var h := DatagramStep(n1, now, at, r.wire, AllWell(true)).log;
    assert h[|n.log| + 2].Installed? && h[|n.log| + 4].Installed? && h[|n.log| + 2].key == h[|n.log| + 4].key;
  }

  /** The greeting arrives from another address than the one it was sent to, and the answer comes
      back: both ends of the handshake are installed. */
  lemma AnswersItself(n: Node, now: int, x: Addr, j: nat, ec: Secret) returns (reply: Bytes)
    requires Shape(n) && AsksItself(n, j, ec) && x != n.pending[j].server && NeverReused(n.log)
    ensures var n1 := DatagramStep(n, now, x, InitFor(n, OwnStatic(n.params), ec), AllWell(true));
            var h := DatagramStep(n1, now, n.pending[j].server, reply, AllWell(true)).log;
            NeverReused(h) && !EachKeyOnce(h)
  {
    var r := AnswersOwnGreeting(n, now, x, j, ec);
    var n1 := DatagramStep(n, now, x, InitFor(n, OwnStatic(n.params), ec), AllWell(true));
    CompletesOwnGreeting(n, n1, now, x, j, ec, r);
    reply := r.wire;
  }

  lemma TicksReplaceNothing(n: Node, now: int, env: TickEnv)
    requires Shape(n) && NeverReused(n.log)
    ensures NeverReused(TickStep(n, now, env).log)
  {
    TickAdds(n, now, env);
    var h := TickStep(n, now, env).log;
    assert forall i | 0 <= i < |n.log| :: h[i] == h[..|n.log|][i];
  }

  lemma GreetsItself(n: Node, t: int, c: nat)
    requires Initial(n) && c < |n.params.peers| && n.params.peers[c].hasEndpoint
    requires n.params.peers[c].pub == PubOf(n) && t == Longer(n.params)
    ensures var n1, j := TickStep(n, t, OnlyTo(c)), FindFreeEntry(n.pending).value;
            && n1.params == n.params && AsksItself(n1, j, OwnEph(n.params, n.nextEph))
            && n1.pending[j].server == n.targets[c].endpoint
  {
    OnlyToTick(n, t, c);
  }

  /** A node that is its own peer can install one key twice although every refresh succeeds: its
      greeting comes back to it from an address `x` that it did not send it to. */
  lemma OwnPeerRepeatsKey(n: Node, c: nat, x: Addr) returns (inputs: seq<Input>)
    requires Initial(n) && c < |n.params.peers| && n.params.peers[c].hasEndpoint
    requires n.params.peers[c].pub == PubOf(n) && x != n.targets[c].endpoint
    ensures var h := Steps.Run(n, inputs).log; NeverReused(h) && !EachKeyOnce(h)
  {
    var t, env := Longer(n.params), AllWell(true);
    var a := Tick(t, OnlyTo(c));
    var n1 := Step(n, a);
    var reply := GreetingReturns(n, n1, t, c, x);
    var b := Datagram(t, x, InitFor(n1, OwnStatic(n.params), OwnEph(n.params, n.nextEph)), env);
    var d := Datagram(t, n.targets[c].endpoint, reply, env);
    inputs := [a, b, d];
    RunThree(n, n1, Step(n1, b), inputs);
  }

  lemma GreetingReturns(n: Node, n1: Node, t: int, c: nat, x: Addr) returns (reply: Bytes)
    requires Initial(n) && c < |n.params.peers| && n.params.peers[c].hasEndpoint
    requires n.params.peers[c].pub == PubOf(n) && x != n.targets[c].endpoint
    requires t == Longer(n.params) && n1 == TickStep(n, t, OnlyTo(c)) && Shape(n1)
    ensures var ec := OwnEph(n.params, n.nextEph);
            var n2 := DatagramStep(n1, t, x, InitFor(n1, OwnStatic(n.params), ec), AllWell(true));
            var h := DatagramStep(n2, t, n.targets[c].endpoint, reply, AllWell(true)).log;
            NeverReused(h) && !EachKeyOnce(h)
  {
    GreetsItself(n, t, c);
    TicksReplaceNothing(n, t, OnlyTo(c));
    reply := AnswersItself(n1, t, x, FindFreeEntry(n.pending).value, OwnEph(n.params, n.nextEph));
  }

  // ----- a packet that is delivered twice -----------------------------------------------------

  /** The client's session is in slot 0, the only one, and still admits its previous key. */
  ghost predicate Rekeyed(n: Node, x: Addr, prevKey: Bytes, until: int) {
    && |n.sessions| == 1 && HasAddr(n.sessions[0], x)
    && n.sessions[0].prevActive && n.sessions[0].prevKey == prevKey != n.sessions[0].key
    && n.sessions[0].prevExpires == until
  }

  lemma ConnectsAgain(b: Node, now: int, client: Secret, eph: nat, ec: Secret, x: Addr)
    requires Shape(b) && |b.sessions| == 1 && HeldBy(b, 0, client, x, 0) && Keyed(b, 0, client, eph, ec)
    requires eph != b.precomp && NothingPending(b) && now >= b.params.cooldown
    requires FindPeer(b.params.peers, PubBytes(client)).Some?
    ensures var b1 := DatagramStep(b, now, x, InitFor(b, client, ec), AllWell(true));
            && Rekeyed(b1, x, b.sessions[0].key, now + b.params.grace) && b1.params == b.params
            && Deliveries(b1.log) == Deliveries(b.log) && HasPub(b1.sessions[0], PubBytes(client))
            && b1.sessions[0].routes == b.params.peers[FindPeer(b.params.peers, PubBytes(client)).value].routes
  {
    var r := Responds(b, client, ec);
    AnswersAlone(b, now, x, InitFor(b, client, ec), AllWell(true), r);
    HandshakeDeliversNothing(b, now, x, InitFor(b, client, ec), AllWell(true));
    ResponderKeysEqual(OwnStatic(b.params), OwnEph(b.params, eph), PubBytes(ec), PubBytes(client),
                       OwnEph(b.params, b.precomp), PubBytes(ec), PubBytes(client));
  }

  /** The client connects and, after the cooldown, connects again with the same initiation. */
  lemma ConnectsTwice(b: Node, b1: Node, b2: Node, client: Secret, ec: Secret, x: Addr) returns (key: Bytes)
    requires Initial(b) && FindPeer(b.params.peers, PubBytes(client)).Some?
    requires b1 == DatagramStep(b, 0, x, InitFor(b, client, ec), AllWell(true))
    requires b2 == DatagramStep(b1, b.params.cooldown, x, InitFor(b, client, ec), AllWell(true))
    ensures Rekeyed(b2, x, key, b.params.cooldown + b.params.grace) && b2.params == b.params && Deliveries(b2.log) == []
    ensures HasPub(b2.sessions[0], PubBytes(client))
    ensures b2.sessions[0].routes == b.params.peers[FindPeer(b.params.peers, PubBytes(client)).value].routes
  {
    FirstConnects(b, client, ec, x);
    assert InitFor(b, client, ec) == InitFor(b1, client, ec);
    ConnectsAgain(b1, b.params.cooldown, client, b.precomp, ec, x);
    key := b1.sessions[0].key;
  }

  lemma OnlySessionDelivers(b: Node, now: int, x: Addr, key: Bytes, until: int, f: Parsed)
    requires Shape(b) && Rekeyed(b, x, key, until) && now <= until && Proper(b.sessions[0], f.payload)
    ensures DeliveryOf(b, now, x, key, f) == [Delivered(0, b.sessions[0].pub, key, f.q, true, f.payload, ToTun)]
    ensures FindByAddr(b.sessions, x) == Some(0)
  {
    assert Outlet(b.sessions, 0, f.payload) == ToTun;
  }

  lemma ArrivesOnce(b: Node, now: int, x: Addr, key: Bytes, until: int, iv: Iv, f: Parsed, env: UdpEnv)
    requires Shape(b) && Rekeyed(b, x, key, until) && now <= until && Deliveries(b.log) == []
    requires f.q < U64 && Proper(b.sessions[0], f.payload) && !Mistaken(b.params.psk, iv, f.payload)
    ensures var b1 := DatagramStep(b, now, x, SealFrame(key, iv, f.q, f.payload), env);
            var d := Delivered(0, b.sessions[0].pub, key, f.q, true, f.payload, ToTun);
            Deliveries(b1.log) == DeliveryOf(b1, now, x, key, f) == [d] && b1.params == b.params
  {
    OnlySessionDelivers(b, now, x, key, until, f);
    SealedPacketExactly(b, now, x, key, iv, f, env);
    PreviousKeyAdmitsAgain(b, now, now, x, key, iv, f, env.send);
    MistakenExactly(b.params, key, iv, f.q, f.payload);
    StepKeepsParams(b, Datagram(now, x, SealFrame(key, iv, f.q, f.payload), env));
  }

  /** Under the previous key a packet is delivered each time it arrives. */
  lemma ArrivesTwice(b: Node, now: int, x: Addr, key: Bytes, until: int, iv: Iv, f: Parsed, env: UdpEnv)
    requires Shape(b) && Rekeyed(b, x, key, until) && now <= until && Deliveries(b.log) == []
    requires f.q < U64 && Proper(b.sessions[0], f.payload) && !Mistaken(b.params.psk, iv, f.payload)
    ensures var wire := SealFrame(key, iv, f.q, f.payload);
            var d := Delivered(0, b.sessions[0].pub, key, f.q, true, f.payload, ToTun);
            Deliveries(DatagramStep(DatagramStep(b, now, x, wire, env), now, x, wire, env).log) == [d, d]
  {
    var wire := SealFrame(key, iv, f.q, f.payload);
    ArrivesOnce(b, now, x, key, until, iv, f, env);
    SealedPacketExactly(DatagramStep(b, now, x, wire, env), now, x, key, iv, f, env);
  }

  /** At-most-once delivery ends with a key's time as the current one: a client reconnects, and a
      packet under the key that was replaced is delivered as often as it arrives. */
  lemma PreviousKeyDeliversTwice(b: Node, client: Secret, ec: Secret, x: Addr, iv: Iv, f: Parsed)
    returns (inputs: seq<Input>, d: Event)
    requires Initial(b) && FindPeer(b.params.peers, PubBytes(client)).Some?
    requires f.q < U64 && f.payload != [] && !Mistaken(b.params.psk, iv, f.payload)
    requires IsIpv4(f.payload) ==>
               AllowedSrc(b.params.peers[FindPeer(b.params.peers, PubBytes(client)).value].routes, SrcIp(f.payload))
    ensures Deliveries(Steps.Run(b, inputs).log) == [d, d]
  {
    var t, init, env := b.params.cooldown, InitFor(b, client, ec), AllWell(true);
    var i1, i2 := Datagram(0, x, init, env), Datagram(t, x, init, env);
    var b1 := Step(b, i1);
    var b2 := Step(b1, i2);
    var key := ConnectsTwice(b, b1, b2, client, ec, x);
    ArrivesTwice(b2, t, x, key, t + b.params.grace, iv, f, env);
    var i3 := Datagram(t, x, SealFrame(key, iv, f.q, f.payload), env);
    RunThree(b, b1, b2, [i1, i2, i3]);
    RunAppend(b, [i1, i2, i3], i3);
    inputs := [i1, i2, i3] + [i3];
    d := Delivered(0, b2.sessions[0].pub, key, f.q, true, f.payload, ToTun);
  }

  // ----- a first packet that is lost ----------------------------------------------------------

  lemma OtherConnects(b: Node, now: int, first: Secret, other: Secret, ec: Secret, x: Addr, y: Addr)
    requires Shape(b) && 1 <= |b.sessions| <= 2 && HeldBy(b, 0, first, x, 0) && NothingPending(b)
    requires if |b.sessions| == 1 then x != y else HeldBy(b, 1, other, y, 0) && now >= b.params.cooldown
    requires PubBytes(first) != PubBytes(other) && FindPeer(b.params.peers, PubBytes(other)).Some?
    ensures var z := if |b.sessions| == 1 then y else x;
            var b1 := DatagramStep(b, now, z, InitFor(b, other, ec), AllWell(true));
            && |b1.sessions| == 2 && b1.sessions[0] == b.sessions[0] && HeldBy(b1, 1, other, z, now)
            && Keyed(b1, 1, other, b.precomp, ec)
            && NothingPending(b1) && b1.params == b.params && Deliveries(b1.log) == Deliveries(b.log)
  {
    var z := if |b.sessions| == 1 then y else x;
    var r := Responds(b, other, ec);
    assert Alloc(b.sessions, PubBytes(other), z) == Some(1);
    Answers(b, now, z, InitFor(b, other, ec), AllWell(true), r);
    HandshakeDeliversNothing(b, now, z, InitFor(b, other, ec), AllWell(true));
  }

  /** One client connects, then another, and that one again from the first one's address. */
  lemma OtherMoves(b: Node, b1: Node, b2: Node, b3: Node, first: Secret, other: Secret, ec: Secret, x: Addr, y: Addr)
    requires Initial(b) && x != y && PubBytes(first) != PubBytes(other)
    requires FindPeer(b.params.peers, PubBytes(first)).Some? && FindPeer(b.params.peers, PubBytes(other)).Some?
    requires b1 == DatagramStep(b, 0, x, InitFor(b, first, ec), AllWell(true))
    requires b2 == DatagramStep(b1, 0, y, InitFor(b, other, ec), AllWell(true))
    requires b3 == DatagramStep(b2, b.params.cooldown, x, InitFor(b, other, ec), AllWell(true))
    ensures |b3.sessions| == 2 && HeldBy(b3, 0, first, x, 0) && HeldBy(b3, 1, other, x, b.params.cooldown)
    ensures Keyed(b3, 0, first, b.precomp, ec) && Keyed(b3, 1, other, b2.precomp, ec) && !b3.sessions[0].prevActive
    ensures Deliveries(b3.log) == []
  {
    FirstConnects(b, first, ec, x);
    assert InitFor(b, other, ec) == InitFor(b1, other, ec);
    OtherConnects(b1, 0, first, other, ec, x, y);
    assert InitFor(b, other, ec) == InitFor(b2, other, ec);
    OtherConnects(b2, b.params.cooldown, first, other, ec, x, y);
  }

  /** A packet under the other client's key is taken for the first one's and dropped. */
  lemma TakenForTheFirst(b: Node, now: int, first: Secret, other: Secret, e1: nat, e2: nat, ec: Secret, x: Addr,
                         iv: Iv, f: Parsed, env: UdpEnv)
    requires Shape(b) && |b.sessions| == 2 && HasAddr(b.sessions[0], x) && !b.sessions[0].prevActive && f.q < U64
    requires Keyed(b, 0, first, e1, ec) && Keyed(b, 1, other, e2, ec) && PubBytes(first) != PubBytes(other)
    ensures Deliveries(DatagramStep(b, now, x, SealFrame(b.sessions[1].key, iv, f.q, f.payload), env).log)
         == Deliveries(b.log)
  {
    ResponderKeysEqual(OwnStatic(b.params), OwnEph(b.params, e1), PubBytes(ec), PubBytes(first),
                       OwnEph(b.params, e2), PubBytes(ec), PubBytes(other));
    assert FindByAddr(b.sessions, x) == Some(0);
    SealedPacketExactly(b, now, x, b.sessions[1].key, iv, f, env);
  }

  /** The address condition on the first packet can fail: one peer connects from `x`, another from
      `y` and later from `x`. Packets from `x` are then taken for the first one's, and none of the
      other's is delivered. */
  lemma TwoSessionsAtOneAddress(b: Node, first: Secret, other: Secret, ec: Secret, x: Addr, y: Addr, iv: Iv, f: Parsed)
    returns (inputs: seq<Input>)
    requires Initial(b) && x != y && first != other && f.q < U64
    requires FindPeer(b.params.peers, PubBytes(first)).Some? && FindPeer(b.params.peers, PubBytes(other)).Some?
    ensures var r, t := Steps.Run(b, inputs), b.params.cooldown;
            && |r.sessions| == 2 && HeldBy(r, 0, first, x, 0) && HeldBy(r, 1, other, x, t)
            && var packet := Datagram(t, x, SealFrame(r.sessions[1].key, iv, f.q, f.payload), AllWell(true));
               Deliveries(Steps.Run(b, inputs + [packet]).log) == []
  {
    if PubBytes(first) == PubBytes(other) {
      PubBytesInjective(first, other);
    }
    var t, env := b.params.cooldown, AllWell(true);
    var i1, i2 := Datagram(0, x, InitFor(b, first, ec), env), Datagram(0, y, InitFor(b, other, ec), env);
    var i3 := Datagram(t, x, InitFor(b, other, ec), env);
    var b1 := Step(b, i1);
    var b2 := Step(b1, i2);
    var b3 := Step(b2, i3);
    OtherMoves(b, b1, b2, b3, first, other, ec, x, y);
    TakenForTheFirst(b3, t, first, other, b.precomp, b2.precomp, ec, x, iv, f, env);
    RunThree(b, b1, b2, [i1, i2, i3]);
    inputs := [i1, i2, i3];
    RunAppend(b, inputs, Datagram(t, x, SealFrame(b3.sessions[1].key, iv, f.q, f.payload), env));
  }
}
