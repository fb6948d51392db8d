/** Two nodes connect: an initiation, the answer and its reception leave both with a session under
    the same key, and the first packet goes through. */
module Connect {
  import opened Options
  import opened Crypto
  import opened Handshake
  import opened Framing
  import opened Replay
  import opened Tables
  import opened Routing
  import opened Steps
  import opened Invariants
  import opened Runs
  import opened LegalLogs
  import opened Guarantees
  import opened Upkeep
  import opened Transit

  /** Slot `k` holds a session with that peer, address and key that is new since `now`: nothing was sent
      or received yet, and the time of the handshake counts as that of a send. */
  ghost predicate NewSession(n: Node, k: nat, addr: Addr, pub: Bytes, key: Bytes, now: int) {
    && k < |n.sessions| && HasPub(n.sessions[k], pub)
    && n.sessions[k].addr == addr && n.sessions[k].key == key
    && n.sessions[k].lastHandshake == n.sessions[k].lastSent == now && n.sessions[k].lastSeen == 0
    && !n.sessions[k].rekeying
    && n.sessions[k].sendSeq == 0 && n.sessions[k].recvHighest == 0
    && n.sessions[k].recvWindow == ZeroWindow(WINDOW_WORDS)
  }

  /** Only that slot of the session table changed. */
  ghost predicate OnlySlot(ss: seq<Session>, tt: seq<Session>, k: nat) {
    k < |tt| && tt == if k < |ss| then ss[k := tt[k]] else ss + [tt[k]]
  }

  /** The session keeps the key it had as its previous one if it was active. */
  ghost predicate Supersedes(ss: seq<Session>, k: nat, s: Session, until: int) {
    && s.prevActive == (k < |ss| && ss[k].active)
    && (s.prevActive ==> s.prevKey == ss[k].key && s.prevExpires == until)
  }

  lemma InstallGivesSession(n: Node, addr: Addr, pub: Bytes, key: Bytes, cfg: nat, outbound: bool, now: int,
                            eph: nat, peerEph: Bytes)
    requires Shape(n) && cfg < |n.params.peers| && Alloc(n.sessions, pub, addr).Some?
    ensures var n' := Install(n, addr, pub, key, cfg, outbound, now, eph, peerEph);
            var k := Alloc(n.sessions, pub, addr).value;
            && NewSession(n', k, addr, pub, key, now) && OnlySlot(n.sessions, n'.sessions, k)
            && Supersedes(n.sessions, k, n'.sessions[k], now + n.params.grace)
            && n'.sessions[k].routes == n.params.peers[cfg].routes
            && n'.pending == n.pending && n'.precomp == n.precomp
            && n'.log == n.log + [Installed(k, addr, pub, key, cfg, outbound, now, eph, peerEph)]
  {
  }

  // ----- the responder ------------------------------------------------------------------------

  /** The last handshake with the address and with the key, if any, was long enough ago. */
  ghost predicate CooledDown(n: Node, addr: Addr, pub: Bytes, now: int) {
    && (FindByAddr(n.sessions, addr).Some? ==>
          now - n.sessions[FindByAddr(n.sessions, addr).value].lastHandshake >= n.params.cooldown)
    && (FindByPub(n.sessions, pub).Some? ==>
          now - n.sessions[FindByPub(n.sessions, pub).value].lastHandshake >= n.params.cooldown)
  }

  /** The initiation was answered and slot `k` holds the new session; the rest stays as it was. */
  ghost predicate Answered(n: Node, now: int, src: Addr, env: UdpEnv, r: Response, k: nat, n': Node) {
    && FindPeer(n.params.peers, r.clientPub).Some?
    && var cfg := FindPeer(n.params.peers, r.clientPub).value;
       && NewSession(n', k, src, r.clientPub, r.key, now) && OnlySlot(n.sessions, n'.sessions, k)
       && Supersedes(n.sessions, k, n'.sessions[k], now + n.params.grace)
       && n'.sessions[k].routes == n.params.peers[cfg].routes
       && n'.pending == n.pending && n'.params == n.params
       && n'.precomp == (if env.refreshOk then n.nextEph else n.precomp)
       && n'.log == n.log + [Replied(src, r.wire), Refreshed(env.refreshOk),
                             Installed(k, src, r.clientPub, r.key, cfg, false, now, n.precomp, r.clientEph)]
  }

  /** The state between the reply and the installation. */
  function Replying(n: Node, src: Addr, r: Response, refreshOk: bool): (n': Node)
    requires Shape(n)
    ensures Shape(n') && n'.sessions == n.sessions && n'.pending == n.pending && n'.params == n.params
    ensures n'.targets == n.targets && n'.lastCheck == n.lastCheck
    ensures n'.precomp == (if refreshOk then n.nextEph else n.precomp)
    ensures n'.log == n.log + [Replied(src, r.wire), Refreshed(refreshOk)]
  {
    Apply(Apply(n, Replied(src, r.wire)), Refreshed(refreshOk))
  }

  lemma AnswerInstalls(n: Node, now: int, src: Addr, wire: Bytes, env: UdpEnv, r: Response)
    requires Shape(n) && HandshakeShaped(n.params, wire) && FindPending(n.pending, src).None?
    requires ServerRespond(n.params.psk, OwnStatic(n.params), OwnEph(n.params, n.precomp), wire) == Some(r)
    requires FindPeer(n.params.peers, r.clientPub).Some? && CooledDown(n, src, r.clientPub, now)
    requires env.replyOk && env.keyOk
    ensures var cfg := FindPeer(n.params.peers, r.clientPub).value;
            var n1 := Replying(n, src, r, env.refreshOk);
            DatagramStep(n, now, src, wire, env) ==
            Install(n1, src, r.clientPub, r.key, cfg, false, now, n.precomp, r.clientEph)
  {
    assert DatagramStep(n, now, src, wire, env) == InboundStep(n, now, src, wire, env);
  }

  lemma Answers(n: Node, now: int, src: Addr, wire: Bytes, env: UdpEnv, r: Response)
    requires Shape(n) && HandshakeShaped(n.params, wire) && FindPending(n.pending, src).None?
    requires ServerRespond(n.params.psk, OwnStatic(n.params), OwnEph(n.params, n.precomp), wire) == Some(r)
    requires FindPeer(n.params.peers, r.clientPub).Some? && CooledDown(n, src, r.clientPub, now)
    requires env.replyOk && env.keyOk && Alloc(n.sessions, r.clientPub, src).Some?
    ensures Answered(n, now, src, env, r, Alloc(n.sessions, r.clientPub, src).value,
                     DatagramStep(n, now, src, wire, env))
  {
    var cfg := FindPeer(n.params.peers, r.clientPub).value;
    AnswerInstalls(n, now, src, wire, env, r);
    var n1 := Replying(n, src, r, env.refreshOk);
    InstallGivesSession(n1, src, r.clientPub, r.key, cfg, false, now, n.precomp, r.clientEph);
  }

  /** Whether a handshake from that address is answered at all, and whether its client is then admitted. */
  predicate Answerable(n: Node, now: int, src: Addr) {
    var s := FindByAddr(n.sessions, src);
    s.None? || now - n.sessions[s.value].lastHandshake >= n.params.cooldown
  }

  predicate Admissible(n: Node, now: int, pub: Bytes) {
    var s := FindByPub(n.sessions, pub);
    && (s.None? || now - n.sessions[s.value].lastHandshake >= n.params.cooldown)
    && exists c :: 0 <= c < |n.params.peers| && n.params.peers[c].pub == pub
  }

  /** The client is admitted if it is configured, its cooldown is over and there is room. */
  function AdmittedLog(n: Node, now: int, src: Addr, r: Response, eph: nat): Log
    requires Shape(n)
  {
    var slot := Alloc(n.sessions, r.clientPub, src);
    if !Admissible(n, now, r.clientPub) || slot.None? then []
    else
      var cfg := FindPeer(n.params.peers, r.clientPub).value;
      [Installed(slot.value, src, r.clientPub, r.key, cfg, false, now, eph, r.clientEph)]
  }

  lemma AdmitExactly(n: Node, now: int, src: Addr, r: Response, eph: nat)
    requires Shape(n)
    ensures var n' := AdmitStep(n, now, src, r, eph);
            && n'.log == n.log + AdmittedLog(n, now, src, r, eph)
            && n'.pending == n.pending && n'.targets == n.targets && n'.lastCheck == n.lastCheck
  {
  }

  /** What an inbound handshake adds to the log: a reply if the cooldown of the address is over and the
      message can be answered; then the refresh, if the key could be derived; and then the session, if
      the client is admitted. */
  lemma InboundExactly(n: Node, now: int, src: Addr, wire: Bytes, env: UdpEnv)
    requires Shape(n) && HandshakeShaped(n.params, wire) && FindPending(n.pending, src).None?
    ensures var n' := DatagramStep(n, now, src, wire, env);
            var r := ServerRespond(n.params.psk, OwnStatic(n.params), OwnEph(n.params, n.precomp), wire);
            && n'.pending == n.pending && n'.targets == n.targets && n'.lastCheck == n.lastCheck
            && if !Answerable(n, now, src) || r.None? || !env.replyOk then n' == n
               else if !env.keyOk then n'.log == n.log + [Replied(src, r.value.wire)]
               else
                 n'.log == n.log + ([Replied(src, r.value.wire), Refreshed(env.refreshOk)] +
                                    AdmittedLog(n, now, src, r.value, n.precomp))
  {
    var r := ServerRespond(n.params.psk, OwnStatic(n.params), OwnEph(n.params, n.precomp), wire);
    assert DatagramStep(n, now, src, wire, env) == InboundStep(n, now, src, wire, env);
    if Answerable(n, now, src) && r.Some? && env.replyOk && env.keyOk {
      var n1 := Replying(n, src, r.value, env.refreshOk);
      assert InboundStep(n, now, src, wire, env) == AdmitStep(n1, now, src, r.value, n.precomp);
      AdmitExactly(n1, now, src, r.value, n.precomp);
      var two := [Replied(src, r.value.wire), Refreshed(env.refreshOk)];
      LogAppends(n.log, two, AdmittedLog(n, now, src, r.value, n.precomp));
    }
  }

  // ----- the initiator ------------------------------------------------------------------------

  function Greeting(n: Node, c: nat): Bytes
    requires c < |n.params.peers|
  {
    var hs := ClientStart(OwnEph(n.params, n.nextEph), n.params.peers[c].pub);
    ClientInit(n.params.psk, hs, PubBytes(OwnStatic(n.params)))
  }

  lemma Greets(n: Node, c: nat, now: int, addr: Addr)
    requires Shape(n) && c < |n.params.peers| && FindFreeEntry(n.pending).Some?
    ensures var n' := Initiate(n, c, now, addr, true);
            var j := FindFreeEntry(n.pending).value;
            var hs := ClientStart(OwnEph(n.params, n.nextEph), n.params.peers[c].pub);
            && n'.pending == n.pending[j := Pending(true, c, now, n.nextEph, hs, addr)]
            && |n'.log| == |n.log| + 2 && n'.log[|n.log| + 1] == Greeted(j, c, now, n.nextEph, addr, Greeting(n, c))
  {
  }

  /** Entry `j` is free again, the session for its key is no longer marked, and the rest stays. */
  ghost predicate Ended(n: Node, j: nat, n': Node)
    requires j < |n.pending| && n.pending[j].cfg < |n.params.peers|
  {
    && n'.pending == n.pending[j := n.pending[j].(active := false)] && n'.targets == n.targets
    && n'.precomp == n.precomp && n'.nextEph == n.nextEph && n'.lastCheck == n.lastCheck
    && |n'.sessions| == |n.sessions|
    && var s := FindByPub(n.sessions, n.params.peers[n.pending[j].cfg].pub);
       forall k | 0 <= k < |n.sessions| ::
         n'.sessions[k] == n.sessions[k].(rekeying := n.sessions[k].rekeying && s != Some(k))
  }

  /** The state between the end of a pending handshake and the installation. */
  function Consuming(n: Node, j: nat): (n': Node)
    requires Shape(n) && j < MAX_PEERS && n.pending[j].active
    ensures Shape(n') && n'.params == n.params && n'.log == n.log + [Dropped(j)]
    ensures Ended(n, j, n')
  {
    Apply(n, Dropped(j))
  }

  lemma Completes(n: Node, now: int, src: Addr, wire: Bytes, env: UdpEnv, j: nat, key: Bytes)
    requires Shape(n) && HandshakeShaped(n.params, wire) && FindPending(n.pending, src) == Some(j)
    requires j < MAX_PEERS && env.clientOk
    requires var pub := n.params.peers[n.pending[j].cfg].pub;
             && ClientRecv(n.params.psk, OwnStatic(n.params), pub, n.pending[j].hs, wire) == Some(key)
             && Alloc(n.sessions, pub, src).Some?
    ensures var n', cfg := DatagramStep(n, now, src, wire, env), n.pending[j].cfg;
            var pub := n.params.peers[cfg].pub;
            var k := Alloc(n.sessions, pub, src).value;
            && NewSession(n', k, src, pub, key, now) && n'.sessions[k].routes == n.params.peers[cfg].routes
            && Supersedes(n.sessions, k, n'.sessions[k], now + n.params.grace)
            && n'.pending == n.pending[j := n.pending[j].(active := false)]
            && n'.log == n.log + [Dropped(j),
                                  Installed(k, src, pub, key, cfg, true, now, n.pending[j].eph, EphOf(wire))]
  {
    var p := n.pending[j];
    var pub := n.params.peers[p.cfg].pub;
    var n1 := Consuming(n, j);
    AllocUnmarked(n.sessions, n1.sessions, pub, src);
    InstallGivesSession(n1, src, pub, key, p.cfg, true, now, p.eph, EphOf(wire));
    assert DatagramStep(n, now, src, wire, env) == Install(n1, src, pub, key, p.cfg, true, now, p.eph, EphOf(wire));
  }

  /** An answer that is not accepted ends the handshake all the same: the entry is free, the session for
      the peer's key is no longer marked as rekeying, and nothing else changes. */
  lemma BadAnswerEnds(n: Node, now: int, src: Addr, wire: Bytes, env: UdpEnv, j: nat)
    requires Shape(n) && HandshakeShaped(n.params, wire) && FindPending(n.pending, src) == Some(j) && j < MAX_PEERS
    requires var pub := n.params.peers[n.pending[j].cfg].pub;
             !env.clientOk || ClientRecv(n.params.psk, OwnStatic(n.params), pub, n.pending[j].hs, wire).None?
    ensures var n' := DatagramStep(n, now, src, wire, env);
            Ended(n, j, n') && n'.params == n.params && n'.log == n.log + [Dropped(j)]
  {
    assert DatagramStep(n, now, src, wire, env) == Consuming(n, j);
  }

  /** The slot for a key does not depend on rekeying marks. */
  lemma AllocUnmarked(ss: seq<Session>, tt: seq<Session>, pub: Bytes, addr: Addr)
    requires |ss| == |tt| <= MAX_PEERS
    requires forall k | 0 <= k < |ss| ::
               ss[k].active == tt[k].active && ss[k].pub == tt[k].pub && ss[k].addr == tt[k].addr
    ensures Alloc(ss, pub, addr) == Alloc(tt, pub, addr)
  {
    FindSame(ss, tt, pub, addr, 0);
  }

  // ----- a new session ------------------------------------------------------------------------

  /** A session that is new since `t` stays through a tick exactly until the expiry counted from `t`, and
      gets its first keepalive exactly from the keepalive interval after `t` on. */
  lemma NewSessionLasts(n: Node, k: nat, addr: Addr, pub: Bytes, key: Bytes, t: int, now: int, env: TickEnv)
    requires Shape(n) && NewSession(n, k, addr, pub, key, t) && now - n.lastCheck >= 10
    ensures var n' := TickStep(n, now, env);
            && |n'.sessions| == |n.sessions|
            && (n'.sessions[k].active <==> now - t <= n.params.expiry)
            && n'.sessions[k].sendSeq == if now - t <= n.params.expiry && now - t >= n.params.keepalive then 1 else 0
  {
    TickOnSession(n, now, env, k);
  }

  // ----- both ---------------------------------------------------------------------------------

  /** What a message of ours looks like to a node with the same PSK setting. */
  lemma MessageIsShaped(p: Params, ephPub: Bytes, sealed: Bytes)
    requires |ephPub| == KEY_LEN && |sealed| == SEALED_PUB_LEN
    ensures HandshakeShaped(p, Message(p.psk, ephPub, sealed))
  {
    MessageParts(p.psk, ephPub, sealed);
  }

  /** Both nodes have the other configured and the same PSK setting, nothing is pending between
      them, the responder's cooldown is over, there is room, and no call will fail. */
  ghost predicate CanConnect(a: Node, b: Node, c: nat, atA: Addr, atB: Addr, t1: int, envB: UdpEnv, envA: UdpEnv) {
    && a.params.psk == b.params.psk && c < |a.params.peers|
    && a.params.peers[c].pub == PubOf(b)
    && FindPeer(b.params.peers, PubOf(a)).Some?
    && FindFreeEntry(a.pending).Some? && FindPending(a.pending, atB).None? && FindPending(b.pending, atA).None?
    && CooledDown(b, atA, PubOf(a), t1)
    && |a.sessions| <= MAX_PEERS && Alloc(a.sessions, PubOf(b), atB).Some?
    && |b.sessions| <= MAX_PEERS && Alloc(b.sessions, PubOf(a), atA).Some?
    && envB.replyOk && envB.keyOk && envA.clientOk
  }

  function PubOf(n: Node): Bytes {
    PubBytes(OwnStatic(n.params))
  }

  /** If the initiation and the answer arrive, both nodes end up with a session under one key, each
      with the other's public key and address. */
  lemma TwoNodesConnect(a: Node, b: Node, c: nat, atA: Addr, atB: Addr, t0: int, t1: int, t2: int,
                        envB: UdpEnv, envA: UdpEnv) returns (key: Bytes)
    requires Shape(a) && Shape(b) && CanConnect(a, b, c, atA, atB, t1, envB, envA)
    ensures var a1 := Initiate(a, c, t0, atB, true);
            && |a1.log| == |a.log| + 2 && a1.log[|a.log| + 1].Greeted? && a1.log[|a.log| + 1].dst == atB
            && var b1 := DatagramStep(b, t1, atA, a1.log[|a.log| + 1].wire, envB);
               && |b1.log| > |b.log| && b1.log[|b.log|].Replied? && b1.log[|b.log|].dst == atA
               && var a2 := DatagramStep(a1, t2, atB, b1.log[|b.log|].wire, envA);
                  var k := Alloc(b.sessions, PubOf(a), atA).value;
                  && NewSession(a2, Alloc(a.sessions, PubOf(b), atB).value, atB, PubOf(b), key, t2)
                  && NewSession(b1, k, atA, PubOf(a), key, t1) && OnlySlot(b.sessions, b1.sessions, k)
                  && b1.sessions[k].routes == b.params.peers[FindPeer(b.params.peers, PubOf(a)).value].routes
                  && b1.params == b.params
  {
    var client, server := OwnStatic(a.params), OwnStatic(b.params);
    var ec, es := OwnEph(a.params, a.nextEph), OwnEph(b.params, b.precomp);
    var st := ClientStart(ec, PubBytes(server));
    var init := Greeting(a, c);
    HandshakeAgreement(a.params.psk, client, server, ec, es);
    var r := ServerRespond(b.params.psk, server, es, init).value;
    Greets(a, c, t0, atB);
    var a1 := Initiate(a, c, t0, atB, true);
    MessageIsShaped(b.params, st.ephPub, SealIdentity(st.ecdhEcSs, PubBytes(client)));
    Answers(b, t1, atA, init, envB, r);
    var j := FindFreeEntry(a.pending).value;
    FindsOnlyPending(a.pending, atB, j, a1.pending[j]);
    ReplyIsShaped(a.params, server, es, init);
    Completes(a1, t2, atB, r.wire, envA, j, r.key);
    key := r.key;
  }

  lemma ReplyIsShaped(p: Params, static_: Secret, eph: Secret, init: Bytes)
    requires ServerRespond(p.psk, static_, eph, init).Some?
    ensures HandshakeShaped(p, ServerRespond(p.psk, static_, eph, init).value.wire)
  {
    MessageIsShaped(p, PubBytes(eph), SealIdentity(SharedSecret(eph, EphOf(init)), PubBytes(static_)));
  }

  lemma FindsOnlyPending(ps: seq<Pending>, addr: Addr, j: nat, p: Pending)
    requires j < |ps| && FindPending(ps, addr).None? && PendingFrom(p, addr)
    ensures FindPending(ps[j := p], addr) == Some(j)
  {
    var qs := ps[j := p];
    assert qs[j] == p;
    assert forall k | 0 <= k < |ps| && k != j :: qs[k] == ps[k];
  }

  // ----- the first packet ---------------------------------------------------------------------

  /** The first number of a new session is 0, and its peer's window takes it. */
  lemma FirstNumberIsWelcome()
    ensures CheckReplay(0, 0, ZeroWindow(WINDOW_WORDS)).ok
  {
    AcceptsExactlyNewInWindow([], 0);
  }

  /** The session that packets from the address are taken for is the new one exactly if no slot
      before it was at that address. */
  lemma AddressLeadsToSlot(ss: seq<Session>, tt: seq<Session>, pub: Bytes, addr: Addr, k: nat)
    requires |ss| <= MAX_PEERS && Alloc(ss, pub, addr) == Some(k) && OnlySlot(ss, tt, k) && HasAddr(tt[k], addr)
    ensures FindByAddr(tt, addr) == Some(k) <==> forall j | 0 <= j < k :: !HasAddr(ss[j], addr)
    ensures FindByAddr(tt, addr).Some? && FindByAddr(tt, addr).value <= k
  {
    assert forall j | 0 <= j < k :: tt[j] == ss[j];
  }

  /** No other session holds, or held just before, a key that is installed once. */
  lemma KeyIsNowhereElse(n: Node, k: nat, slot: nat)
    requires HealthOf(n).Sound? && EachKeyOnce(n.log)
    requires k < |n.sessions| && slot < |n.sessions| && k != slot && n.sessions[k].active && n.sessions[slot].active
    ensures n.sessions[slot].key != n.sessions[k].key
    ensures n.sessions[slot].prevActive ==> n.sessions[slot].prevKey != n.sessions[k].key
  {
    SlotAgrees(n, k);
    SlotAgrees(n, slot);
    ViewRemembers(n.log, k);
    ViewRemembers(n.log, slot);
    PrevRemembers(n.log, slot);
  }

  /** No slot before the new one was at the initiator's address, the source is allowed and the
      packet is not mistaken for a handshake. */
  ghost predicate GoesIn(b: Node, atA: Addr, pubA: Bytes, k: nat, iv: Iv, packet: seq<Byte>)
    requires IsIpv4(packet) && k <= |b.sessions| && FindPeer(b.params.peers, pubA).Some?
  {
    && (forall j | 0 <= j < k :: !HasAddr(b.sessions[j], atA))
    && AllowedSrc(b.params.peers[FindPeer(b.params.peers, pubA).value].routes, SrcIp(packet))
    && !Mistaken(b.params.psk, iv, packet)
  }

  /** The responder's new session after a handshake, and what it was before. */
  ghost predicate Installation(b: Node, b1: Node, atA: Addr, pubA: Bytes, key: Bytes, k: nat) {
    && |b.sessions| <= MAX_PEERS && b1.params == b.params
    && Alloc(b.sessions, pubA, atA) == Some(k) && OnlySlot(b.sessions, b1.sessions, k)
    && NewSession(b1, k, atA, pubA, key, b1.sessions[k].lastHandshake) && FindPeer(b.params.peers, pubA).Some?
    && b1.sessions[k].routes == b.params.peers[FindPeer(b.params.peers, pubA).value].routes
  }

  /** At the new session itself. */
  lemma NewSessionTakes(b: Node, b1: Node, now: int, atA: Addr, pubA: Bytes, key: Bytes, k: nat, packet: seq<Byte>)
    requires Shape(b1) && Installation(b, b1, atA, pubA, key, k) && FindByAddr(b1.sessions, atA) == Some(k)
    requires IsIpv4(packet)
    ensures DeliveryOf(b1, now, atA, key, Parsed(0, packet)) ==
            if AllowedSrc(b.params.peers[FindPeer(b.params.peers, pubA).value].routes, SrcIp(packet)) then
              [Delivered(k, pubA, key, 0, false, packet, Outlet(b1.sessions, k, packet))]
            else []
  {
    FirstNumberIsWelcome();
  }

  /** At a session that is in its way. */
  lemma OtherSessionDrops(n: Node, now: int, src: Addr, k: nat, f: Parsed)
    requires Shape(n) && HealthOf(n).Sound? && EachKeyOnce(n.log) && k < |n.sessions| && n.sessions[k].active
    requires FindByAddr(n.sessions, src).Some? && FindByAddr(n.sessions, src).value != k
    ensures DeliveryOf(n, now, src, n.sessions[k].key, f) == []
  {
    KeyIsNowhereElse(n, k, FindByAddr(n.sessions, src).value);
  }

  /** What the responder does with the first packet under a new key. */
  lemma FirstPacketExactly(b: Node, b1: Node, atA: Addr, pubA: Bytes, key: Bytes, k: nat, packet: seq<Byte>, iv: Iv,
                           now: int, env: UdpEnv)
    requires Shape(b1) && HealthOf(b1).Sound? && EachKeyOnce(b1.log) && Installation(b, b1, atA, pubA, key, k)
    requires IsIpv4(packet)
    ensures Deliveries(DatagramStep(b1, now, atA, SealFrame(key, iv, 0, packet), env).log) == Deliveries(b1.log) +
            if GoesIn(b, atA, pubA, k, iv, packet) then
              [Delivered(k, pubA, key, 0, false, packet, Outlet(b1.sessions, k, packet))]
            else []
  {
    SealedPacketExactly(b1, now, atA, key, iv, Parsed(0, packet), env);
    AddressLeadsToSlot(b.sessions, b1.sessions, pubA, atA, k);
    if FindByAddr(b1.sessions, atA) == Some(k) {
      NewSessionTakes(b, b1, now, atA, pubA, key, k, packet);
    } else {
      OtherSessionDrops(b1, now, atA, k, Parsed(0, packet));
    }
  }

  /** The two nodes after the initiation and the answer have arrived. */
  ghost predicate Connected(a: Node, b: Node, c: nat, atA: Addr, atB: Addr, t0: int, t1: int, t2: int,
                            envB: UdpEnv, envA: UdpEnv, b1: Node, a2: Node)
    requires Shape(a) && Shape(b) && c < |a.params.peers|
  {
    && b1 == DatagramStep(b, t1, atA, Greeting(a, c), envB)
    && |b1.log| > |b.log| && b1.log[|b.log|].Replied?
    && a2 == DatagramStep(Initiate(a, c, t0, atB, true), t2, atB, b1.log[|b.log|].wire, envA)
  }

  lemma ConnectedSessions(a: Node, b: Node, c: nat, atA: Addr, atB: Addr, t0: int, t1: int, t2: int,
                          envB: UdpEnv, envA: UdpEnv, b1: Node, a2: Node) returns (key: Bytes)
    requires Shape(a) && Shape(b) && CanConnect(a, b, c, atA, atB, t1, envB, envA)
    requires Connected(a, b, c, atA, atB, t0, t1, t2, envB, envA, b1, a2)
    ensures NewSession(a2, Alloc(a.sessions, PubOf(b), atB).value, atB, PubOf(b), key, t2)
    ensures Installation(b, b1, atA, PubOf(a), key, Alloc(b.sessions, PubOf(a), atA).value)
  {
    Greets(a, c, t0, atB);
    key := TwoNodesConnect(a, b, c, atA, atB, t0, t1, t2, envB, envA);
  }

  /** Two reachable nodes connect and the initiator routes a packet to the new session. If it is sent
      and arrives, it is delivered at the responder, once and unchanged, if and only if it goes in. */
  lemma FirstPacketAfterConnecting(a: Node, b: Node, c: nat, atA: Addr, atB: Addr, t0: int, t1: int, t2: int,
                                   envB: UdpEnv, envA: UdpEnv, b1: Node, a2: Node,
                                   packet: seq<Byte>, ch: SendChoice, t3: int, t4: int, env: UdpEnv)
    returns (key: Bytes)
    requires Shape(a) && Shape(b) && HealthOf(b).Sound? && CanConnect(a, b, c, atA, atB, t1, envB, envA)
    requires Connected(a, b, c, atA, atB, t0, t1, t2, envB, envA, b1, a2) && EachKeyOnce(b1.log)
    requires IsIpv4(packet) && RouteLookup(a2.sessions, DstIp(packet)) == Some(Alloc(a.sessions, PubOf(b), atB).value)
    ensures var h, k := TunStep(a2, t3, packet, ch).log, Alloc(b.sessions, PubOf(a), atA).value;
            && |h| == |a2.log| + 1 && h[|a2.log|].Sent? && h[|a2.log|].dst == atB
            && Deliveries(DatagramStep(b1, t4, atA, h[|a2.log|].wire, env).log) == Deliveries(b1.log) +
               if GoesIn(b, atA, PubOf(a), k, ch.iv, packet) then
                 [Delivered(k, PubOf(a), key, 0, false, packet, Outlet(b1.sessions, k, packet))]
               else []
  {
    key := ConnectedSessions(a, b, c, atA, atB, t0, t1, t2, envB, envA, b1, a2);
    TunSends(a2, t3, packet, ch, Alloc(a.sessions, PubOf(b), atB).value);
    ResponderIsHealthy(b, t1, atA, Greeting(a, c), envB);
    FirstPacketExactly(b, b1, atA, PubOf(a), key, Alloc(b.sessions, PubOf(a), atA).value, packet, ch.iv, t4, env);
  }

  lemma ResponderIsHealthy(b: Node, now: int, src: Addr, wire: Bytes, env: UdpEnv)
    requires Shape(b) && HealthOf(b).Sound?
    ensures HealthOf(DatagramStep(b, now, src, wire, env)).Sound?
  {
    StepKeepsInv(b, Datagram(now, src, wire, env));
  }
}
