/** The handshake messages of src/common.c: the initiation, the response and the session key. */
module Handshake {
  import opened Options
  import opened Crypto

  const HEADER_SIZE := 8
  const HEADER: seq<Byte> := [0xde, 0xad, 0xbe, 0xef, 0xca, 0xfe, 0xba, 0xbe]

  /** Both messages: [8 magic][32 ephemeral][48 sealed static key][32 HMAC, with a PSK]. */
  const HS_LEN := HEADER_SIZE + KEY_LEN + SEALED_PUB_LEN

  function HsSize(psk: Option<Bytes>): nat {
    HS_LEN + if psk.Some? then KEY_LEN else 0
  }

  /** What the initiator keeps between its two phases. */
  datatype ClientState = ClientState(eph: Secret, ephPub: Bytes, ecdhEcSs: Bytes)

  datatype Response = Response(clientPub: Bytes, clientEph: Bytes, key: Bytes, wire: Bytes)

  function Message(psk: Option<Bytes>, ephPub: Bytes, sealed: Bytes): (wire: Bytes)
    requires |ephPub| == KEY_LEN && |sealed| == SEALED_PUB_LEN
    ensures |wire| == HsSize(psk)
  {
    var body := ephPub + sealed;
    Lits(HEADER) + body + if psk.Some? then HmacSha256(psk.value, body) else []
  }

  /** The checks that both receivers make first: length, magic and, with a PSK, the HMAC. */
  predicate WellFormed(psk: Option<Bytes>, wire: Bytes) {
    && |wire| == HsSize(psk)
    && wire[..HEADER_SIZE] == Lits(HEADER)
    && (psk.Some? ==> wire[HS_LEN..] == HmacSha256(psk.value, wire[HEADER_SIZE..HS_LEN]))
  }

  function EphOf(wire: Bytes): (bs: Bytes)
    requires |wire| >= HS_LEN
    ensures |bs| == KEY_LEN
  {
    wire[HEADER_SIZE..HEADER_SIZE + KEY_LEN]
  }

  function SealedOf(wire: Bytes): (bs: Bytes)
    requires |wire| >= HS_LEN
    ensures |bs| == SEALED_PUB_LEN
  {
    wire[HEADER_SIZE + KEY_LEN..HS_LEN]
  }

  /** derive_session_key: the hash of three shared secrets and four public keys. */
  function SessionKey(dhEph: Bytes, dhScEs: Bytes, dhEcSs: Bytes,
                      clientEph: Bytes, serverEph: Bytes, clientPub: Bytes, serverPub: Bytes): (key: Bytes)
    ensures |key| == KEY_LEN
  {
    Sha256(dhEph + dhScEs + dhEcSs + clientEph + serverEph + clientPub + serverPub)
  }

  /** The key that a responder derives for a client with these public keys. */
  function ResponderKey(static_: Secret, eph: Secret, clientEph: Bytes, clientPub: Bytes): Bytes {
    SessionKey(SharedSecret(eph, clientEph), SharedSecret(eph, clientPub), SharedSecret(static_, clientEph),
               clientEph, PubBytes(eph), clientPub, PubBytes(static_))
  }

  /** The key that an initiator derives for a server with these public keys. */
  function InitiatorKey(static_: Secret, eph: Secret, serverEph: Bytes, serverPub: Bytes): Bytes {
    SessionKey(SharedSecret(eph, serverEph), SharedSecret(static_, serverEph), SharedSecret(eph, serverPub),
               PubBytes(eph), serverEph, PubBytes(static_), serverPub)
  }

  /** The i-th 32-byte field that was hashed into a session key. */
  function KeyField(key: Bytes, i: nat): (field: Bytes)
    requires i < 7
  {
    match Whole(key)
    case Some(Sha(input)) => if |input| == 7 * KEY_LEN then input[KEY_LEN * i..KEY_LEN * (i + 1)] else []
    case _ => []
  }

  /** The public key sealed in a message, whoever it is sealed for. */
  function IdentityIn(wire: Bytes): Option<Bytes> {
    if |wire| < HS_LEN then None
    else
      match Whole(SealedOf(wire))
      case Some(SealId(_, plain)) => Some(plain)
      case _ => None
  }

  // ----- the three functions ------------------------------------------------------------------

  /** handshake_client_send with the ephemeral key it generated. */
  function ClientStart(eph: Secret, serverPub: Bytes): ClientState {
    ClientState(eph, PubBytes(eph), SharedSecret(eph, serverPub))
  }

  function ClientInit(psk: Option<Bytes>, st: ClientState, staticPub: Bytes): (wire: Bytes)
    requires |st.ephPub| == KEY_LEN
    ensures |wire| == HsSize(psk)
  {
    Message(psk, st.ephPub, SealIdentity(st.ecdhEcSs, staticPub))
  }

  /** handshake_server_respond. */
  function ServerRespond(psk: Option<Bytes>, static_: Secret, eph: Secret, wire: Bytes): (r: Option<Response>)
    ensures r.Some? ==> |r.value.key| == KEY_LEN && |r.value.wire| == HsSize(psk) && |r.value.clientEph| == KEY_LEN
  {
    if !WellFormed(psk, wire) then None
    else
      var clientEph := EphOf(wire);
      var dhEcSs := SharedSecret(static_, clientEph);
      match OpenIdentity(dhEcSs, SealedOf(wire))
      case None => None
      case Some(clientPub) =>
        var dhEph := SharedSecret(eph, clientEph);
        var reply := Message(psk, PubBytes(eph), SealIdentity(dhEph, PubBytes(static_)));
        var dhScEs := SharedSecret(eph, clientPub);
        Some(Response(clientPub, clientEph,
                      SessionKey(dhEph, dhScEs, dhEcSs, clientEph, PubBytes(eph), clientPub, PubBytes(static_)),
                      reply))
  }

  /** handshake_client_recv. */
  function ClientRecv(psk: Option<Bytes>, static_: Secret, serverPub: Bytes, st: ClientState, wire: Bytes)
    : (key: Option<Bytes>)
    ensures key.Some? ==> |key.value| == KEY_LEN && |wire| == HsSize(psk)
  {
    if !WellFormed(psk, wire) then None
    else
      var serverEph := EphOf(wire);
      var dhEph := SharedSecret(st.eph, serverEph);
      if OpenIdentity(dhEph, SealedOf(wire)) != Some(serverPub) then None
      else
        var dhScEs := SharedSecret(static_, serverEph);
        Some(SessionKey(dhEph, dhScEs, st.ecdhEcSs, st.ephPub, serverEph, PubBytes(static_), serverPub))
  }

  // ----- messages -----------------------------------------------------------------------------

  lemma MessageParts(psk: Option<Bytes>, ephPub: Bytes, sealed: Bytes)
    requires |ephPub| == KEY_LEN && |sealed| == SEALED_PUB_LEN
    ensures var wire := Message(psk, ephPub, sealed);
            && EphOf(wire) == ephPub && SealedOf(wire) == sealed
            && wire[..HEADER_SIZE] == Lits(HEADER)
            && wire[HEADER_SIZE..HS_LEN] == ephPub + sealed
            && wire[HS_LEN..] == if psk.Some? then HmacSha256(psk.value, ephPub + sealed) else []
  {
  }

  lemma MessageIdentity(psk: Option<Bytes>, ephPub: Bytes, material: Bytes, pub: Bytes)
    requires |ephPub| == KEY_LEN
    ensures IdentityIn(Message(psk, ephPub, SealIdentity(material, pub))) == Some(pub)
  {
    MessageParts(psk, ephPub, SealIdentity(material, pub));
    WholeSpell(SealId(Sha256(material), pub), SEALED_PUB_LEN);
  }

  /** A data packet seals no identity: its ciphertext covers that field. */
  lemma PacketHasNoIdentity(key: Bytes, wire: Bytes)
    requires OpenPacket(key, wire).Some?
    ensures IdentityIn(wire).None?
  {
  }

  /** No handshake message opens as a data packet: where the ciphertext of a packet would start it
      has bytes of the ephemeral key. */
  lemma MessageIsNoPacket(psk: Option<Bytes>, eph: Secret, sealed: Bytes, key: Bytes)
    requires |sealed| == SEALED_PUB_LEN
    ensures OpenPacket(key, Message(psk, PubBytes(eph), sealed)).None?
  {
  }

  /** A message is accepted by exactly the receivers that hold the same PSK, or hold none when it
      was built without one. */
  lemma MessageAccepted(psk: Option<Bytes>, other: Option<Bytes>, ephPub: Bytes, sealed: Bytes)
    requires |ephPub| == KEY_LEN && |sealed| == SEALED_PUB_LEN
    ensures WellFormed(other, Message(psk, ephPub, sealed)) <==> other == psk
  {
    MessageParts(psk, ephPub, sealed);
    var body := ephPub + sealed;
    if psk.Some? && other.Some? && HmacSha256(psk.value, body) == HmacSha256(other.value, body) {
      SpellInjective(Hmac(psk.value, body), Hmac(other.value, body), KEY_LEN);
    }
  }

  /** A PSK on one side only always fails, on the length: 88 bytes against 120. */
  lemma OneSidedPskFails(key: Bytes, wire: Bytes)
    ensures HsSize(None) == 88 && HsSize(Some(key)) == 120
    ensures !(WellFormed(None, wire) && WellFormed(Some(key), wire))
  {
  }

  // ----- agreement ----------------------------------------------------------------------------

  /** A responder answers an honest initiation exactly when it holds the initiator's PSK setting
      and the static key the initiation was meant for; it then learns the initiator's key. */
  lemma RespondsExactlyToItsInitiators(psk: Option<Bytes>, otherPsk: Option<Bytes>, client: Secret,
                                       server: Secret, other: Secret, ec: Secret, es: Secret)
    ensures var init := ClientInit(psk, ClientStart(ec, PubBytes(server)), PubBytes(client));
            var r := ServerRespond(otherPsk, other, es, init);
            && (r.Some? <==> otherPsk == psk && other == server)
            && (r.Some? ==> r.value.clientPub == PubBytes(client) && r.value.clientEph == PubBytes(ec))
  {
    var st := ClientStart(ec, PubBytes(server));
    var sealed := SealIdentity(st.ecdhEcSs, PubBytes(client));
    MessageParts(psk, st.ephPub, sealed);
    MessageAccepted(psk, otherPsk, st.ephPub, sealed);
    SharedSecretCommutes(ec, server);
    IdentityRoundTrip(st.ecdhEcSs, SharedSecret(other, st.ephPub), PubBytes(client));
    if SharedSecret(other, st.ephPub) == SharedSecret(server, st.ephPub) {
      SharedSecretSeparates(other, server, st.ephPub);
    }
  }

  /** Agreement: responding to an honest initiation and receiving the reply both succeed, the
      responder learns the initiator's static key and both derive the same session key. */
  lemma HandshakeAgreement(psk: Option<Bytes>, client: Secret, server: Secret, ec: Secret, es: Secret)
    ensures var st := ClientStart(ec, PubBytes(server));
            var r := ServerRespond(psk, server, es, ClientInit(psk, st, PubBytes(client)));
            && r.Some?
            && r.value.clientPub == PubBytes(client)
            && ClientRecv(psk, client, PubBytes(server), st, r.value.wire) == Some(r.value.key)
  {
    var st := ClientStart(ec, PubBytes(server));
    RespondsExactlyToItsInitiators(psk, psk, client, server, server, ec, es);
    MessageParts(psk, st.ephPub, SealIdentity(st.ecdhEcSs, PubBytes(client)));
    var dhEph := SharedSecret(es, st.ephPub);
    var sealed := SealIdentity(dhEph, PubBytes(server));
    MessageParts(psk, PubBytes(es), sealed);
    MessageAccepted(psk, psk, PubBytes(es), sealed);
    SharedSecretCommutes(ec, es);
    SharedSecretCommutes(ec, server);
    SharedSecretCommutes(client, es);
    IdentityRoundTrip(dhEph, SharedSecret(ec, PubBytes(es)), PubBytes(server));
  }

  // ----- what a session key determines --------------------------------------------------------

  lemma SessionKeyFields(dhEph: Bytes, dhScEs: Bytes, dhEcSs: Bytes,
                         clientEph: Bytes, serverEph: Bytes, clientPub: Bytes, serverPub: Bytes)
    requires |dhEph| == KEY_LEN && |dhScEs| == KEY_LEN && |dhEcSs| == KEY_LEN
    requires |clientEph| == KEY_LEN && |serverEph| == KEY_LEN && |clientPub| == KEY_LEN && |serverPub| == KEY_LEN
    ensures var key := SessionKey(dhEph, dhScEs, dhEcSs, clientEph, serverEph, clientPub, serverPub);
            && KeyField(key, 0) == dhEph && KeyField(key, 1) == dhScEs && KeyField(key, 2) == dhEcSs
            && KeyField(key, 3) == clientEph && KeyField(key, 4) == serverEph
            && KeyField(key, 5) == clientPub && KeyField(key, 6) == serverPub
  {
    var input := dhEph + dhScEs + dhEcSs + clientEph + serverEph + clientPub + serverPub;
    WholeSpell(Sha(input), KEY_LEN);
    assert |input| == 7 * KEY_LEN;
    assert input[..KEY_LEN] == dhEph && input[KEY_LEN..2 * KEY_LEN] == dhScEs;
    assert input[2 * KEY_LEN..3 * KEY_LEN] == dhEcSs;
    assert input[3 * KEY_LEN..4 * KEY_LEN] == clientEph && input[4 * KEY_LEN..5 * KEY_LEN] == serverEph;
    assert input[5 * KEY_LEN..6 * KEY_LEN] == clientPub && input[6 * KEY_LEN..] == serverPub;
  }

  /** The key a responder derives: its three secrets with the client, and then both sides' keys, the
      client's first. */
  lemma ResponderKeyFields(psk: Option<Bytes>, static_: Secret, eph: Secret, wire: Bytes)
    requires ServerRespond(psk, static_, eph, wire).Some?
    ensures var r := ServerRespond(psk, static_, eph, wire).value;
            && KeyField(r.key, 0) == SharedSecret(eph, EphOf(wire))
            && KeyField(r.key, 1) == SharedSecret(eph, r.clientPub)
            && KeyField(r.key, 2) == SharedSecret(static_, EphOf(wire))
            && KeyField(r.key, 3) == EphOf(wire) && KeyField(r.key, 4) == PubBytes(eph)
            && KeyField(r.key, 5) == r.clientPub && KeyField(r.key, 6) == PubBytes(static_)
  {
    var r := ServerRespond(psk, static_, eph, wire).value;
    var clientEph := EphOf(wire);
    SessionKeyFields(SharedSecret(eph, clientEph), SharedSecret(eph, r.clientPub), SharedSecret(static_, clientEph),
                     clientEph, PubBytes(eph), r.clientPub, PubBytes(static_));
  }

  lemma InitiatorKeyFields(psk: Option<Bytes>, static_: Secret, serverPub: Bytes, st: ClientState, wire: Bytes)
    requires |serverPub| == KEY_LEN && |st.ephPub| == KEY_LEN && |st.ecdhEcSs| == KEY_LEN
    requires ClientRecv(psk, static_, serverPub, st, wire).Some?
    ensures var key := ClientRecv(psk, static_, serverPub, st, wire).value;
            && KeyField(key, 0) == SharedSecret(st.eph, EphOf(wire))
            && KeyField(key, 1) == SharedSecret(static_, EphOf(wire))
            && KeyField(key, 2) == st.ecdhEcSs
            && KeyField(key, 3) == st.ephPub && KeyField(key, 4) == EphOf(wire)
            && KeyField(key, 5) == PubBytes(static_) && KeyField(key, 6) == serverPub
  {
    var serverEph := EphOf(wire);
    SessionKeyFields(SharedSecret(st.eph, serverEph), SharedSecret(static_, serverEph), st.ecdhEcSs,
                     st.ephPub, serverEph, PubBytes(static_), serverPub);
  }

  /** The key of a handshake between honest parties: three secrets - of the two ephemerals, of the
      client's static key with the server's ephemeral, and of the client's ephemeral with the
      server's static key - and then the four public keys. */
  ghost predicate Combines(key: Bytes, client: Secret, server: Secret, ec: Secret, es: Secret) {
    && KeyField(key, 0) == Spell(Dh({ec, es}), 32)
    && KeyField(key, 1) == Spell(Dh({client, es}), 32)
    && KeyField(key, 2) == Spell(Dh({ec, server}), 32)
    && KeyField(key, 3) == Spell(Pub(ec), 32) && KeyField(key, 4) == Spell(Pub(es), 32)
    && KeyField(key, 5) == Spell(Pub(client), 32) && KeyField(key, 6) == Spell(Pub(server), 32)
  }

  /** Both sides hold that key. */
  lemma HonestKey(psk: Option<Bytes>, client: Secret, server: Secret, ec: Secret, es: Secret)
    ensures var st := ClientStart(ec, PubBytes(server));
            var r := ServerRespond(psk, server, es, ClientInit(psk, st, PubBytes(client)));
            && r.Some? && Combines(r.value.key, client, server, ec, es)
            && var key := ClientRecv(psk, client, PubBytes(server), st, r.value.wire);
               key.Some? && Combines(key.value, client, server, ec, es)
  {
    var st := ClientStart(ec, PubBytes(server));
    var init := ClientInit(psk, st, PubBytes(client));
    HandshakeAgreement(psk, client, server, ec, es);
    MessageParts(psk, st.ephPub, SealIdentity(st.ecdhEcSs, PubBytes(client)));
    ResponderKeyFields(psk, server, es, init);
    HonestSecret(es, ec);
    HonestSecret(es, client);
    HonestSecret(server, ec);
  }

  lemma HonestSecret(mine: Secret, theirs: Secret)
    ensures SharedSecret(mine, PubBytes(theirs)) == Spell(Dh({theirs, mine}), 32)
  {
    WholeSpell(Pub(theirs), KEY_LEN);
    assert {theirs, mine} == {mine, theirs};
  }

  /** The bytes of a message that names `pub` under the ephemeral `eph`, sealed for the holder of a
      secret. */
  ghost predicate LaidOut(psk: Option<Bytes>, wire: Bytes, eph: Secret, secret: Term, pub: Secret) {
    && |wire| == (if psk.Some? then 120 else 88)
    && wire[..8] == Lits([0xde, 0xad, 0xbe, 0xef, 0xca, 0xfe, 0xba, 0xbe])
    && wire[8..40] == Spell(Pub(eph), 32)
    && wire[40..88] == Spell(SealId(Spell(Sha(Spell(secret, 32)), 32), Spell(Pub(pub), 32)), 48)
    && (psk.Some? ==> wire[88..] == Spell(Hmac(psk.value, wire[8..88]), 32))
  }

  /** Both messages of a handshake between honest parties, byte for byte: the initiation hides the
      client's key from all but the server's static key, and the reply the server's from all but
      the client's ephemeral. */
  lemma HonestMessages(psk: Option<Bytes>, client: Secret, server: Secret, ec: Secret, es: Secret)
    ensures var init := ClientInit(psk, ClientStart(ec, PubBytes(server)), PubBytes(client));
            var r := ServerRespond(psk, server, es, init);
            && LaidOut(psk, init, ec, Dh({ec, server}), client)
            && r.Some? && LaidOut(psk, r.value.wire, es, Dh({ec, es}), server)
  {
    var st := ClientStart(ec, PubBytes(server));
    HandshakeAgreement(psk, client, server, ec, es);
    MessageParts(psk, st.ephPub, SealIdentity(st.ecdhEcSs, PubBytes(client)));
    MessageParts(psk, PubBytes(es), SealIdentity(SharedSecret(es, PubBytes(ec)), PubBytes(server)));
    HonestSecret(ec, server);
    assert {ec, server} == {server, ec};
    HonestSecret(es, ec);
  }

  // ----- which messages are taken -------------------------------------------------------------

  /** Whatever passes the first checks is a message with its own parts. */
  lemma WellFormedIsMessage(psk: Option<Bytes>, wire: Bytes)
    ensures WellFormed(psk, wire) <==>
            |wire| == HsSize(psk) && wire == Message(psk, EphOf(wire), SealedOf(wire))
  {
    if |wire| == HsSize(psk) {
      var eph, sealed := EphOf(wire), SealedOf(wire);
      MessageParts(psk, eph, sealed);
      assert wire[HEADER_SIZE..HS_LEN] == eph + sealed;
      assert wire == wire[..HEADER_SIZE] + wire[HEADER_SIZE..HS_LEN] + wire[HS_LEN..];
    }
  }

  /** A responder answers exactly the messages that seal a public key under the secret of its own
      static key and the ephemeral in the message; that key is whom it takes the client for. */
  lemma RespondsExactly(psk: Option<Bytes>, static_: Secret, eph: Secret, wire: Bytes, pub: Bytes)
    requires |pub| == KEY_LEN
    ensures var r := ServerRespond(psk, static_, eph, wire);
            r.Some? && r.value.clientPub == pub <==>
            && |wire| == HsSize(psk)
            && wire == Message(psk, EphOf(wire), SealIdentity(SharedSecret(static_, EphOf(wire)), pub))
  {
    if |wire| == HsSize(psk) {
      WellFormedIsMessage(psk, wire);
      var secret := SharedSecret(static_, EphOf(wire));
      MessageParts(psk, EphOf(wire), SealIdentity(secret, pub));
      OpensExactly(secret, SealedOf(wire), pub);
    }
  }

  /** An initiator accepts exactly the messages that seal the expected server's public key under the
      secret of its own ephemeral and the one in the message. */
  lemma AcceptsExactly(psk: Option<Bytes>, static_: Secret, serverPub: Bytes, st: ClientState, wire: Bytes)
    requires |serverPub| == KEY_LEN
    ensures ClientRecv(psk, static_, serverPub, st, wire).Some? <==>
            && |wire| == HsSize(psk)
            && wire == Message(psk, EphOf(wire), SealIdentity(SharedSecret(st.eph, EphOf(wire)), serverPub))
  {
    if |wire| == HsSize(psk) {
      WellFormedIsMessage(psk, wire);
      var secret := SharedSecret(st.eph, EphOf(wire));
      MessageParts(psk, EphOf(wire), SealIdentity(secret, serverPub));
      OpensExactly(secret, SealedOf(wire), serverPub);
    }
  }

  lemma ResponderKeysEqual(static_: Secret, eph1: Secret, ce1: Bytes, cp1: Bytes, eph2: Secret, ce2: Bytes, cp2: Bytes)
    requires |ce1| == |cp1| == |ce2| == |cp2| == KEY_LEN
    ensures ResponderKey(static_, eph1, ce1, cp1) == ResponderKey(static_, eph2, ce2, cp2)
            <==> eph1 == eph2 && ce1 == ce2 && cp1 == cp2
  {
    ResponderFields(static_, eph1, ce1, cp1);
    ResponderFields(static_, eph2, ce2, cp2);
    if PubBytes(eph1) == PubBytes(eph2) {
      PubBytesInjective(eph1, eph2);
    }
  }

  lemma InitiatorKeysEqual(static_: Secret, eph1: Secret, se1: Bytes, sp1: Bytes, eph2: Secret, se2: Bytes, sp2: Bytes)
    requires |se1| == |sp1| == |se2| == |sp2| == KEY_LEN
    ensures InitiatorKey(static_, eph1, se1, sp1) == InitiatorKey(static_, eph2, se2, sp2)
            <==> eph1 == eph2 && se1 == se2 && sp1 == sp2
  {
    InitiatorFields(static_, eph1, se1, sp1);
    InitiatorFields(static_, eph2, se2, sp2);
    if PubBytes(eph1) == PubBytes(eph2) {
      PubBytesInjective(eph1, eph2);
    }
  }

  /** In different roles one static key gives equal keys exactly in a handshake with itself. */
  lemma MixedKeysEqual(static_: Secret, eph1: Secret, se1: Bytes, sp1: Bytes, eph2: Secret, ce2: Bytes, cp2: Bytes)
    requires |se1| == |sp1| == |ce2| == |cp2| == KEY_LEN
    ensures InitiatorKey(static_, eph1, se1, sp1) == ResponderKey(static_, eph2, ce2, cp2)
            <==> sp1 == cp2 == PubBytes(static_) && se1 == PubBytes(eph2) && ce2 == PubBytes(eph1)
  {
    InitiatorFields(static_, eph1, se1, sp1);
    ResponderFields(static_, eph2, ce2, cp2);
    SharedSecretCommutes(eph1, eph2);
    SharedSecretCommutes(static_, eph2);
    SharedSecretCommutes(static_, eph1);
  }

  lemma ResponderFields(static_: Secret, eph: Secret, clientEph: Bytes, clientPub: Bytes)
    requires |clientEph| == KEY_LEN && |clientPub| == KEY_LEN
    ensures var key := ResponderKey(static_, eph, clientEph, clientPub);
            && KeyField(key, 3) == clientEph && KeyField(key, 4) == PubBytes(eph)
            && KeyField(key, 5) == clientPub && KeyField(key, 6) == PubBytes(static_)
  {
    SessionKeyFields(SharedSecret(eph, clientEph), SharedSecret(eph, clientPub), SharedSecret(static_, clientEph),
                     clientEph, PubBytes(eph), clientPub, PubBytes(static_));
  }

  lemma InitiatorFields(static_: Secret, eph: Secret, serverEph: Bytes, serverPub: Bytes)
    requires |serverEph| == KEY_LEN && |serverPub| == KEY_LEN
    ensures var key := InitiatorKey(static_, eph, serverEph, serverPub);
            && KeyField(key, 3) == PubBytes(eph) && KeyField(key, 4) == serverEph
            && KeyField(key, 5) == PubBytes(static_) && KeyField(key, 6) == serverPub
  {
    SessionKeyFields(SharedSecret(eph, serverEph), SharedSecret(static_, serverEph), SharedSecret(eph, serverPub),
                     PubBytes(eph), serverEph, PubBytes(static_), serverPub);
  }

  /** The converse of agreement: whenever the two sides hold the same session key, they agree on
      all four public keys and on who initiated. */
  lemma EqualKeysForceAgreement(psk: Option<Bytes>, client: Secret, serverPub: Bytes, st: ClientState, reply: Bytes,
                                otherPsk: Option<Bytes>, server: Secret, es: Secret, init: Bytes)
    requires |serverPub| == KEY_LEN && |st.ephPub| == KEY_LEN && |st.ecdhEcSs| == KEY_LEN
    requires ClientRecv(psk, client, serverPub, st, reply).Some?
    requires ServerRespond(otherPsk, server, es, init).Some?
    requires ClientRecv(psk, client, serverPub, st, reply).value == ServerRespond(otherPsk, server, es, init).value.key
    ensures EphOf(init) == st.ephPub
    ensures EphOf(reply) == PubBytes(es)
    ensures ServerRespond(otherPsk, server, es, init).value.clientPub == PubBytes(client)
    ensures serverPub == PubBytes(server)
  {
    InitiatorKeyFields(psk, client, serverPub, st, reply);
    ResponderKeyFields(otherPsk, server, es, init);
  }
}
