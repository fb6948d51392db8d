/** Bytes and cryptography, symbolically.

    A byte string is a sequence of atoms. An atom is a literal byte or the i-th byte of a
    cryptographic value, so layouts, lengths and slices stay concrete while X25519, AES-256-GCM,
    HMAC-SHA256 and SHA-256 are term constructors: equal outputs have equal inputs. */
module Crypto {
  import opened Options

  type Byte = x: int | 0 <= x < 256

  const KEY_LEN := 32
  const IV_LEN := 12
  const TAG_LEN := 16
  const OVERHEAD := IV_LEN + TAG_LEN

  datatype Secret = Static(owner: nat) | Ephemeral(owner: nat, n: nat)

  datatype Atom = Lit(b: Byte) | Part(term: Term, i: nat)

  datatype Term =
    | Pub(s: Secret)
    | Dh(pair: set<Secret>)                                    // of two honest keys
    | DhOpaque(s: Secret, peer: seq<Atom>)                     // with bytes that are no public key
    | Sha(input: seq<Atom>)
    | Hmac(key: seq<Atom>, msg: seq<Atom>)
    | SealId(key: seq<Atom>, plain: seq<Atom>)                 // AES-256-GCM, zero IV
    | SealData(key: seq<Atom>, iv: seq<Byte>, data: seq<Byte>) // AES-256-GCM, random IV

  type Bytes = seq<Atom>

  type Iv = s: seq<Byte> | |s| == IV_LEN witness seq(IV_LEN, _ => 0)

  /** The first `n` bytes of a term. */
  function Spell(t: Term, n: nat): (bs: Bytes)
    ensures |bs| == n
  {
    seq(n, i requires 0 <= i => Part(t, i))
  }

  /** The term a byte string spells from its first byte to its last, if there is one. */
  function Whole(bs: Bytes): (t: Option<Term>)
    ensures t.Some? ==> |bs| > 0 && bs == Spell(t.value, |bs|)
  {
    if |bs| > 0 && bs[0].Part? && bs == Spell(bs[0].term, |bs|) then Some(bs[0].term) else None
  }

  lemma WholeSpell(t: Term, n: nat)
    requires n > 0
    ensures Whole(Spell(t, n)) == Some(t)
  {
  }

  lemma SpellInjective(t: Term, u: Term, n: nat)
    requires n > 0 && Spell(t, n) == Spell(u, n)
    ensures t == u
  {
    WholeSpell(t, n);
    WholeSpell(u, n);
  }

  function Lits(bs: seq<Byte>): (r: Bytes)
    ensures |r| == |bs|
  {
    seq(|bs|, i requires 0 <= i < |bs| => Lit(bs[i]))
  }

  lemma LitsInjective(a: seq<Byte>, b: seq<Byte>)
    requires Lits(a) == Lits(b)
    ensures a == b
  {
    assert |a| == |b|;
    forall i | 0 <= i < |a|
      ensures a[i] == b[i]
    {
      assert Lits(a)[i] == Lits(b)[i];
    }
  }

  // ----- X25519 -------------------------------------------------------------------------------

  function PubBytes(s: Secret): (bs: Bytes)
    ensures |bs| == KEY_LEN
  {
    Spell(Pub(s), KEY_LEN)
  }

  lemma PubBytesInjective(a: Secret, b: Secret)
    requires PubBytes(a) == PubBytes(b)
    ensures a == b
  {
    SpellInjective(Pub(a), Pub(b), KEY_LEN);
  }

  /** x25519_shared_secret: our secret with the peer's public bytes. */
  function SharedSecret(mine: Secret, peer: Bytes): (bs: Bytes)
    ensures |bs| == KEY_LEN
  {
    match Whole(peer)
    case Some(Pub(theirs)) =>
      if |peer| == KEY_LEN then Spell(Dh({mine, theirs}), KEY_LEN) else Spell(DhOpaque(mine, peer), KEY_LEN)
    case _ => Spell(DhOpaque(mine, peer), KEY_LEN)
  }

  /** Section 6.1 of RFC 7748: both sides compute the same secret. */
  lemma SharedSecretCommutes(a: Secret, b: Secret)
    ensures SharedSecret(a, PubBytes(b)) == SharedSecret(b, PubBytes(a))
  {
    WholeSpell(Pub(a), KEY_LEN);
    WholeSpell(Pub(b), KEY_LEN);
    assert {a, b} == {b, a};
  }

  /** Two different secrets never agree with a third party on the same value. */
  lemma SharedSecretSeparates(a: Secret, b: Secret, peer: Bytes)
    requires SharedSecret(a, peer) == SharedSecret(b, peer)
    ensures a == b
  {
    match Whole(peer) {
      case Some(Pub(c)) =>
        if |peer| == KEY_LEN {
          SpellInjective(Dh({a, c}), Dh({b, c}), KEY_LEN);
          assert a in {a, c} && b in {b, c};
        } else {
          SpellInjective(DhOpaque(a, peer), DhOpaque(b, peer), KEY_LEN);
        }
      case _ =>
        SpellInjective(DhOpaque(a, peer), DhOpaque(b, peer), KEY_LEN);
    }
  }

  // ----- hashes -------------------------------------------------------------------------------

  function Sha256(input: Bytes): (bs: Bytes)
    ensures |bs| == KEY_LEN
  {
    Spell(Sha(input), KEY_LEN)
  }

  function HmacSha256(key: Bytes, msg: Bytes): (bs: Bytes)
    ensures |bs| == KEY_LEN
  {
    Spell(Hmac(key, msg), KEY_LEN)
  }

  // ----- AES-256-GCM over a public key (encrypt_identity, decrypt_identity) -------------------

  const SEALED_PUB_LEN := KEY_LEN + TAG_LEN

  function SealIdentity(material: Bytes, pub: Bytes): (bs: Bytes)
    ensures |bs| == SEALED_PUB_LEN
  {
    Spell(SealId(Sha256(material), pub), SEALED_PUB_LEN)
  }

  function OpenIdentity(material: Bytes, sealed: Bytes): (pub: Option<Bytes>) {
    match Whole(sealed)
    case Some(SealId(key, plain)) =>
      if |sealed| == SEALED_PUB_LEN && key == Sha256(material) && |plain| == KEY_LEN then Some(plain) else None
    case _ => None
  }

  /** Opening undoes sealing under the same material, and under no other. */
  lemma IdentityRoundTrip(material: Bytes, other: Bytes, pub: Bytes)
    requires |pub| == KEY_LEN
    ensures OpenIdentity(other, SealIdentity(material, pub)) == if other == material then Some(pub) else None
  {
    WholeSpell(SealId(Sha256(material), pub), SEALED_PUB_LEN);
    if Sha256(other) == Sha256(material) {
      SpellInjective(Sha(other), Sha(material), KEY_LEN);
    }
  }

  /** What opens to a public key is its sealing under that material, and nothing else is. */
  lemma OpensExactly(material: Bytes, sealed: Bytes, pub: Bytes)
    requires |pub| == KEY_LEN
    ensures OpenIdentity(material, sealed) == Some(pub) <==> sealed == SealIdentity(material, pub)
  {
    IdentityRoundTrip(material, material, pub);
  }

  // ----- AES-256-GCM over a packet (encrypt_packet, decrypt_packet) ---------------------------

  function SealPacket(key: Bytes, iv: Iv, plain: seq<Byte>): (wire: Bytes)
    ensures |wire| == |plain| + OVERHEAD
  {
    Lits(iv) + Spell(SealData(key, iv, plain), |plain| + TAG_LEN)
  }

  function OpenPacket(key: Bytes, wire: Bytes): (plain: Option<seq<Byte>>)
    ensures plain.Some? ==> |wire| == |plain.value| + OVERHEAD
  {
    if |wire| < OVERHEAD then None
    else
      match Whole(wire[IV_LEN..])
      case Some(SealData(k, iv, data)) =>
        if k == key && Lits(iv) == wire[..IV_LEN] && |wire| == |data| + OVERHEAD then Some(data) else None
      case _ => None
  }

  lemma PacketRoundTrip(key: Bytes, other: Bytes, iv: Iv, plain: seq<Byte>)
    ensures OpenPacket(other, SealPacket(key, iv, plain)) == if other == key then Some(plain) else None
  {
  }

  /** Whatever opens under a key was sealed under it. */
  lemma OpenedWasSealed(key: Bytes, wire: Bytes) returns (iv: Iv)
    requires OpenPacket(key, wire).Some?
    ensures wire == SealPacket(key, iv, OpenPacket(key, wire).value)
  {
    var plain := OpenPacket(key, wire).value;
    iv := Whole(wire[IV_LEN..]).value.iv;
    assert wire == wire[..IV_LEN] + wire[IV_LEN..];
  }
}
