/** Data packets: [8 magic][8 sequence number, big-endian][payload], sealed for the wire.

    The buffers have the sizes that event_loop gives them, so the index checks of the methods are
    the buffer bounds of the program. */
module Framing {
  import opened Options
  import opened Bits
  import opened Crypto
  import opened Handshake

  const SEQ_SIZE := 8
  const PREFIX_SIZE := HEADER_SIZE + SEQ_SIZE
  const WIRE_OVERHEAD := PREFIX_SIZE + OVERHEAD
  const BUFFER_SIZE := 2048
  const PLAIN_SIZE := PREFIX_SIZE + BUFFER_SIZE
  const WIRE_SIZE := BUFFER_SIZE + WIRE_OVERHEAD

  // ----- big-endian numbers -------------------------------------------------------------------

  /** The low `n` bytes of `x`, most significant first (htobe64 for n == 8). */
  function BigEndian(x: nat, n: nat): (bs: seq<Byte>)
    ensures |bs| == n
  {
    if n == 0 then [] else BigEndian(x / 256, n - 1) + [x % 256]
  }

  function FromBigEndian(bs: seq<Byte>): (x: nat)
  {
    if bs == [] then 0 else 256 * FromBigEndian(bs[..|bs| - 1]) + bs[|bs| - 1]
  }

  lemma {:induction false} BigEndianRoundTrip(x: nat, n: nat)
    requires x < Pow2(8 * n)
    ensures FromBigEndian(BigEndian(x, n)) == x
  {
    if n > 0 {
      Pow2Byte(8 * n - 8);
      BigEndianRoundTrip(x / 256, n - 1);
      assert BigEndian(x, n)[..n - 1] == BigEndian(x / 256, n - 1);
    }
  }

  lemma {:induction false} FromBigEndianFits(bs: seq<Byte>)
    ensures FromBigEndian(bs) < Pow2(8 * |bs|)
  {
    if bs != [] {
      var n := |bs|;
      FromBigEndianFits(bs[..n - 1]);
      Pow2Byte(8 * n - 8);
    }
  }

  /** Byte `i` of the number: the one with the weight 256^(n - 1 - i). */
  lemma {:induction false} BigEndianByte(x: nat, n: nat, i: nat)
    requires i < n
    ensures BigEndian(x, n)[i] == x / Pow2(8 * (n - 1 - i)) % 256
  {
    if i < n - 1 {
      BigEndianByte(x / 256, n - 1, i);
      var p := Pow2(8 * (n - 2 - i));
      Pow2Byte(8 * (n - 2 - i));
      DivideTwice(x, 256, p);
    } else {
      assert Pow2(0) == 1;
    }
  }

  lemma DivideTwice(x: nat, a: nat, b: nat)
    requires a > 0 && b > 0
    ensures a * b > 0 && x / a / b == x / (a * b)
  {
    var q, r := x / a / b, x / a % b;
    assert x / a == q * b + r;
    var s := x % a;
    assert x == (q * b + r) * a + s == q * (a * b) + (r * a + s);
    assert 0 <= r * a + s < a * b by {
      assert r <= b - 1;
      assert r * a <= (b - 1) * a == a * b - a;
    }
    RemainderOf(x, a * b, q, r * a + s);
  }

  // ----- frames -------------------------------------------------------------------------------

  datatype Parsed = Parsed(q: nat, payload: seq<Byte>)

  function Frame(q: nat, payload: seq<Byte>): (plain: seq<Byte>)
    ensures |plain| == PREFIX_SIZE + |payload|
  {
    HEADER + BigEndian(q, SEQ_SIZE) + payload
  }

  function ParseFrame(plain: seq<Byte>): (p: Option<Parsed>)
    ensures p.Some? ==> p.value.q < U64
  {
    if |plain| < PREFIX_SIZE || plain[..HEADER_SIZE] != HEADER then None
    else
      FromBigEndianFits(plain[HEADER_SIZE..PREFIX_SIZE]);
      Widths();
      Some(Parsed(FromBigEndian(plain[HEADER_SIZE..PREFIX_SIZE]), plain[PREFIX_SIZE..]))
  }

  lemma FrameRoundTrip(q: nat, payload: seq<Byte>)
    requires q < U64
    ensures ParseFrame(Frame(q, payload)) == Some(Parsed(q, payload))
  {
    var plain := Frame(q, payload);
    assert plain[..HEADER_SIZE] == HEADER;
    assert plain[HEADER_SIZE..PREFIX_SIZE] == BigEndian(q, SEQ_SIZE);
    assert plain[PREFIX_SIZE..] == payload;
    Widths();
    BigEndianRoundTrip(q, SEQ_SIZE);
  }

  /** Whatever parses is the frame of what it parses to, and nothing else parses to that. */
  lemma ParsesExactly(plain: seq<Byte>, q: nat, payload: seq<Byte>)
    requires q < U64
    ensures ParseFrame(plain) == Some(Parsed(q, payload)) <==> plain == Frame(q, payload)
  {
    FrameRoundTrip(q, payload);
    if ParseFrame(plain) == Some(Parsed(q, payload)) {
      FromBigEndianThere(plain[HEADER_SIZE..PREFIX_SIZE]);
      assert plain == plain[..HEADER_SIZE] + plain[HEADER_SIZE..PREFIX_SIZE] + plain[PREFIX_SIZE..];
    }
  }

  /** The bytes of a frame: 8 of magic, 8 of the number with the highest first, the payload. */
  lemma FrameLayout(q: nat, payload: seq<Byte>)
    ensures var plain := Frame(q, payload);
            && |plain| == 16 + |payload| && plain[16..] == payload
            && plain[..8] == [0xde, 0xad, 0xbe, 0xef, 0xca, 0xfe, 0xba, 0xbe]
            && forall i | 8 <= i < 16 :: plain[i] == q / Pow2(8 * (15 - i)) % 256
  {
    var plain := Frame(q, payload);
    assert plain[..8] == HEADER && plain[16..] == payload;
    forall i | 8 <= i < 16
      ensures plain[i] == q / Pow2(8 * (15 - i)) % 256
    {
      assert plain[i] == BigEndian(q, 8)[i - 8];
      BigEndianByte(q, 8, i - 8);
    }
  }

  /** The other round trip: every byte string is the big-endian form of the number it reads as. */
  lemma {:induction false} FromBigEndianThere(bs: seq<Byte>)
    ensures BigEndian(FromBigEndian(bs), |bs|) == bs
  {
    if bs != [] {
      var n := |bs| - 1;
      FromBigEndianThere(bs[..n]);
      var x := FromBigEndian(bs);
      assert x / 256 == FromBigEndian(bs[..n]) && x % 256 == bs[n];
      assert bs == bs[..n] + [bs[n]];
    }
  }

  /** What forward_to_peer puts on the wire, and what the data path reads from it. */
  function SealFrame(key: Bytes, iv: Iv, q: nat, payload: seq<Byte>): (wire: Bytes)
    ensures |wire| == |payload| + WIRE_OVERHEAD
  {
    SealPacket(key, iv, Frame(q, payload))
  }

  function OpenFrame(key: Bytes, wire: Bytes): (p: Option<Parsed>)
    ensures p.Some? ==> p.value.q < U64
  {
    match OpenPacket(key, wire)
    case None => None
    case Some(plain) => ParseFrame(plain)
  }

  /** The receiver recovers exactly the sequence number and the payload, and only with the key
      they were sealed under. */
  lemma SealedFrameRoundTrip(key: Bytes, other: Bytes, iv: Iv, q: nat, payload: seq<Byte>)
    requires q < U64
    ensures OpenFrame(other, SealFrame(key, iv, q, payload)) == if other == key then Some(Parsed(q, payload)) else None
  {
    PacketRoundTrip(key, other, iv, Frame(q, payload));
    FrameRoundTrip(q, payload);
  }

  /** Whatever opens to a frame under a key is the sealing of that frame under it. */
  lemma OpenedFrameWasSealed(key: Bytes, wire: Bytes) returns (iv: Iv)
    requires OpenFrame(key, wire).Some?
    ensures var f := OpenFrame(key, wire).value; wire == SealFrame(key, iv, f.q, f.payload)
  {
    var f := OpenFrame(key, wire).value;
    iv := OpenedWasSealed(key, wire);
    ParsesExactly(OpenPacket(key, wire).value, f.q, f.payload);
  }

  // ----- the buffers of event_loop ------------------------------------------------------------

  /** The frame that forward_to_peer builds in plain_buf. The payload may come from another buffer
      (a TUN read) or sit in plain_buf itself behind the prefix (a relayed packet). */
  method BuildFrame(plainBuf: array<Byte>, q: nat, payload: array<Byte>, offset: nat, len: nat)
    requires q < U64
    requires plainBuf.Length == PLAIN_SIZE && len <= BUFFER_SIZE
    requires offset + len <= payload.Length
    requires payload != plainBuf || offset == PREFIX_SIZE
    modifies plainBuf
    ensures plainBuf[..PREFIX_SIZE + len] == Frame(q, old(payload[offset..offset + len]))
    ensures plainBuf[PREFIX_SIZE + len..] == old(plainBuf[PREFIX_SIZE + len..])
  {
    ghost var data := payload[offset..offset + len];
    var prefix := HEADER + BigEndian(q, SEQ_SIZE);
    for i := 0 to PREFIX_SIZE
      invariant forall j :: 0 <= j < i ==> plainBuf[j] == prefix[j]
      invariant forall j :: PREFIX_SIZE <= j < PLAIN_SIZE ==> plainBuf[j] == old(plainBuf[j])
    {
      plainBuf[i] := prefix[i];
    }
    assert forall j :: 0 <= j < len ==> payload[offset + j] == data[j];
    for i := 0 to len
      invariant forall j :: 0 <= j < PREFIX_SIZE ==> plainBuf[j] == prefix[j]
      invariant forall j :: 0 <= j < i ==> plainBuf[PREFIX_SIZE + j] == data[j]
      invariant forall j :: i <= j < len ==> payload[offset + j] == data[j]
      invariant forall j :: PREFIX_SIZE + len <= j < PLAIN_SIZE ==> plainBuf[j] == old(plainBuf[j])
    {
      plainBuf[PREFIX_SIZE + i] := payload[offset + i];
    }
    assert plainBuf[..PREFIX_SIZE + len] == prefix + data;
  }

  /** encrypt_packet into wire_buf: the ciphertext, the tag and then the IV. If a call of the cipher
      fails, whatever it has written by then is behind the place of the IV. */
  method EncryptInto(key: Bytes, iv: Iv, plainBuf: array<Byte>, len: nat, wireBuf: array<Atom>, ok: bool)
    returns (encLen: Option<nat>)
    requires plainBuf.Length == PLAIN_SIZE && len <= PLAIN_SIZE && wireBuf.Length == WIRE_SIZE
    modifies wireBuf
    ensures encLen == if ok then Some(len + OVERHEAD) else None
    ensures len + OVERHEAD <= wireBuf.Length && wireBuf[len + OVERHEAD..] == old(wireBuf[len + OVERHEAD..])
    ensures ok ==> wireBuf[..len + OVERHEAD] == SealPacket(key, iv, plainBuf[..len])
    ensures !ok ==> wireBuf[..IV_LEN] == old(wireBuf[..IV_LEN])
  {
    var sealed := Spell(SealData(key, iv, plainBuf[..len]), len + TAG_LEN);
    if !ok {
      sealed := Garbage(len + TAG_LEN, Lit(0));
    }
    for i := 0 to len + TAG_LEN
      invariant wireBuf[IV_LEN..IV_LEN + i] == sealed[..i]
      invariant wireBuf[..IV_LEN] == old(wireBuf[..IV_LEN])
      invariant wireBuf[len + OVERHEAD..] == old(wireBuf[len + OVERHEAD..])
    {
      wireBuf[IV_LEN + i] := sealed[i];
    }
    if !ok {
      return None;
    }
    for i := 0 to IV_LEN
      invariant wireBuf[..i] == Lits(iv)[..i]
      invariant wireBuf[IV_LEN..len + OVERHEAD] == sealed
      invariant wireBuf[len + OVERHEAD..] == old(wireBuf[len + OVERHEAD..])
    {
      wireBuf[i] := Lit(iv[i]);
    }
    assert wireBuf[..len + OVERHEAD] == wireBuf[..IV_LEN] + wireBuf[IV_LEN..len + OVERHEAD];
    return Some(len + OVERHEAD);
  }

  /** Some content of that length, about which nothing is known. */
  method Garbage<T>(n: nat, example: T) returns (s: seq<T>)
    ensures |s| == n
  {
    assert |seq(n, _ => example)| == n;
    s :| |s| == n;
  }

  /** decrypt_packet of the `nr` bytes received in wire_buf, into plain_buf. The cipher writes its
      output before the tag is checked, so a packet that does not open leaves as many bytes of
      something behind as one that does. */
  method DecryptInto(key: Bytes, wireBuf: array<Atom>, nr: nat, plainBuf: array<Byte>) returns (plainLen: Option<nat>)
    requires wireBuf.Length == WIRE_SIZE && nr <= WIRE_SIZE && plainBuf.Length == PLAIN_SIZE
    modifies plainBuf
    ensures nr < OVERHEAD ==> plainLen == None && plainBuf[..] == old(plainBuf[..])
    ensures nr >= OVERHEAD ==>
              && nr - OVERHEAD <= PLAIN_SIZE
              && plainBuf[nr - OVERHEAD..] == old(plainBuf[nr - OVERHEAD..])
              && match OpenPacket(key, wireBuf[..nr])
                 case None => plainLen == None
                 case Some(plain) => plainLen == Some(nr - OVERHEAD) && plainBuf[..nr - OVERHEAD] == plain
  {
    if nr < OVERHEAD {
      return None;
    }
    var n := nr - OVERHEAD;
    var content := OpenPacket(key, wireBuf[..nr]);
    var early: seq<Byte>;
    if content == None {
      early := Garbage(n, 0);
    } else {
      early := content.value;
    }
    for i := 0 to n
      invariant plainBuf[..i] == early[..i]
      invariant plainBuf[n..] == old(plainBuf[n..])
    {
      plainBuf[i] := early[i];
    }
    return if content == None then None else Some(n);
  }

  /** A relayed packet, end to end through the two buffers of event_loop: what arrived sealed under
      one key leaves sealed under the other, with the payload unchanged although it is framed again
      in the buffer it was decrypted into. */
  method RelayInPlace(keyIn: Bytes, nr: nat, keyOut: Bytes, iv: Iv, q: nat,
                      plainBuf: array<Byte>, wireBuf: array<Atom>) returns (encLen: Option<nat>)
    requires wireBuf.Length == WIRE_SIZE && nr <= WIRE_SIZE && plainBuf.Length == PLAIN_SIZE && q < U64
    modifies plainBuf, wireBuf
    ensures match OpenFrame(keyIn, old(wireBuf[..nr]))
            case None => encLen == None && wireBuf[..] == old(wireBuf[..])
            case Some(p) => encLen == Some(nr) && wireBuf[..nr] == SealFrame(keyOut, iv, q, p.payload)
  {
    var plainLen := DecryptInto(keyIn, wireBuf, nr, plainBuf);
    if plainLen == None {
      return None;
    }
    var n := plainLen.value;
    ghost var plain := plainBuf[..n];
    if n < PREFIX_SIZE || plainBuf[..HEADER_SIZE] != HEADER {
      assert n < PREFIX_SIZE || plain[..HEADER_SIZE] == plainBuf[..HEADER_SIZE];
      return None;
    }
    assert plain[..HEADER_SIZE] == plainBuf[..HEADER_SIZE];
    assert plain[PREFIX_SIZE..] == plainBuf[PREFIX_SIZE..n];
    BuildFrame(plainBuf, q, plainBuf, PREFIX_SIZE, n - PREFIX_SIZE);
    encLen := EncryptInto(keyOut, iv, plainBuf, n, wireBuf, true);
  }
}
