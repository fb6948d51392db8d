/** CIDR prefixes (parse_cidr) and the meaning of a masked comparison. Addresses are 32-bit
    numbers in host order. */
module Prefixes {
  import opened Options
  import opened Bits

  datatype Prefix = Prefix(network: nat, mask: nat, len: nat)

  /** parse_cidr after the text has been split: `address` is what inet_pton made of the first part
      and `len` the number after the slash, if there is a slash. */
  function ParseCidr(address: Option<nat>, len: Option<int>): (p: Option<Prefix>) {
    var n := if len.Some? then len.value else 32;
    if len.Some? && (n < 0 || n > 32) then None
    else if address.None? then None
    else
      var mask := if n == 0 then 0 else Shl(U32 - 1, 32 - n, 32);
      Some(Prefix(And(address.value, mask), mask, n))
  }

  /** The comparison in route_lookup and check_allowed_src. */
  predicate Matches(p: Prefix, ip: nat) {
    And(ip, p.mask) == p.network
  }

  /** A contiguous mask of the stated length, and no network bits outside it. */
  ghost predicate Canonical(p: Prefix) {
    && p.len <= 32
    && p.mask == U32 - Pow2(32 - p.len)
    && p.network < U32
    && p.network % Pow2(32 - p.len) == 0
  }

  // ----- masks --------------------------------------------------------------------------------

  /** `~0u << h` is the word whose low `h` bits are clear. */
  lemma {:induction false} ShiftedOnes(h: nat, w: nat)
    requires h <= w
    ensures Shl(Pow2(w) - 1, h, w) == Pow2(w) - Pow2(h) || h == 0
    ensures h == 0 ==> Shl(Pow2(w) - 1, h, w) == Pow2(w) - 1
  {
    if h > 0 {
      ShiftedOnes(h - 1, w);
      Pow2Monotone(h, w);
      var y := Shl(Pow2(w) - 1, h - 1, w);
      assert 2 * y == Pow2(w) + (Pow2(w) - Pow2(h));
      if h < w {
        Pow2Monotone(h, w - 1);
      }
      WrapOnce(2 * y, Pow2(w));
    }
  }

  lemma WrapOnce(x: nat, p: nat)
    requires p <= x < 2 * p
    ensures x % p == x - p
  {
  }

  lemma {:induction false} AndOnes(x: nat, w: nat)
    requires x < Pow2(w)
    ensures And(x, Pow2(w) - 1) == x
  {
    if w > 0 {
      AndOnes(x / 2, w - 1);
    }
  }

  /** Masking with a contiguous mask drops the remainder. */
  lemma {:induction false} AndMask(x: nat, mask: nat, h: nat, w: nat)
    requires h <= w && x < Pow2(w) && mask + Pow2(h) == Pow2(w)
    ensures And(x, mask) == x - x % Pow2(h)
  {
    if h == 0 {
      AndOnes(x, w);
      assert x % 1 == 0;
    } else {
      var m := mask / 2;
      assert mask == 2 * m && m + Pow2(h - 1) == Pow2(w - 1);
      AndMask(x / 2, m, h - 1, w - 1);
      HalfOfRemainder(x, Pow2(h - 1));
      AndEven(x, m);
    }
  }

  lemma AndEven(x: nat, m: nat)
    ensures And(x, 2 * m) == 2 * And(x / 2, m)
  {
    if x > 0 && m > 0 {
      assert (2 * m) / 2 == m && (2 * m) % 2 == 0;
    }
  }

  // ----- meaning ------------------------------------------------------------------------------

  /** parse_cidr fails exactly on a bad address or a length outside 0..32, and what it stores is
      canonical and covers the address it was given. */
  lemma ParsedIsCanonical(address: Option<nat>, len: Option<int>)
    requires address.Some? ==> address.value < U32
    ensures var p := ParseCidr(address, len);
            && (p.Some? <==> address.Some? && (len.Some? ==> 0 <= len.value <= 32))
            && (p.Some? ==> Canonical(p.value) && Matches(p.value, address.value))
            && (p.Some? ==> p.value.len == if len.Some? then len.value else 32)
  {
    Widths();
    var p := ParseCidr(address, len);
    if p.Some? {
      var h := 32 - p.value.len;
      ShiftedOnes(h, 32);
      Pow2Monotone(h, 32);
      AndMask(address.value, p.value.mask, h, 32);
      MultipleOf(address.value, Pow2(h));
      assert Pow2(0) == 1;
    }
  }

  lemma MultipleOf(x: nat, p: nat)
    requires p > 0
    ensures (x - x % p) % p == 0
    ensures 0 <= x - x % p <= x
  {
    RemainderOf(x - x % p, p, x / p, 0);
  }

  /** For a canonical prefix the masked comparison is membership of the interval
      [network, network + 2^(32 - len)). */
  lemma MatchIsInterval(p: Prefix, ip: nat)
    requires Canonical(p) && ip < U32
    ensures Matches(p, ip) <==> p.network <= ip < p.network + Pow2(32 - p.len)
  {
    Widths();
    AndMask(ip, p.mask, 32 - p.len, 32);
    AlignedBlock(p.network, ip, Pow2(32 - p.len));
  }

  lemma AlignedBlock(base: nat, x: nat, size: nat)
    requires size > 0 && base % size == 0
    ensures x - x % size == base <==> base <= x < base + size
  {
    if base <= x < base + size {
      assert base == size * (base / size);
      RemainderOf(x, size, base / size, x - base);
    }
  }

  /** Two canonical prefixes of one length that share an address are the same prefix. */
  lemma EqualLengthTie(p: Prefix, q: Prefix, ip: nat)
    requires Canonical(p) && Canonical(q) && p.len == q.len
    requires Matches(p, ip) && Matches(q, ip)
    ensures p == q
  {
  }
}
