/** C's bitwise operators on unsigned words, written out over the integers.

    A word of width `w` is a number below Pow2(w); shifts to the left drop what leaves the word. */
module Bits {

  function Pow2(n: nat): (p: nat)
    ensures p > 0
  {
    if n == 0 then 1 else 2 * Pow2(n - 1)
  }

  const U32 := 0x1_0000_0000
  const U64 := 0x1_0000_0000_0000_0000

  type Word = x: int | 0 <= x < U64

  /** Whether bit `b` of `x` is set. */
  predicate Bit(x: nat, b: nat) {
    if b == 0 then x % 2 == 1 else Bit(x / 2, b - 1)
  }

  /** `x << n` on a word of width `w`. */
  function Shl(x: nat, n: nat, w: nat): nat {
    if n == 0 then x else 2 * Shl(x, n - 1, w) % Pow2(w)
  }

  /** `x >> n` */
  function Shr(x: nat, n: nat): nat {
    if n == 0 then x else Shr(x / 2, n - 1)
  }

  /** `x | y` */
  function Or(x: nat, y: nat): nat {
    if x == 0 && y == 0 then 0
    else 2 * Or(x / 2, y / 2) + (if x % 2 == 1 || y % 2 == 1 then 1 else 0)
  }

  /** `x & y` */
  function And(x: nat, y: nat): nat {
    if x == 0 || y == 0 then 0
    else 2 * And(x / 2, y / 2) + (if x % 2 == 1 && y % 2 == 1 then 1 else 0)
  }

  // ----- powers of two ------------------------------------------------------------------------

  lemma Widths()
    ensures Pow2(32) == U32
    ensures Pow2(64) == U64
  {
    assert Pow2(8) == 0x100;
    assert Pow2(16) == 0x1_0000;
    assert Pow2(24) == 0x100_0000;
    assert Pow2(32) == 0x1_0000_0000;
    assert Pow2(40) == 0x100_0000_0000;
    assert Pow2(48) == 0x1_0000_0000_0000;
    assert Pow2(56) == 0x100_0000_0000_0000;
  }

  lemma {:induction false} Pow2Monotone(a: nat, b: nat)
    requires a <= b
    ensures Pow2(a) <= Pow2(b)
  {
    if a < b {
      Pow2Monotone(a, b - 1);
    }
  }

  lemma Pow2Byte(n: nat)
    ensures Pow2(n + 8) == 256 * Pow2(n)
  {
    assert Pow2(n + 2) == 4 * Pow2(n);
    assert Pow2(n + 4) == 4 * Pow2(n + 2);
    assert Pow2(n + 6) == 4 * Pow2(n + 4);
  }

  // ----- single bits --------------------------------------------------------------------------

  lemma {:induction false} NoHighBits(x: nat, w: nat, k: nat)
    requires x < Pow2(w) && w <= k
    ensures !Bit(x, k)
  {
    if w == 0 {
      if k > 0 {
        NoHighBits(0, 0, k - 1);
      }
    } else {
      NoHighBits(x / 2, w - 1, k - 1);
    }
  }

  lemma OrHalf(x: nat, y: nat)
    ensures Or(x, y) / 2 == Or(x / 2, y / 2)
    ensures Or(x, y) % 2 == 1 <==> x % 2 == 1 || y % 2 == 1
  {
  }

  lemma {:induction false} OrBit(x: nat, y: nat, k: nat)
    ensures Bit(Or(x, y), k) <==> Bit(x, k) || Bit(y, k)
    decreases k
  {
    OrHalf(x, y);
    if k > 0 {
      OrBit(x / 2, y / 2, k - 1);
    }
  }

  lemma {:induction false} OrFits(x: nat, y: nat, w: nat)
    requires x < Pow2(w) && y < Pow2(w)
    ensures Or(x, y) < Pow2(w)
  {
    if w > 0 {
      OrFits(x / 2, y / 2, w - 1);
    }
  }

  lemma {:induction false} ShrBit(x: nat, n: nat, k: nat)
    ensures Bit(Shr(x, n), k) <==> Bit(x, n + k)
    ensures Shr(x, n) <= x
  {
    if n > 0 {
      ShrBit(x / 2, n - 1, k);
    }
  }

  /** Clearing the bits from `w` upwards leaves the ones below. */
  lemma {:induction false} TruncateBit(x: nat, w: nat, k: nat)
    requires k < w
    ensures Bit(x % Pow2(w), k) <==> Bit(x, k)
    decreases k
  {
    var p := Pow2(w - 1);
    assert Pow2(w) == 2 * p;
    HalfOfRemainder(x, p);
    if k > 0 {
      TruncateBit(x / 2, w - 1, k - 1);
    }
  }

  lemma HalfOfRemainder(x: nat, p: nat)
    requires p > 0
    ensures (x % (2 * p)) / 2 == (x / 2) % p
    ensures (x % (2 * p)) % 2 == x % 2
  {
    var q, r := x / (2 * p), x % (2 * p);
    assert x == (2 * p) * q + r;
    assert x == 2 * (p * q) + r;
    assert x / 2 == p * q + r / 2;
    RemainderOf(x / 2, p, q, r / 2);
  }

  lemma RemainderOf(x: nat, p: nat, q: nat, r: nat)
    requires p > 0 && r < p && x == p * q + r
    ensures x % p == r && x / p == q
  {
    var q' := x / p;
    if q < q' {
      NextMultiple(p, q, q');
    } else if q' < q {
      NextMultiple(p, q', q);
    }
  }

  lemma {:induction false} NextMultiple(p: nat, a: nat, b: nat)
    requires a < b
    ensures p * a + p <= p * b
  {
    assert p * b == p * (b - 1) + p;
    if a + 1 < b {
      NextMultiple(p, a, b - 1);
    }
  }

  lemma {:induction false} ShlBit(x: nat, n: nat, w: nat, k: nat)
    requires k < w
    ensures Bit(Shl(x, n, w), k) <==> n <= k && Bit(x, k - n)
  {
    if n > 0 {
      var y := Shl(x, n - 1, w);
      TruncateBit(2 * y, w, k);
      if k > 0 {
        ShlBit(x, n - 1, w, k - 1);
      }
    }
  }

  lemma ShlFits(x: nat, n: nat, w: nat)
    requires x < Pow2(w)
    ensures Shl(x, n, w) < Pow2(w)
  {
  }

  /** `1 << b` has the one bit `b`. */
  lemma OneBit(b: nat, w: nat, k: nat)
    requires b < w && k < w
    ensures Bit(Shl(1, b, w), k) <==> b == k
  {
    ShlBit(1, b, w, k);
    if b < k {
      NoHighBits(1, 1, k - b);
    }
  }

  lemma SmallRemainder(x: nat, p: nat)
    requires x < p
    ensures x % p == x
  {
  }

  lemma {:induction false} ShlOne(b: nat, w: nat)
    requires b < w
    ensures Shl(1, b, w) == Pow2(b)
  {
    if b > 0 {
      ShlOne(b - 1, w);
      Pow2Monotone(b, w - 1);
      SmallRemainder(Pow2(b), Pow2(w));
    }
  }

  lemma {:induction false} TestBit(x: nat, b: nat)
    ensures And(x, Pow2(b)) != 0 <==> Bit(x, b)
    decreases b
  {
    if b > 0 {
      TestBit(x / 2, b - 1);
      if x == 0 {
        NoHighBits(0, 0, b);
      }
    }
  }
}
