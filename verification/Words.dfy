/**
 Unsigned 32-bit words as naturals below 2^32: exclusive or, shifts and wrapping multiplication, and the
 facts that make the mixers permutations: `x ^ (x >> k)`, `x ^ (x << k)`, `x ^ c` and multiplication by an
 odd constant are all injective.
 */
module Words {
  import opened Arith

  const TWO32 := 0x1_0000_0000

  type Word = x: nat | x < TWO32

  function Xor(a: nat, b: nat): (r: nat) {
    if a == 0 then b else if b == 0 then a else 2 * Xor(a / 2, b / 2) + (if a % 2 == b % 2 then 0 else 1)
  }

  function Shr(x: nat, k: nat): (r: nat)
    ensures r <= x
  {
    if k == 0 then x else Shr(x / 2, k - 1)
  }

  /** The low n bits. */
  function Low(x: nat, n: nat): (r: nat) {
    if n == 0 then 0 else 2 * Low(x / 2, n - 1) + x % 2
  }

  function Shl(x: nat, k: nat): (r: nat)
    decreases k, x
  {
    if k == 0 then x else Shl(2 * Low(x, 31), k - 1)
  }

  function Pow2(n: nat): (r: nat)
    ensures 0 < r
  {
    if n == 0 then 1 else 2 * Pow2(n - 1)
  }

  lemma Pow32()
    ensures Pow2(31) == 0x8000_0000 && Pow2(32) == TWO32
  {
    assert Pow2(8) == 256 by { assert Pow2(4) == 16; }
    assert Pow2(16) == 0x1_0000 by { assert Pow2(12) == 0x1000; }
    assert Pow2(24) == 0x100_0000 by { assert Pow2(20) == 0x10_0000; }
    assert Pow2(28) == 0x1000_0000;
  }

  // ---- exclusive or ------------------------------------------------------------------------

  lemma XorDigits(a: nat, b: nat)
    ensures Xor(a, b) / 2 == Xor(a / 2, b / 2) && Xor(a, b) % 2 == (if a % 2 == b % 2 then 0 else 1)
  {
  }

  lemma {:induction false} XorZeroIffEqual(a: nat, b: nat)
    ensures Xor(a, b) == 0 <==> a == b
    decreases a + b
  {
    XorDigits(a, b);
    if a + b > 0 { XorZeroIffEqual(a / 2, b / 2); }
  }

  /** (a ^ b) ^ (c ^ d) == (a ^ c) ^ (b ^ d) */
  lemma {:induction false} XorInterchange(a: nat, b: nat, c: nat, d: nat)
    ensures Xor(Xor(a, b), Xor(c, d)) == Xor(Xor(a, c), Xor(b, d))
    decreases a + b + c + d
  {
    if a + b + c + d > 0 {
      XorInterchange(a / 2, b / 2, c / 2, d / 2);
      XorDigits(a, b);
      XorDigits(c, d);
      XorDigits(a, c);
      XorDigits(b, d);
      XorDigits(Xor(a, b), Xor(c, d));
      XorDigits(Xor(a, c), Xor(b, d));
    }
  }

  lemma {:induction false} XorBelow(a: nat, b: nat, n: nat)
    requires a < Pow2(n) && b < Pow2(n)
    ensures Xor(a, b) < Pow2(n)
  {
    if n > 0 {
      XorDigits(a, b);
      XorBelow(a / 2, b / 2, n - 1);
    }
  }

  /** Two words with the same exclusive or against c are equal. */
  lemma XorInjective(a: nat, b: nat, c: nat)
    requires Xor(a, c) == Xor(b, c)
    ensures a == b
  {
    XorInterchange(a, c, b, c);
    XorZeroIffEqual(Xor(a, c), Xor(b, c));
    XorZeroIffEqual(c, c);
    XorZeroIffEqual(a, b);
  }

  // ---- shifts ------------------------------------------------------------------------------

  lemma {:induction false} ShrXor(a: nat, b: nat, k: nat)
    ensures Shr(Xor(a, b), k) == Xor(Shr(a, k), Shr(b, k))
  {
    if k > 0 {
      XorDigits(a, b);
      ShrXor(a / 2, b / 2, k - 1);
    }
  }

  /** x ^ (x >> k) is injective for k >= 1. */
  lemma XorShrInjective(a: nat, b: nat, k: nat)
    requires 0 < k && Xor(a, Shr(a, k)) == Xor(b, Shr(b, k))
    ensures a == b
  {
    var d := Xor(a, b);
    ShrXor(a, b, k);
    XorInterchange(a, Shr(a, k), b, Shr(b, k));
    XorZeroIffEqual(Xor(a, Shr(a, k)), Xor(b, Shr(b, k)));
    XorZeroIffEqual(d, Shr(d, k));
    assert Shr(d, k) <= d / 2;
    XorZeroIffEqual(a, b);
  }

  lemma LowDigits(x: nat, n: nat)
    requires 0 < n
    ensures Low(x, n) / 2 == Low(x / 2, n - 1) && Low(x, n) % 2 == x % 2
  {
  }

  lemma {:induction false} LowXor(a: nat, b: nat, n: nat)
    ensures Low(Xor(a, b), n) == Xor(Low(a, n), Low(b, n))
  {
    if n > 0 {
      XorDigits(a, b);
      LowXor(a / 2, b / 2, n - 1);
      LowDigits(a, n);
      LowDigits(b, n);
      XorDigits(Low(a, n), Low(b, n));
    }
  }

  lemma {:induction false} LowBelow(x: nat, n: nat)
    ensures Low(x, n) < Pow2(n)
  {
    if n > 0 { LowBelow(x / 2, n - 1); }
  }

  lemma XorDouble(a: nat, b: nat)
    ensures Xor(2 * a, 2 * b) == 2 * Xor(a, b)
  {
    XorDigits(2 * a, 2 * b);
  }

  lemma {:induction false} ShlXor(a: nat, b: nat, k: nat)
    ensures Shl(Xor(a, b), k) == Xor(Shl(a, k), Shl(b, k))
    decreases k
  {
    if k > 0 {
      LowXor(a, b, 31);
      XorDouble(Low(a, 31), Low(b, 31));
      ShlXor(2 * Low(a, 31), 2 * Low(b, 31), k - 1);
    }
  }

  lemma {:induction false} ShlBelow(x: nat, k: nat)
    requires x < TWO32
    ensures Shl(x, k) < TWO32
    decreases k
  {
    if k > 0 {
      Pow32();
      LowBelow(x, 31);
      ShlBelow(2 * Low(x, 31), k - 1);
    }
  }

  /** The low j bits are all zero. */
  predicate LowZero(x: nat, j: nat) {
    j == 0 || (x % 2 == 0 && LowZero(x / 2, j - 1))
  }

  lemma {:induction false} LowKeepsZeros(x: nat, j: nat, n: nat)
    requires LowZero(x, j) && j <= n
    ensures LowZero(Low(x, n), j)
  {
    if j > 0 {
      LowDigits(x, n);
      hide Low;
      LowKeepsZeros(x / 2, j - 1, n - 1);
    }
  }

  lemma DoubledZeros(y: nat, j: nat)
    requires LowZero(y, j)
    ensures LowZero(2 * y, j + 1)
  {
    assert 2 * y / 2 == y;
  }

  lemma {:induction false} ShlKeepsZeros(x: nat, k: nat, j: nat)
    requires LowZero(x, j) && j <= 31
    ensures LowZero(Shl(x, k), j) && (k > 0 ==> LowZero(Shl(x, k), j + 1))
    decreases k
  {
    if k > 0 {
      hide Low;
      LowKeepsZeros(x, j, 31);
      DoubledZeros(Low(x, 31), j);
      FewerZeros(2 * Low(x, 31), j + 1, j);
      ShlKeepsZeros(2 * Low(x, 31), k - 1, j);
    }
  }

  lemma {:induction false} FewerZeros(x: nat, i: nat, j: nat)
    requires LowZero(x, i) && j <= i
    ensures LowZero(x, j)
  {
    if j > 0 { FewerZeros(x / 2, i - 1, j - 1); }
  }

  lemma {:induction false} AllZero(x: nat, n: nat)
    requires LowZero(x, n) && x < Pow2(n)
    ensures x == 0
  {
    if n > 0 { AllZero(x / 2, n - 1); }
  }

  /** A word equal to its own left shift has ever more trailing zeros, so it is 0. */
  lemma {:induction false} FixedShift(d: nat, k: nat, j: nat)
    requires 0 < k && d == Shl(d, k) && j <= 32
    ensures LowZero(d, j)
  {
    if j > 0 {
      FixedShift(d, k, j - 1);
      ShlKeepsZeros(d, k, j - 1);
    }
  }

  /** x ^ (x << k) is injective on words for k >= 1. */
  lemma XorShlInjective(a: nat, b: nat, k: nat)
    requires a < TWO32 && b < TWO32 && 0 < k && Xor(a, Shl(a, k)) == Xor(b, Shl(b, k))
    ensures a == b
  {
    var d := Xor(a, b);
    ShlXor(a, b, k);
    XorInterchange(a, Shl(a, k), b, Shl(b, k));
    XorZeroIffEqual(Xor(a, Shl(a, k)), Xor(b, Shl(b, k)));
    XorZeroIffEqual(d, Shl(d, k));
    FixedShift(d, k, 32);
    Pow32();
    XorBelow(a, b, 32);
    AllZero(d, 32);
    XorZeroIffEqual(a, b);
  }

  // ---- wrapping multiplication -------------------------------------------------------------

  function Imul(x: nat, c: nat): (r: nat)
    ensures r < TWO32
  {
    (x * c) % 0x1_0000_0000
  }

  lemma AddLow(p: nat, x: nat)
    ensures (p + x) % 0x1_0000_0000 == (p % 0x1_0000_0000 + x) % 0x1_0000_0000
  {
  }

  /** Repeated addition modulo 2^32. */
  lemma ImulNext(x: nat, c: nat)
    ensures Imul(x, 0) == 0 && Imul(x, c + 1) == (Imul(x, c) + x) % 0x1_0000_0000
  {
    MulAdd(c, 1, x);
    assert x * (c + 1) == (c + 1) * x && x * c == c * x && x * 0 == 0;
    AddLow(c * x, x);
  }

  lemma {:induction false} OddCancel(d: nat, c: nat, n: nat, q: nat)
    requires c % 2 == 1 && d * c == q * Pow2(n)
    ensures d % Pow2(n) == 0
  {
    if n > 0 {
      var p := Pow2(n - 1);
      assert Pow2(n) == 2 * p;
      hide Pow2;
      HalveProduct(d, c, q, p);
      OddCancel(d / 2, c, n - 1, q);
      DoubleMultiple(d, p);
    }
  }

  lemma HalveProduct(d: nat, c: nat, q: nat, p: nat)
    requires c % 2 == 1 && d * c == q * (2 * p)
    ensures d == 2 * (d / 2) && (d / 2) * c == q * p
  {
    var e := d / 2;
    assert q * (2 * p) == 2 * (q * p);
    OddTimes(d, c);
    assert (2 * e) * c == 2 * (e * c);
  }

  lemma DoubleMultiple(d: nat, p: nat)
    requires 0 < p && d == 2 * (d / 2) && (d / 2) % p == 0
    ensures d % (2 * p) == 0
  {
    var e := d / 2;
    var k := e / p;
    assert e == k * p;
    assert d == k * (2 * p);
    MulMod(k, 2 * p);
  }

  lemma OddTimes(d: nat, c: nat)
    requires c % 2 == 1 && (d * c) % 2 == 0
    ensures d % 2 == 0
  {
    var e, g, h := d / 2, c / 2, d % 2;
    assert d * c == 2 * (e * c + h * g) + h by { assert (2 * e + h) * c == 2 * (e * c) + h * c; }
  }

  /** Multiplication by an odd constant is injective on words. */
  lemma ImulInjective(a: nat, b: nat, c: nat)
    requires a < TWO32 && b < TWO32 && c % 2 == 1 && Imul(a, c) == Imul(b, c)
    ensures a == b
  {
    if a < b { ImulOrdered(a, b, c); }
    if b < a { ImulOrdered(b, a, c); }
  }

  lemma ImulOrdered(a: nat, b: nat, c: nat)
    requires a <= b < TWO32 && c % 2 == 1 && Imul(a, c) == Imul(b, c)
    ensures a == b
  {
    Pow32();
    var q := b * c / 0x1_0000_0000 - a * c / 0x1_0000_0000;
    assert (b - a) * c == b * c - a * c == q * 0x1_0000_0000;
    assert q >= 0 by { assert (b - a) * c >= 0; }
    OddCancel(b - a, c, 32, q);
  }

  lemma XorInRange(a: nat, b: nat)
    requires a < TWO32 && b < TWO32
    ensures Xor(a, b) < TWO32
  {
    Pow32();
    XorBelow(a, b, 32);
  }

  lemma XorShrInRange(x: nat, k: nat)
    requires x < TWO32
    ensures Xor(x, Shr(x, k)) < TWO32
  {
    XorInRange(x, Shr(x, k));
  }

  lemma {:induction false} XorCommutes(a: nat, b: nat)
    ensures Xor(a, b) == Xor(b, a)
    decreases a + b
  {
    if a > 0 && b > 0 { XorCommutes(a / 2, b / 2); }
  }
}
