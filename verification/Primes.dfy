/** The primality test guarding the Maglev table size, and the one fact about primes the table needs. */
module Primes {
  import opened Arith

  predicate Divides(d: int, n: int)
    requires d != 0
  {
    n % d == 0
  }

  ghost predicate IsPrime(n: int) {
    2 <= n && forall d :: 2 <= d < n ==> !Divides(d, n)
  }

  /** No divisor of n from 2 up to (not including) d. */
  ghost predicate NoneBelow(d: int, n: int) {
    forall e :: 2 <= e < d && e < n ==> !Divides(e, n)
  }

  /** Trial division by 2, 3 and 6k +- 1 up to the square root. */
  method ChIsPrime(n: int) returns (prime: bool)
    ensures prime == IsPrime(n)
  {
    if n < 2 { return false; }
    SmallPrimes();
    if n % 2 == 0 {
      if n != 2 { Composite(2, n); }
      return n == 2;
    }
    if n % 3 == 0 {
      if n != 3 { Composite(3, n); }
      return n == 3;
    }
    OddNotThree(n);
    var d := 5;
    while d * d <= n
      invariant 5 <= d && d % 6 == 5
      invariant NoneBelow(d, n)
      decreases n + 6 - d
    {
      SquareBound(d, n);
      if n % d == 0 || n % (d + 2) == 0 {
        Composite(if n % d == 0 then d else d + 2, n);
        return false;
      }
      SixMore(d, n);
      d := d + 6;
    }
    AllTried(d, n);
    return true;
  }

  lemma SmallPrimes()
    ensures IsPrime(2) && IsPrime(3)
  {
  }

  lemma OddNotThree(n: int)
    requires n % 2 != 0 && n % 3 != 0
    ensures NoneBelow(5, n)
  {
  }

  lemma Composite(d: int, n: int)
    requires 2 <= d < n && n % d == 0
    ensures !IsPrime(n)
  {
    assert Divides(d, n);
  }

  lemma SixMore(d: int, n: int)
    requires d % 6 == 5 && 0 < d && NoneBelow(d, n)
    requires n % 2 != 0 && n % 3 != 0 && n % d != 0 && n % (d + 2) != 0
    ensures NoneBelow(d + 6, n)
  {
    forall e | d <= e < d + 6 && e < n
      ensures !Divides(e, n)
    {
      SkippedCandidate(d, e, n);
    }
  }

  lemma AllTried(d: int, n: int)
    requires 2 <= d && 2 <= n < d * d && NoneBelow(d, n)
    ensures IsPrime(n)
  {
    forall e | 2 <= e < n
      ensures !Divides(e, n)
    {
      if e >= d && Divides(e, n) { CofactorBelow(d, e, n); }
    }
  }

  lemma SquareBound(d: int, n: int)
    requires 5 <= d && d * d <= n
    ensures d + 2 < n
  {
    assert d * d >= 5 * d;
  }

  /** Of d .. d+5 with d = 6k+5, only d and d+2 can divide an n coprime to 6. */
  lemma SkippedCandidate(d: int, e: int, n: int)
    requires d % 6 == 5 && 0 < d <= e < d + 6
    requires n % 2 != 0 && n % 3 != 0 && n % d != 0 && n % (d + 2) != 0
    ensures !Divides(e, n)
  {
    if e == d + 4 {
      MultipleOf(3, e, n);
    } else if e != d && e != d + 2 {
      MultipleOf(2, e, n);
    }
  }

  /** A number not divisible by f is not divisible by any multiple of f. */
  lemma MultipleOf(f: int, e: int, n: int)
    requires 0 < f && 0 < e && e % f == 0 && n % f != 0
    ensures !Divides(e, n)
  {
    if Divides(e, n) {
      var q, g := n / e, e / f;
      assert n == e * q && e == f * g;
      assert n == (g * q) * f;
      MulMod(g * q, f);
    }
  }

  /** A divisor e >= d of n < d*d has a cofactor between 2 and d-1, itself a divisor. */
  lemma CofactorBelow(d: int, e: int, n: int)
    requires 2 <= d <= e < n && n < d * d && Divides(e, n)
    ensures 2 <= n / e < d && Divides(n / e, n)
  {
    var q := n / e;
    assert n == e * q;
    if q <= 0 { MulNonNegative(e, -q); }
    if q >= d { MulMono(e, q, d); }
    MulMod(e, q);
  }

  /**
   Euclid's lemma for residues: a prime divides no product of two smaller positive factors.
   By descent on b: p mod b is a smaller non-zero factor with the same property.
   */
  lemma {:induction false} NoZeroDivisors(p: int, a: int, b: int)
    requires IsPrime(p) && 0 < a < p && 0 < b < p
    ensures (a * b) % p != 0
    decreases b
  {
    if b == 1 {
      assert a * b == a;
    } else {
      var q, r := p / b, p % b;
      assert p == q * b + r;
      assert !Divides(b, p);
      NoZeroDivisors(p, a, r);
      if (a * b) % p == 0 {
        var k := a * b / p;
        assert a * b == k * p;
        assert a * r == (a - q * k) * p by {
          assert a * r == a * (p - q * b) == a * p - q * (a * b) == a * p - q * (k * p);
        }
        MulMod(a - q * k, p);
      }
    }
  }
}
