/** The few nonlinear facts the solver is not left to find by itself. */
module Arith {

  lemma MulMono(e: int, q: int, d: int)
    requires 0 <= d <= e && d <= q
    ensures e * q >= d * d
  {
    assert e * q >= d * q;
    assert d * q >= d * d;
  }

  lemma MulMod(a: int, m: int)
    requires m > 0
    ensures (a * m) % m == 0
  {
    ModUnique(a * m, m, a, 0);
  }

  lemma MulNonNegative(a: int, b: int)
    requires 0 <= a && 0 <= b
    ensures 0 <= a * b
  {
  }

  lemma StepAtLeast(k: int, m: int)
    requires k != 0 && m > 0
    ensures k * m >= m || k * m <= -m
  {
    if k > 0 {
      MulNonNegative(k - 1, m);
    } else {
      MulNonNegative(-k - 1, m);
    }
  }

  /** Quotient and remainder are unique. */
  lemma ModUnique(x: int, m: int, q: int, r: int)
    requires m > 0 && 0 <= r < m && x == q * m + r
    ensures x % m == r && x / m == q
  {
    var q', r' := x / m, x % m;
    assert x == q' * m + r';
    var k := q - q';
    assert k * m == r' - r by { assert k * m == q * m - q' * m; }
    if k != 0 { StepAtLeast(k, m); }
  }

  lemma MulCancel(a: int, b: int, t: int)
    requires 0 < t && a * t <= b * t
    ensures a <= b
  {
    if a > b {
      MulNonNegative(a - b - 1, t);
      MulSplit(a, b, t);
    }
  }

  lemma MulSplit(a: int, b: int, t: int)
    ensures a * t == b * t + (a - b - 1) * t + t
  {
  }

  lemma MulCancelStrict(a: int, b: int, t: int)
    requires 0 < t && a * t < b * t
    ensures a < b
  {
    if a >= b {
      MulNonNegative(a - b, t);
      MulDistribute(a, b, t);
    }
  }

  lemma MulDistribute(a: int, b: int, t: int)
    ensures (a - b) * t == a * t - b * t
  {
  }

  lemma MulAdd(a: int, b: int, t: int)
    ensures (a + b) * t == a * t + b * t
  {
  }

  /** a*n as repeated addition: a product the solver carries as a name until `TimesIsProduct` is called. */
  function Times(a: nat, n: nat): (r: nat) {
    if n == 0 then 0 else Times(a, n - 1) + a
  }

  lemma {:induction false} TimesIsProduct(a: nat, n: nat)
    ensures Times(a, n) == a * n
  {
    if n > 0 { TimesIsProduct(a, n - 1); }
  }

  /** x, or 0 when x is negative: a note-taking balancer's total after a note. */
  function Clamped(x: int): (r: nat)
    ensures r >= x && (r == 0 || r == x)
  {
    if x > 0 then x else 0
  }
}
