/** Initial segments of the naturals, and counting through an injection. */
module FiniteSets {
  import opened Arith

  predicate IsBelow(c: int, m: nat) {
    0 <= c < m
  }

  /** {0, ..., m-1} */
  ghost function Below(m: nat): (s: set<int>)
    ensures forall c :: c in s <==> 0 <= c < m
  {
    set c | 0 <= c < m && IsBelow(c, m)
  }

  lemma {:induction false} BelowSize(m: nat)
    ensures |Below(m)| == m
  {
    if m == 0 {
      assert Below(0) == {};
    } else {
      BelowSize(m - 1);
      assert Below(m) == Below(m - 1) + {m - 1};
    }
  }

  lemma SubsetOfSameSize<T>(a: set<T>, b: set<T>)
    requires a <= b && |a| == |b|
    ensures a == b
  {
    assert b == a + (b - a);
    assert |a + (b - a)| == |a| + |b - a|;
  }

  ghost predicate Injective(n: nat, f: nat -> nat) {
    && (forall x :: 0 <= x < n ==> 0 <= f(x) < n)
    && (forall x, y :: 0 <= x < n && 0 <= y < n && f(x) == f(y) ==> x == y)
  }

  ghost function Image(k: nat, f: nat -> nat): (s: set<int>) {
    if k == 0 then {} else Image(k - 1, f) + {f(k - 1)}
  }

  /** Membership in the image, one way and the other. */
  lemma {:induction false} ImageMember(k: nat, f: nat -> nat, y: int)
    ensures y in Image(k, f) <==> exists x :: 0 <= x < k && f(x) == y
  {
    if k > 0 {
      ImageMember(k - 1, f, y);
      if y == f(k - 1) { assert 0 <= k - 1 < k && f(k - 1) == y; }
    }
  }

  lemma {:induction false} ImageSize(n: nat, k: nat, f: nat -> nat)
    requires Injective(n, f) && k <= n
    ensures |Image(k, f)| == k
  {
    if k > 0 {
      ImageSize(n, k - 1, f);
      ImageMember(k - 1, f, f(k - 1));
    }
  }

  lemma ImageIsBelow(n: nat, f: nat -> nat)
    requires Injective(n, f)
    ensures Image(n, f) == Below(n)
  {
    ImageSize(n, n, f);
    BelowSize(n);
    forall y | y in Image(n, f) ensures y in Below(n) {
      ImageMember(n, f, y);
    }
    SubsetOfSameSize(Image(n, f), Below(n));
  }

  /** An injection of {0, ..., n-1} into itself hits everything. */
  lemma Surjective(n: nat, f: nat -> nat, y: nat) returns (x: nat)
    requires Injective(n, f) && y < n
    ensures x < n && f(x) == y
  {
    ImageIsBelow(n, f);
    ImageMember(n, f, y);
    x :| 0 <= x < n && f(x) == y;
  }

  ghost function Preimage(n: nat, f: nat -> nat, s: set<int>): (p: set<int>) {
    set x: nat | x in Below(n) && f(x) in s
  }

  /** So as many arguments map into s as s has members. */
  lemma {:induction false} PreimageSize(n: nat, f: nat -> nat, s: set<int>)
    requires Injective(n, f) && forall y :: y in s ==> 0 <= y < n
    ensures |Preimage(n, f, s)| == |s|
    decreases |s|
  {
    if y :| y in s {
      var x := Surjective(n, f, y);
      PreimageSize(n, f, s - {y});
      assert Preimage(n, f, s) == Preimage(n, f, s - {y}) + {x};
    } else {
      assert Preimage(n, f, s) == s == {};
    }
  }

  // ---- residues ----------------------------------------------------------------------------

  /** The q-th number with residue c modulo m. */
  function Nth(c: nat, m: nat, q: nat): (x: nat) {
    q * m + c
  }

  lemma NthMeans(c: nat, m: nat, q: nat, x: int)
    requires c < m
    ensures x == Nth(c, m, q) <==> 0 <= x && x % m == c && x / m == q
  {
    ModUnique(Nth(c, m, q), m, q, c);
    assert x == (x / m) * m + x % m;
  }

  /** The first k numbers with residue c modulo m. */
  ghost function WithResidue(c: nat, m: nat, k: nat): (s: set<int>) {
    if k == 0 then {} else WithResidue(c, m, k - 1) + {Nth(c, m, k - 1)}
  }

  lemma {:induction false} WithResidueMember(c: nat, m: nat, k: nat, x: int)
    requires c < m
    ensures x in WithResidue(c, m, k) <==> 0 <= x && x % m == c && x / m < k
  {
    hide Nth;
    if k > 0 {
      WithResidueMember(c, m, k - 1, x);
      NthMeans(c, m, k - 1, x);
      if 0 <= x { QuotientSign(x, m); }
    }
  }

  lemma QuotientSign(x: nat, m: nat)
    requires 0 < m
    ensures 0 <= x / m
  {
  }

  lemma {:induction false} WithResidueSize(c: nat, m: nat, k: nat)
    requires c < m
    ensures |WithResidue(c, m, k)| == k
  {
    if k > 0 {
      WithResidueSize(c, m, k - 1);
      WithResidueMember(c, m, k - 1, Nth(c, m, k - 1));
      NthMeans(c, m, k - 1, Nth(c, m, k - 1));
    }
  }

  lemma BelowByQuotient(x: nat, n: nat, m: nat)
    requires 0 < m
    ensures x < n <==> x / m < n / m || (x / m == n / m && x % m < n % m)
  {
    var d, q := x / m, n / m;
    assert x == d * m + x % m && n == q * m + n % m;
    if d < q { BlockStep(d, q, m); } else if q < d { BlockStep(q, d, m); }
  }

  lemma BlockStep(a: nat, b: nat, m: nat)
    requires a < b
    ensures a * m + m <= b * m
  {
    MulNonNegative(b - a - 1, m);
    MulDistribute(b, a + 1, m);
  }

  /** How many numbers below n have residue c modulo m. */
  function Blocks(n: nat, m: nat, c: nat): (k: nat)
    requires 0 < m
    ensures n / m <= k <= n / m + 1
  {
    if c < n % m then n / m + 1 else n / m
  }

  lemma InBlocks(x: nat, n: nat, m: nat, c: nat)
    requires 0 < m && x % m == c
    ensures x < n <==> x / m < Blocks(n, m, c)
  {
    BelowByQuotient(x, n, m);
  }

  /** Of the numbers below n, floor(n / m) or one more have residue c modulo m. */
  lemma ResidueShare(n: nat, m: nat, c: nat)
    requires c < m
    ensures n / m <= |set x: nat | x in Below(n) && x % m == c| <= n / m + 1
  {
    hide WithResidue, Blocks;
    var s, k := (set x: nat | x in Below(n) && x % m == c), Blocks(n, m, c);
    WithResidueSize(c, m, k);
    forall x: int ensures x in s <==> x in WithResidue(c, m, k) {
      WithResidueMember(c, m, k, x);
      if 0 <= x && x % m == c { InBlocks(x, n, m, c); }
    }
    assert s == WithResidue(c, m, k);
  }
}
