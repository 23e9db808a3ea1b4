/**
 The seeded 32-bit xorshift generator and its scaled draw `floor(x / 2^32 * n)`: the step permutes the words
 and fixes only 0, and over all 2^32 states the n outcomes of a draw differ in frequency by at most one.
 */
module Prng {
  import opened Arith
  import opened FiniteSets
  import opened Words
  import opened Buckets

  const DEFAULT_SEED: Word := 0x9e3779b9

  /** One xorshift step: the word mixed with itself shifted left by 13, right by 17, and left by 5. */
  function Step(x: Word): (r: Word) {
    var a := Xor(x, Shl(x, 13));
    var b := Xor(a, Shr(a, 17));
    StepInRange(x);
    Xor(b, Shl(b, 5))
  }

  lemma StepInRange(x: nat)
    requires x < TWO32
    ensures var a := Xor(x, Shl(x, 13));
      var b := Xor(a, Shr(a, 17));
      a < TWO32 && b < TWO32 && Xor(b, Shl(b, 5)) < TWO32
  {
    Pow32();
    ShlBelow(x, 13);
    XorBelow(x, Shl(x, 13), 32);
    var a := Xor(x, Shl(x, 13));
    XorBelow(a, Shr(a, 17), 32);
    var b := Xor(a, Shr(a, 17));
    ShlBelow(b, 5);
    XorBelow(b, Shl(b, 5), 32);
  }

  /** The step is a permutation of the 2^32 words ... */
  lemma StepInjective(x: Word, y: Word)
    requires Step(x) == Step(y)
    ensures x == y
  {
    StepInRange(x);
    StepInRange(y);
    var a, a' := Xor(x, Shl(x, 13)), Xor(y, Shl(y, 13));
    var b, b' := Xor(a, Shr(a, 17)), Xor(a', Shr(a', 17));
    XorShlInjective(b, b', 5);
    XorShrInjective(a, a', 17);
    XorShlInjective(x, y, 13);
  }

  lemma StepOfZero()
    ensures Step(0) == 0
  {
    assert Low(0, 31) == 0 by { LowOfZero(31); }
    ShlOfZero(13);
    ShlOfZero(5);
  }

  /** ... so a non-zero state never becomes 0. */
  lemma StepKeepsNonZero(x: Word)
    requires x != 0
    ensures Step(x) != 0
  {
    StepOfZero();
    if Step(x) == 0 { StepInjective(x, 0); }
  }

  lemma {:induction false} LowOfZero(n: nat)
    ensures Low(0, n) == 0
  {
    if n > 0 { LowOfZero(n - 1); }
  }

  lemma {:induction false} ShlOfZero(k: nat)
    ensures Shl(0, k) == 0
  {
    if k > 0 {
      LowOfZero(31);
      ShlOfZero(k - 1);
    }
  }

  /** floor(x / 2^32 * n) in exact arithmetic. */
  function Scale(x: nat, n: nat): (k: nat) {
    Times(x, n) / 0x1_0000_0000
  }

  lemma ScaleIsBucket(x: Word, n: nat, k: nat)
    requires 0 < n
    ensures Scale(x, n) < n
    ensures Scale(x, n) == k <==> InBucket(x, k, k + 1, n)
  {
    TimesIsProduct(x, n);
    MulNonNegative(TWO32 - x - 1, n);
    assert x * n < n * 0x1_0000_0000;
    var q := Scale(x, n);
    assert q * 0x1_0000_0000 <= x * n < (q + 1) * 0x1_0000_0000;
  }

  /** The outcome of a draw from generator state x. */
  function Draw(x: Word, n: nat): (k: nat) {
    Scale(Step(x), n)
  }

  ghost function StatesDrawing(n: nat, k: nat): (s: set<int>) {
    set x: nat | x in Below(TWO32) && Draw(x, n) == k
  }

  ghost predicate Steps(f: nat -> nat) {
    forall x: nat :: x < TWO32 ==> f(x) == Step(x)
  }

  lemma StepAsFunction() returns (f: nat -> nat)
    ensures Injective(TWO32, f) && Steps(f)
  {
    f := (x: nat) => if x < TWO32 then Step(x) else x;
    forall x: nat, y: nat | x < TWO32 && y < TWO32 && f(x) == f(y)
      ensures x == y
    {
      StepInjective(x, y);
    }
  }

  lemma StatesAreABucket(f: nat -> nat, n: nat, k: nat)
    requires Steps(f) && 0 < n
    ensures StatesDrawing(n, k) == Preimage(TWO32, f, Bucket(k, k + 1, n))
  {
    forall x: nat | x < TWO32
      ensures Draw(x, n) == k <==> f(x) in Bucket(k, k + 1, n)
    {
      ScaleIsBucket(f(x), n, k);
    }
  }

  /** Outcome k is drawn from as many states as there are words in its bucket. */
  lemma DrawCount(n: nat, k: nat)
    requires k < n
    ensures |StatesDrawing(n, k)| == |Bucket(k, k + 1, n)|
  {
    var f := StepAsFunction();
    StatesAreABucket(f, n, k);
    PreimageSize(TWO32, f, Bucket(k, k + 1, n));
  }

  /** Every outcome in [0, n) is drawn from floor(2^32 / n) states or one more ... */
  lemma DrawShare(n: nat, k: nat)
    requires k < n
    ensures TWO32 / n <= |StatesDrawing(n, k)| <= TWO32 / n + 1
  {
    DrawCount(n, k);
    UnitBucket(k, n);
  }

  /** ... so there is no modulo bias: any two outcomes are drawn equally often, to within one. */
  lemma DrawsAreEven(n: nat, j: nat, k: nat)
    requires j < n && k < n
    ensures -1 <= |StatesDrawing(n, j)| - |StatesDrawing(n, k)| <= 1
  {
    DrawShare(n, j);
    DrawShare(n, k);
  }

  function StateAfter(x: Word, n: nat): (r: Word) {
    if n == 0 then x else Step(StateAfter(x, n - 1))
  }

  class Generator {
    const seed: Word
    var s: Word

    ghost predicate Valid()
      reads this
    {
      s != 0 && seed != 0
    }

    /** Seed 0 would stick at 0, so it means the default. */
    constructor (start: Word)
      ensures Valid() && s == seed == (if start == 0 then DEFAULT_SEED else start)
    {
      seed := if start == 0 then DEFAULT_SEED else start;
      s := if start == 0 then DEFAULT_SEED else start;
    }

    method Next() returns (x: Word)
      requires Valid()
      modifies this
      ensures Valid() && x == s == Step(old(s)) && x != 0
    {
      StepKeepsNonZero(s);
      s := Step(s);
      x := s;
    }

    method NextBelow(n: nat) returns (k: nat)
      requires Valid() && 0 < n
      modifies this
      ensures Valid() && s == Step(old(s)) && k == Draw(old(s), n) && k < n
    {
      StepKeepsNonZero(s);
      s := Step(s);
      ScaleIsBucket(s, n, 0);
      k := Scale(s, n);
    }

    method Reset()
      requires Valid()
      modifies this
      ensures Valid() && s == seed
    {
      s := seed;
    }
  }
}
