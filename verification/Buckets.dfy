/**
 Scaling a 32-bit word h to a target t = h / 2^32 * W and taking the interval [lo, hi) it falls in: over all
 2^32 words each interval is hit in proportion to its width, to within one word.
 */
module Buckets {
  import opened Seqs
  import opened Arith
  import opened FiniteSets
  import opened Words

  /** lo <= h / 2^32 * W < hi, cross-multiplied. */
  predicate InBucket(h: nat, lo: int, hi: int, W: int) {
    lo * 0x1_0000_0000 <= h * W < hi * 0x1_0000_0000
  }

  /** Scaling a word by W lands below W. */
  lemma ScaledBelow(h: Word, W: nat)
    requires 0 < W
    ensures 0 <= h * W < W * 0x1_0000_0000
  {
    MulNonNegative(0x1_0000_0000 - h - 1, W);
    MulDistribute(0x1_0000_0000 - 1, h, W);
  }

  ghost function Bucket(lo: nat, hi: nat, W: nat): (s: set<int>) {
    set h: nat | h in Below(TWO32) && InBucket(h, lo, hi, W)
  }

  /** `count` is `width` / W of all 2^32 words, to within one word. */
  predicate NearShare(count: nat, width: nat, W: int) {
    width * 0x1_0000_0000 - W < count * W < width * 0x1_0000_0000 + W
  }

  /** The least h with a <= h*W. */
  function CeilDiv(a: nat, W: nat): (r: nat)
    requires 0 < W
  {
    (a + W - 1) / W
  }

  lemma CeilDivMeans(a: nat, W: nat, h: nat)
    requires 0 < W
    ensures a <= h * W <==> CeilDiv(a, W) <= h
    ensures a <= CeilDiv(a, W) * W < a + W
  {
    var c := CeilDiv(a, W);
    assert c * W == a + W - 1 - (a + W - 1) % W;
    if h < c {
      MulNonNegative(c - 1 - h, W);
      MulSplit(c, h, W);
    } else {
      MulNonNegative(h - c, W);
      MulDistribute(h, c, W);
    }
  }

  lemma {:induction false} IntervalSize(a: nat, b: nat)
    requires a <= b
    ensures |Below(b) - Below(a)| == b - a
  {
    if a < b {
      IntervalSize(a, b - 1);
      assert Below(b) - Below(a) == (Below(b - 1) - Below(a)) + {b - 1};
    } else {
      assert Below(b) - Below(a) == {};
    }
  }

  /** A bucket of width hi - lo holds (hi - lo) * 2^32 / W words, to within one. */
  lemma BucketIsProportional(lo: nat, hi: nat, W: nat)
    requires lo <= hi <= W && 0 < W
    ensures NearShare(|Bucket(lo, hi, W)|, hi - lo, W)
  {
    var a, b := CeilDiv(lo * 0x1_0000_0000, W), CeilDiv(hi * 0x1_0000_0000, W);
    CeilDivMeans(lo * 0x1_0000_0000, W, a);
    CeilDivMeans(hi * 0x1_0000_0000, W, TWO32);
    CeilDivMeans(lo * 0x1_0000_0000, W, b);
    assert hi * 0x1_0000_0000 <= 0x1_0000_0000 * W;
    assert Bucket(lo, hi, W) == Below(b) - Below(a) by {
      forall h: nat
        ensures InBucket(h, lo, hi, W) <==> a <= h < b
      {
        CeilDivMeans(lo * 0x1_0000_0000, W, h);
        CeilDivMeans(hi * 0x1_0000_0000, W, h);
      }
    }
    IntervalSize(a, b);
    MulDistribute(b, a, W);
  }

  lemma UnitShare(count: nat, W: nat)
    requires 0 < W && NearShare(count, 1, W)
    ensures TWO32 / W <= count <= TWO32 / W + 1
  {
    var q := TWO32 / W;
    assert q * W <= TWO32 < (q + 1) * W;
    assert (count + 1) * W == count * W + W && (q + 2) * W == (q + 1) * W + W;
    MulCancelStrict(q, count + 1, W);
    MulCancelStrict(count, q + 2, W);
  }

  lemma UnitBucket(k: nat, W: nat)
    requires k < W
    ensures TWO32 / W <= |Bucket(k, k + 1, W)| <= TWO32 / W + 1
  {
    BucketIsProportional(k, k + 1, W);
    UnitShare(|Bucket(k, k + 1, W)|, W);
  }

  /** The index whose cumulative interval of `weights` holds the target x / 2^32 * Sum(weights). */
  ghost predicate Hits(weights: seq<nat>, x: nat, i: int) {
    0 <= i < |weights| && weights[i] > 0 && InBucket(x, SumTo(weights, i), SumTo(weights, i + 1), Sum(weights))
  }

  lemma {:induction false} SumToMonotone(s: seq<nat>, i: nat, j: nat)
    requires i <= j <= |s|
    ensures 0 <= SumTo(s, i) <= SumTo(s, j)
  {
    SumToNonNegative(s, i);
    if i < j { SumToMonotone(s, i, j - 1); }
  }

  /** A target below the total lies in at most one interval. */
  lemma HitsUnique(weights: seq<nat>, x: nat, i: int, j: int)
    requires Hits(weights, x, i) && Hits(weights, x, j)
    ensures i == j
  {
    if i < j { SumToMonotone(weights, i + 1, j); }
    if j < i { SumToMonotone(weights, j + 1, i); }
  }

  ghost function Hitters(weights: seq<nat>, i: nat): (s: set<int>)
    ensures forall h :: h in s ==> 0 <= h < TWO32
  {
    set h: nat | h in Below(TWO32) && Hits(weights, h, i)
  }

  /** Index i is hit by weights[i] / Sum(weights) of all 2^32 words, to within one word. */
  lemma HitCount(weights: seq<nat>, i: nat)
    requires i < |weights| && weights[i] > 0
    ensures NearShare(|Hitters(weights, i)|, weights[i], Sum(weights))
  {
    var lo, hi := SumTo(weights, i), SumTo(weights, i + 1);
    SumToMonotone(weights, i, i + 1);
    SumToMonotone(weights, i + 1, |weights|);
    assert Bucket(lo, hi, Sum(weights)) == Hitters(weights, i);
    BucketIsProportional(lo, hi, Sum(weights));
  }
}
