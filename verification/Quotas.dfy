/**
 Slot quotas: m slots shared out in proportion to integer weights, the rounding leftover going one slot
 each to the first positive-weight backends. Proved: the quotas sum to m, each is within one slot of its
 exact share w*m/W, and a weight-0 backend gets nothing.
 */
module Quotas {
  import opened Seqs
  import opened Arith

  function Floors(w: seq<nat>, m: nat): (r: seq<nat>)
    requires 0 < Sum(w)
    ensures |r| == |w|
  {
    seq(|w|, b requires 0 <= b < |w| => FloorShare(w[b], m, Sum(w)))
  }

  function FloorShare(weight: nat, m: nat, total: int): (r: nat)
    requires 0 < total
  {
    weight * m / total
  }

  function Leftover(w: seq<nat>, m: nat): int
    requires 0 < Sum(w)
  {
    m - Sum(Floors(w, m))
  }

  /** Backend b's quota: its floor, plus one if it is among the first `Leftover` positive backends. */
  function Quota(w: seq<nat>, m: nat, b: nat): (r: nat)
    requires 0 < Sum(w) && b < |w|
  {
    Floors(w, m)[b] + (if w[b] > 0 && Positives(w, b) < Leftover(w, m) then 1 else 0)
  }

  function AllQuotas(w: seq<nat>, m: nat): (r: seq<nat>)
    requires 0 < Sum(w)
    ensures |r| == |w|
  {
    seq(|w|, b requires 0 <= b < |w| => Quota(w, m, b))
  }

  lemma FloorShareBounds(weight: nat, m: nat, total: int)
    requires 0 < total
    ensures weight * m - total < FloorShare(weight, m, total) * total <= weight * m
    ensures weight == 0 ==> FloorShare(weight, m, total) == 0
    ensures weight > 0 ==> weight * m + 1 - total <= FloorShare(weight, m, total) * total
  {
  }

  /** The floors miss m by less than one slot per positive backend. */
  lemma {:induction false} FloorsBounds(w: seq<nat>, m: nat, n: nat)
    requires 0 < Sum(w) && n <= |w|
    ensures SumTo(Floors(w, m), n) * Sum(w) <= SumTo(w, n) * m
    ensures SumTo(w, n) * m <= (SumTo(Floors(w, m), n) + Positives(w, n)) * Sum(w)
  {
    if n > 0 {
      FloorsBounds(w, m, n - 1);
      FloorStep(SumTo(Floors(w, m), n - 1), SumTo(w, n - 1), Positives(w, n - 1), w[n - 1], m, Sum(w));
    }
  }

  lemma FloorStep(s: int, t: int, p: int, x: nat, m: nat, total: int)
    requires 0 < total && s * total <= t * m <= (s + p) * total
    ensures var f, q := FloorShare(x, m, total), if x > 0 then 1 else 0;
      (s + f) * total <= (t + x) * m <= (s + f + (p + q)) * total
  {
    var f, q := FloorShare(x, m, total), if x > 0 then 1 else 0;
    FloorShareBounds(x, m, total);
    MulAdd(s, f, total);
    MulAdd(t, x, m);
    MulAdd(s + p, f + q, total);
    MulAdd(f, q, total);
    assert s + f + (p + q) == s + p + (f + q);
  }

  lemma LeftoverBounds(w: seq<nat>, m: nat)
    requires 0 < Sum(w)
    ensures 0 <= Leftover(w, m) <= Positives(w, |w|)
  {
    FloorsBounds(w, m, |w|);
    var total, s, p := Sum(w), Sum(Floors(w, m)), Positives(w, |w|);
    assert total * m == m * total;
    MulCancel(s, m, total);
    MulCancel(m, s + p, total);
  }

  lemma {:induction false} QuotaPrefixSum(w: seq<nat>, m: nat, n: nat)
    requires 0 < Sum(w) && n <= |w| && 0 <= Leftover(w, m)
    ensures SumTo(AllQuotas(w, m), n) == SumTo(Floors(w, m), n) +
      (if Positives(w, n) < Leftover(w, m) then Positives(w, n) else Leftover(w, m))
  {
    if n > 0 { QuotaPrefixSum(w, m, n - 1); }
  }

  /** Every slot is given out: the quotas sum to exactly m. */
  lemma QuotasSumToTable(w: seq<nat>, m: nat)
    requires 0 < Sum(w)
    ensures Sum(AllQuotas(w, m)) == m
  {
    LeftoverBounds(w, m);
    QuotaPrefixSum(w, m, |w|);
  }

  lemma {:induction false} PositivesGrow(w: seq<nat>, a: nat, b: nat)
    requires a <= b <= |w|
    ensures Positives(w, a) <= Positives(w, b)
    decreases b
  {
    if a < b { PositivesGrow(w, a, b - 1); }
  }

  /** The leftover goes in index order: whoever is rounded up, so is every positive-weight backend before it. */
  lemma LeftoverGoesFirst(w: seq<nat>, m: nat, a: nat, b: nat)
    requires 0 < Sum(w) && a < b < |w| && w[a] > 0 && Quota(w, m, b) > w[b] * m / Sum(w)
    ensures Quota(w, m, a) == w[a] * m / Sum(w) + 1
  {
    PositivesGrow(w, a, b);
  }

  /** Quota rule: strictly within one slot of the exact share w[b]*m/W, and nothing for a removed backend. */
  lemma QuotaIsProportional(w: seq<nat>, m: nat, b: nat)
    requires 0 < Sum(w) && b < |w|
    ensures w[b] * m - Sum(w) < Quota(w, m, b) * Sum(w) <= w[b] * m + Sum(w)
    ensures Quota(w, m, b) == w[b] * m / Sum(w) || Quota(w, m, b) == w[b] * m / Sum(w) + 1
    ensures w[b] == 0 ==> Quota(w, m, b) == 0
  {
    var total, f := Sum(w), Floors(w, m)[b];
    FloorShareBounds(w[b], m, total);
    assert (f + 1) * total == f * total + total;
  }

  /** The quota loops: floors first, then the leftover handed out in index order. */
  method AssignQuotas(weights: array<nat>, m: nat) returns (quota: array<nat>)
    requires 0 < Sum(weights[..])
    ensures fresh(quota) && quota[..] == AllQuotas(weights[..], m)
  {
    ghost var w := weights[..];
    var n := weights.Length;
    quota := new nat[n];
    var total := 0;
    for b := 0 to n
      invariant total == SumTo(w, b)
    {
      total := total + weights[b];
    }
    var handedOut := 0;
    for b := 0 to n
      invariant forall i :: 0 <= i < b ==> quota[i] == Floors(w, m)[i]
      invariant handedOut == SumTo(Floors(w, m), b)
      invariant weights[..] == w
    {
      var q := FloorShare(weights[b], m, total);
      quota[b] := q;
      handedOut := handedOut + q;
    }
    LeftoverBounds(w, m);
    SpreadLeftover(weights, m, quota, m - handedOut);
  }

  /** Handing out the leftover round the backends, skipping weight 0: it ends within one pass. */
  method SpreadLeftover(weights: array<nat>, m: nat, quota: array<nat>, extra: nat)
    requires weights != quota && 0 < Sum(weights[..])
    requires quota[..] == Floors(weights[..], m) && extra == Leftover(weights[..], m)
    modifies quota
    ensures quota[..] == AllQuotas(weights[..], m)
  {
    ghost var w := weights[..];
    LeftoverBounds(w, m);
    var n, b, leftover := weights.Length, 0, extra;
    ghost var k := 0;
    while leftover > 0
      invariant k <= n && b == if k == n then 0 else k
      invariant leftover == if Positives(w, k) < extra then extra - Positives(w, k) else 0
      invariant forall i :: 0 <= i < k ==> quota[i] == Quota(w, m, i)
      invariant forall i :: k <= i < n ==> quota[i] == Floors(w, m)[i]
      decreases n - k
    {
      if weights[b] > 0 {
        quota[b] := quota[b] + 1;
        leftover := leftover - 1;
      }
      WrapStep(b, n);
      b := (b + 1) % n;
      k := k + 1;
    }
    forall i | k <= i < n
      ensures quota[i] == Quota(w, m, i)
    {
      PositivesMonotone(w, k, i);
    }
    assert quota[..] == AllQuotas(w, m);
  }

  lemma WrapStep(b: nat, n: nat)
    requires b < n
    ensures (b + 1) % n == if b + 1 == n then 0 else b + 1
  {
  }

  lemma {:induction false} PositivesMonotone(w: seq<nat>, a: nat, b: nat)
    requires a <= b <= |w|
    ensures Positives(w, a) <= Positives(w, b)
  {
    if a < b { PositivesMonotone(w, a, b - 1); }
  }
}
