/**
 Smooth weighted round-robin: every pick credits each candidate its weight, takes the richest and charges it
 the total. Proved: over a cycle of W = total eligible weight picks each endpoint is chosen exactly
 `weight` times and all credit is back to zero, no prefix exceeds the rounded-up share, and the cached
 total stays exact under any mix of picks, flaps and reweights.
 */
module SmoothWrr {
  import opened Seqs
  import opened Arith
  import opened Eligibility

  function Credited(cur: seq<int>, ew: seq<nat>): (r: seq<int>)
    requires |cur| == |ew|
    ensures |r| == |cur|
  {
    seq(|cur|, i requires 0 <= i < |cur| => cur[i] + ew[i])
  }

  /** The first richest candidate among the first n, or none. */
  function Richest(credit: seq<int>, ew: seq<nat>, n: nat): (b: int)
    requires n <= |credit| == |ew|
    ensures -1 <= b < n && (b >= 0 ==> ew[b] > 0)
  {
    if n == 0 then -1
    else
      var b := Richest(credit, ew, n - 1);
      if ew[n - 1] > 0 && (b < 0 || credit[n - 1] > credit[b]) then n - 1 else b
  }

  function Choice(cur: seq<int>, ew: seq<nat>): (b: int)
    requires |cur| == |ew|
    ensures -1 <= b < |ew| && (b >= 0 ==> ew[b] > 0)
  {
    if Sum(ew) <= 0 then PICK_NONE else Richest(Credited(cur, ew), ew, |ew|)
  }

  /** The accumulators after one pick. */
  function Next(cur: seq<int>, ew: seq<nat>): (r: seq<int>)
    requires |cur| == |ew|
    ensures |r| == |cur|
  {
    var b := Choice(cur, ew);
    if b < 0 then cur else Credited(cur, ew)[b := Credited(cur, ew)[b] - Sum(ew)]
  }

  /** What `Richest` means: the winner beats every candidate before it strictly and every later one weakly. */
  lemma {:induction false} RichestIsMax(credit: seq<int>, ew: seq<nat>, n: nat)
    requires n <= |credit| == |ew|
    ensures var b := Richest(credit, ew, n);
      && (b < 0 <==> forall i :: 0 <= i < n ==> ew[i] == 0)
      && (b >= 0 ==> forall i :: 0 <= i < n && ew[i] > 0 ==> credit[i] <= credit[b] && (i < b ==> credit[i] < credit[b]))
  {
    if n > 0 { RichestIsMax(credit, ew, n - 1); }
  }

  /** A pick fails exactly when no eligible endpoint has a positive weight. */
  lemma NoneIffNoShare(cur: seq<int>, ew: seq<nat>)
    requires |cur| == |ew|
    ensures Choice(cur, ew) == PICK_NONE <==> forall i :: 0 <= i < |ew| ==> ew[i] == 0
    ensures Choice(cur, ew) == PICK_NONE <==> Sum(ew) == 0
  {
    SumToNonNegative(ew, |ew|);
    if forall i :: 0 <= i < |ew| ==> ew[i] == 0 { SumToZero(ew, |ew|); }
    RichestIsMax(Credited(cur, ew), ew, |ew|);
  }

  // ---- whole runs --------------------------------------------------------------------------

  /** Accumulators after k picks with fixed shares, from `start`. */
  function Credits(start: seq<int>, ew: seq<nat>, k: nat): (r: seq<int>)
    requires |start| == |ew|
    ensures |r| == |ew|
  {
    if k == 0 then start else Next(Credits(start, ew, k - 1), ew)
  }

  /** How often endpoint i was chosen in the first k picks. */
  function Wins(start: seq<int>, ew: seq<nat>, k: nat, i: nat): (r: nat)
    requires |start| == |ew|
  {
    if k == 0 then 0
    else Wins(start, ew, k - 1, i) + (if Choice(Credits(start, ew, k - 1), ew) == i then 1 else 0)
  }

  /** Credit is what an endpoint is owed minus what it was charged; it sums to zero and no debt reaches W. */
  ghost predicate Balanced(cur: seq<int>, ew: seq<nat>) {
    && |cur| == |ew|
    && Sum(cur) == 0
    && forall i :: 0 <= i < |cur| ==> cur[i] > -Sum(ew) && (ew[i] == 0 ==> cur[i] == 0)
  }

  lemma NextBalanced(cur: seq<int>, ew: seq<nat>)
    requires Balanced(cur, ew) && Sum(ew) > 0
    ensures Choice(cur, ew) >= 0 && Balanced(Next(cur, ew), ew)
  {
    var credit, n := Credited(cur, ew), |ew|;
    SumToAdd(cur, ew, credit, n);
    RichestIsMax(credit, ew, n);
    if forall i :: 0 <= i < n ==> ew[i] == 0 { SumToZero(ew, n); }
    var b := Choice(cur, ew);
    RichestPositive(credit, ew, b);
    SumUpdate(credit, b, credit[b] - Sum(ew));
  }

  /** The credits sum to W > 0, so the richest candidate is in credit. */
  lemma RichestPositive(credit: seq<int>, ew: seq<nat>, b: nat)
    requires |credit| == |ew| && Sum(credit) > 0 && b < |ew|
    requires forall i :: 0 <= i < |ew| ==> credit[i] <= credit[b] || credit[i] == 0
    ensures credit[b] > 0
  {
    if credit[b] <= 0 {
      SumToMono(credit, Zeros(|credit|), |credit|);
      SumToZero(Zeros(|credit|), |credit|);
    }
  }

  lemma {:induction false} RunBalanced(start: seq<int>, ew: seq<nat>, k: nat)
    requires Balanced(start, ew) && Sum(ew) > 0
    ensures Balanced(Credits(start, ew, k), ew) && 0 <= Choice(Credits(start, ew, k), ew)
    decreases k
  {
    if k > 0 {
      RunBalanced(start, ew, k - 1);
      NextBalanced(Credits(start, ew, k - 1), ew);
    }
    NextBalanced(Credits(start, ew, k), ew);
  }

  /** Bookkeeping identity, from any start: credit = start + k*weight - W*wins. */
  lemma {:induction false} CreditIdentity(start: seq<int>, ew: seq<nat>, k: nat, i: nat)
    requires |start| == |ew| && Sum(ew) > 0 && i < |ew|
    ensures Credits(start, ew, k)[i] == start[i] + k * ew[i] - Sum(ew) * Wins(start, ew, k, i)
  {
    hide SumTo, Richest, Next;
    if k > 0 {
      var W, n := Sum(ew), Wins(start, ew, k - 1, i);
      CreditIdentity(start, ew, k - 1, i);
      NextAt(Credits(start, ew, k - 1), ew, i);
      Distribute(k - 1, ew[i], W, n);
    }
  }

  /** One pick moves endpoint i's credit by its weight, less the total if it was chosen. */
  lemma NextAt(cur: seq<int>, ew: seq<nat>, i: nat)
    requires |cur| == |ew| && Sum(ew) > 0 && i < |ew|
    ensures 0 <= Choice(cur, ew) && Next(cur, ew)[i] == cur[i] + ew[i] - (if Choice(cur, ew) == i then Sum(ew) else 0)
  {
    NoneIffNoShare(cur, ew);
  }

  lemma Distribute(k: int, w: int, W: int, n: int)
    ensures (k + 1) * w == k * w + w && W * (n + 1) == W * n + W
  {
  }

  lemma ZeroBalanced(ew: seq<nat>)
    requires Sum(ew) > 0
    ensures Balanced(Zeros(|ew|), ew)
  {
    SumToZero(Zeros(|ew|), |ew|);
  }

  /** At every prefix of k picks no endpoint has had more than ceil(k*w/W) of them. */
  lemma PrefixQuota(ew: seq<nat>, k: nat, i: nat)
    requires Sum(ew) > 0 && i < |ew|
    ensures Sum(ew) * Wins(Zeros(|ew|), ew, k, i) < k * ew[i] + Sum(ew)
  {
    ZeroBalanced(ew);
    RunBalanced(Zeros(|ew|), ew, k);
    CreditIdentity(Zeros(|ew|), ew, k, i);
  }

  function WinsAll(start: seq<int>, ew: seq<nat>, k: nat): (r: seq<nat>)
    requires |start| == |ew|
    ensures |r| == |ew|
  {
    seq(|ew|, i requires 0 <= i < |ew| => Wins(start, ew, k, i))
  }

  lemma WinsStep(start: seq<int>, ew: seq<nat>, k: nat)
    requires |start| == |ew| && 0 <= Choice(Credits(start, ew, k), ew)
    ensures Sum(WinsAll(start, ew, k + 1)) == Sum(WinsAll(start, ew, k)) + 1
  {
    var b, w := Choice(Credits(start, ew, k), ew), WinsAll(start, ew, k);
    SumUpdate(w, b, w[b] + 1);
    assert WinsAll(start, ew, k + 1) == w[b := w[b] + 1];
  }

  /** Every one of the k picks went to some endpoint. */
  lemma {:induction false} WinsTotal(start: seq<int>, ew: seq<nat>, k: nat)
    requires Balanced(start, ew) && Sum(ew) > 0
    ensures Sum(WinsAll(start, ew, k)) == k
  {
    hide Choice, Next, Richest;
    if k == 0 {
      SumToZero(WinsAll(start, ew, 0), |ew|);
    } else {
      WinsTotal(start, ew, k - 1);
      OneMoreWin(start, ew, k - 1);
    }
  }

  lemma OneMoreWin(start: seq<int>, ew: seq<nat>, k: nat)
    requires Balanced(start, ew) && Sum(ew) > 0
    ensures Sum(WinsAll(start, ew, k + 1)) == Sum(WinsAll(start, ew, k)) + 1
  {
    hide Next, SumTo, Richest, WinsAll;
    RunBalanced(start, ew, k);
    WinsStep(start, ew, k);
  }

  lemma CycleBound(ew: seq<nat>, i: nat)
    requires Sum(ew) > 0 && i < |ew|
    ensures Wins(Zeros(|ew|), ew, Sum(ew), i) <= ew[i]
  {
    hide Wins, Credits, SumTo;
    var W, n := Sum(ew), Wins(Zeros(|ew|), ew, Sum(ew), i);
    PrefixQuota(ew, W, i);
    MulAdd(ew[i], 1, W);
    MulCancelStrict(n, ew[i] + 1, W);
  }

  /** The cycle theorem: W picks from zero choose each endpoint exactly `weight` times ... */
  lemma CycleIsExactlyFair(ew: seq<nat>)
    requires Sum(ew) > 0
    ensures WinsAll(Zeros(|ew|), ew, Sum(ew)) == ew
  {
    var wins := WinsAll(Zeros(|ew|), ew, Sum(ew));
    ZeroBalanced(ew);
    WinsTotal(Zeros(|ew|), ew, Sum(ew));
    forall i | 0 <= i < |ew|
      ensures wins[i] <= ew[i]
    {
      CycleBound(ew, i);
    }
    SumToMono(wins, ew, |ew|);
  }

  /** ... and leave every accumulator at zero. */
  lemma CycleClearsCredit(ew: seq<nat>)
    requires Sum(ew) > 0
    ensures Credits(Zeros(|ew|), ew, Sum(ew)) == Zeros(|ew|)
  {
    var zero, W := Zeros(|ew|), Sum(ew);
    ZeroBalanced(ew);
    CycleIsExactlyFair(ew);
    forall i | 0 <= i < |ew|
      ensures Credits(zero, ew, W)[i] == 0
    {
      CreditIdentity(zero, ew, W, i);
      assert Wins(zero, ew, W, i) == WinsAll(zero, ew, W)[i] == ew[i];
    }
  }

  lemma {:induction false} RunsCompose(start: seq<int>, ew: seq<nat>, j: nat, k: nat)
    requires |start| == |ew|
    ensures Credits(start, ew, j + k) == Credits(Credits(start, ew, j), ew, k)
    ensures forall i: nat :: Wins(start, ew, j + k, i) == Wins(start, ew, j, i) + Wins(Credits(start, ew, j), ew, k, i)
  {
    if k > 0 { RunsCompose(start, ew, j, k - 1); }
  }

  /** Hence any number of whole cycles is exactly fair too. */
  lemma {:induction false} ManyCyclesAreFair(ew: seq<nat>, q: nat, i: nat)
    requires Sum(ew) > 0 && i < |ew|
    ensures Credits(Zeros(|ew|), ew, q * Sum(ew)) == Zeros(|ew|)
    ensures Wins(Zeros(|ew|), ew, q * Sum(ew), i) == q * ew[i]
  {
    hide SumTo, Richest, Next;
    if q > 0 {
      var zero, W := Zeros(|ew|), Sum(ew);
      ManyCyclesAreFair(ew, q - 1, i);
      CycleIsExactlyFair(ew);
      CycleClearsCredit(ew);
      RunsCompose(zero, ew, (q - 1) * W, W);
      assert q * W == (q - 1) * W + W && q * ew[i] == (q - 1) * ew[i] + ew[i];
      assert WinsAll(zero, ew, W)[i] == ew[i];
    }
  }

  // ---- runs that do not start from zero ----------------------------------------------------

  /** Candidates hold at least `low`, nobody else holds anything, and `low` is low enough for the richest to pay. */
  ghost predicate Held(cur: seq<int>, ew: seq<nat>, low: int, total: int) {
    && |cur| == |ew| && Sum(cur) == total
    && (forall i :: 0 <= i < |ew| ==> if ew[i] > 0 then cur[i] >= low else cur[i] == 0)
    && Positives(ew, |ew|) * (low + Sum(ew)) <= total + Sum(ew)
  }

  lemma {:induction false} AtMostEach(x: seq<int>, ew: seq<nat>, most: int, n: nat)
    requires n <= |x| == |ew|
    requires forall i :: 0 <= i < n ==> if ew[i] > 0 then x[i] <= most else x[i] == 0
    ensures SumTo(x, n) <= Positives(ew, n) * most
  {
    if n > 0 {
      AtMostEach(x, ew, most, n - 1);
      MulAdd(Positives(ew, n - 1), 1, most);
    }
  }

  lemma {:induction false} AtLeastEach(x: seq<int>, ew: seq<nat>, low: int, n: nat, i: nat)
    requires n <= |x| == |ew| && i < |x|
    requires forall j :: 0 <= j < n ==> if ew[j] > 0 then x[j] >= low else x[j] == 0
    ensures SumTo(x, n) >= Positives(ew, n) * low + (if i < n && ew[i] > 0 then x[i] - low else 0)
  {
    if n > 0 {
      AtLeastEach(x, ew, low, n - 1, i);
      MulAdd(Positives(ew, n - 1), 1, low);
    }
  }

  lemma {:induction false} SomeCandidate(ew: seq<nat>, n: nat)
    requires n <= |ew| && 0 < SumTo(ew, n)
    ensures 0 < Positives(ew, n)
  {
    if ew[n - 1] == 0 { SomeCandidate(ew, n - 1); }
  }

  /** The richest candidate holds at least an even share. */
  lemma RichestHasShare(x: seq<int>, ew: seq<nat>, share: int, b: nat)
    requires |x| == |ew| && b < |x| && 0 < Sum(ew) && Positives(ew, |ew|) * share <= Sum(x)
    requires forall i :: 0 <= i < |ew| ==> if ew[i] > 0 then x[i] <= x[b] else x[i] == 0
    ensures x[b] >= share
  {
    SomeCandidate(ew, |ew|);
    AtMostEach(x, ew, x[b], |ew|);
    MulCancel(share, x[b], Positives(ew, |ew|));
  }

  /** So it can pay the total and still hold `low`. */
  lemma RichestCanPay(cur: seq<int>, ew: seq<nat>, low: int, total: int)
    requires Held(cur, ew, low, total) && Sum(ew) > 0
    ensures var b := Choice(cur, ew); 0 <= b && Credited(cur, ew)[b] >= low + Sum(ew)
  {
    hide Positives, Richest;
    var credit := Credited(cur, ew);
    NoneIffNoShare(cur, ew);
    RichestIsMax(credit, ew, |ew|);
    SumToAdd(cur, ew, credit, |ew|);
    RichestHasShare(credit, ew, low + Sum(ew), Choice(cur, ew));
  }

  lemma NextHeld(cur: seq<int>, ew: seq<nat>, low: int, total: int)
    requires Held(cur, ew, low, total) && Sum(ew) > 0
    ensures Held(Next(cur, ew), ew, low, total)
  {
    var credit, b := Credited(cur, ew), Choice(cur, ew);
    RichestCanPay(cur, ew, low, total);
    SumToAdd(cur, ew, credit, |ew|);
    SumUpdate(credit, b, credit[b] - Sum(ew));
  }

  lemma {:induction false} RunHeld(start: seq<int>, ew: seq<nat>, low: int, total: int, k: nat)
    requires |start| == |ew| && Held(start, ew, low, total) && Sum(ew) > 0
    ensures Held(Credits(start, ew, k), ew, low, total)
  {
    hide Held, Next;
    if k > 0 {
      RunHeld(start, ew, low, total, k - 1);
      NextHeld(Credits(start, ew, k - 1), ew, low, total);
    }
  }

  /** After any k picks from any such start, a candidate's wins differ from its share by a bound that does not depend on k. */
  lemma DriftIsBounded(start: seq<int>, ew: seq<nat>, low: int, k: nat, i: nat)
    requires Held(start, ew, low, Sum(start)) && Sum(ew) > 0 && i < |ew| && ew[i] > 0
    ensures var drift := Sum(ew) * Wins(start, ew, k, i) - k * ew[i];
      start[i] - Sum(start) + (Positives(ew, |ew|) - 1) * low <= drift <= start[i] - low
  {
    RunHeld(start, ew, low, Sum(start), k);
    CreditIdentity(start, ew, k, i);
    AtLeastEach(Credits(start, ew, k), ew, low, |ew|, i);
    MulDistribute(Positives(ew, |ew|), 1, low);
  }

  function Sizes(s: seq<int>): (r: seq<nat>)
    ensures |r| == |s|
  {
    seq(|s|, i requires 0 <= i < |s| => if s[i] < 0 then -s[i] else s[i])
  }

  lemma {:induction false} SumWithin(s: seq<int>, n: nat)
    requires n <= |s|
    ensures 0 <= SumTo(Sizes(s), n) && -SumTo(Sizes(s), n) <= SumTo(s, n) <= SumTo(Sizes(s), n)
    ensures forall i :: 0 <= i < n ==> -SumTo(Sizes(s), n) <= s[i] <= SumTo(Sizes(s), n)
  {
    if n > 0 { SumWithin(s, n - 1); }
  }

  /**
   Whatever credit flaps and weight changes have left behind, while shares stay fixed every endpoint's wins stay
   within a constant of its exact share: over k picks |W*wins - k*w| <= (candidates + 1) * (|credit| + W).
   */
  lemma FairFromAnyCredit(start: seq<int>, ew: seq<nat>, k: nat, i: nat)
    requires |start| == |ew| && Sum(ew) > 0 && i < |ew|
    requires forall j :: 0 <= j < |ew| && ew[j] == 0 ==> start[j] == 0
    ensures var d := (Positives(ew, |ew|) + 1) * (Sum(Sizes(start)) + Sum(ew));
      -d <= Sum(ew) * Wins(start, ew, k, i) - k * ew[i] <= d
  {
    var A, W, c := Sum(Sizes(start)), Sum(ew), Positives(ew, |ew|);
    SumWithin(start, |start|);
    SomeCandidate(ew, |ew|);
    LowEnough(c, A, W);
    if ew[i] > 0 {
      DriftIsBounded(start, ew, -(A + W), k, i);
      DriftBound(c, A, W);
    } else {
      RunHeld(start, ew, -(A + W), Sum(start), k);
      CreditIdentity(start, ew, k, i);
      MulNonNegative(c + 1, A + W);
    }
  }

  lemma LowEnough(c: int, A: int, W: int)
    requires 0 < c && 0 <= A
    ensures c * (-(A + W) + W) <= -A
  {
    MulNonNegative(c - 1, A);
    assert c * (-A) == -A - (c - 1) * A;
  }

  lemma DriftBound(c: int, A: int, W: int)
    requires 0 < c && 0 <= A && 0 <= W
    ensures -(c + 1) * (A + W) <= -2 * A + (c - 1) * -(A + W) && 2 * A + W <= (c + 1) * (A + W)
    ensures -(c + 1) * (A + W) == -((c + 1) * (A + W))
  {
    MulNonNegative(c - 1, A + W);
    MulAdd(c - 1, 2, A + W);
    assert (c - 1) * -(A + W) == -((c - 1) * (A + W));
  }

  // ---- the balancer ------------------------------------------------------------------------

  lemma SharesReweigh(up: seq<bool>, w: seq<nat>, i: nat, v: nat)
    requires |up| <= |w| && i < |up|
    ensures EligibleWeights(up, w[i := v]) == EligibleWeights(up, w)[i := if up[i] then v else 0]
  {
  }

  class SmoothWrrBalancer {
    const base: BalancerBase
    const weights: array<nat>
    const current: array<int>
    var totalEligibleWeight: int

    ghost function Ew(): (ew: seq<nat>)
      requires base.cap <= base.eligible.Length && base.cap <= weights.Length
      reads base, base.eligible, weights
      ensures |ew| == base.cap
    {
      EligibleWeights(base.Up(), weights[..])
    }

    /** The cached total is exact, and an endpoint out of the running holds no credit. */
    ghost predicate Valid()
      reads this, base, base.eligible, weights, current
    {
      && base.Valid() && base.cap <= weights.Length && current.Length == base.cap
      && (weights as object) != current
      && totalEligibleWeight == Sum(Ew())
      && forall i :: 0 <= i < base.cap && Ew()[i] == 0 ==> current[i] == 0
    }

    constructor (capacity: nat, view: array<bool>, ws: array<nat>)
      requires 1 <= capacity <= view.Length && capacity <= ws.Length
      ensures Valid() && fresh(base) && fresh(current)
      ensures base.eligible == view && base.cap == capacity && weights == ws
      ensures current[..] == Zeros(capacity)
    {
      base := new BalancerBase(capacity, view);
      weights := ws;
      current := new int[capacity](_ => 0);
      var total := 0;
      for i := 0 to capacity
        invariant total == SumTo(EligibleWeights(view[..capacity], ws[..]), i)
      {
        if view[i] { total := total + ws[i]; }
      }
      totalEligibleWeight := total;
    }

    /** A flap moves the total and drops the endpoint's credit; a no-op keeps both. */
    method SetEligible(i: nat, up: bool)
      requires Valid() && i < base.cap
      modifies this`totalEligibleWeight, base, base.eligible, current
      ensures Valid() && base.Up() == old(base.Up())[i := up]
      ensures current[..] == if old(base.Up())[i] == up then old(current[..]) else old(current[..])[i := 0]
    {
      ghost var ew, w := Ew(), weights[..];
      EligibleWeightsFlip(base.Up(), w, i, up);
      SumUpdate(ew, i, if up then weights[i] else 0);
      var was := base.eligible[i];
      base.SetEligible(i, up);
      if was != up {
        totalEligibleWeight := if up then totalEligibleWeight + weights[i] else totalEligibleWeight - weights[i];
        current[i] := 0;
      }
    }

    /** A real weight change drops the endpoint's credit. */
    method SetWeight(i: nat, w: nat)
      requires Valid() && i < base.cap
      modifies this`totalEligibleWeight, weights, current
      ensures Valid() && weights[..] == old(weights[..])[i := w]
      ensures current[..] == if old(weights[i]) == w then old(current[..]) else old(current[..])[i := 0]
    {
      ghost var ew, ws := Ew(), weights[..];
      SharesReweigh(base.Up(), ws, i, w);
      SumUpdate(ew, i, if base.eligible[i] then w else 0);
      var before := weights[i];
      if w == before { return; }
      weights[i] := w;
      assert weights[..] == ws[i := w];
      current[i] := 0;
      if base.eligible[i] { totalEligibleWeight := totalEligibleWeight + w - before; }
    }

    /** One pick: the reference choice, and exactly its effect on the accumulators. */
    method Pick() returns (best: int)
      requires Valid()
      modifies current
      ensures Valid()
      ensures best == Choice(old(current[..]), Ew()) && current[..] == Next(old(current[..]), Ew())
    {
      hide SumTo, Richest, Credited;
      ghost var cur, ew := current[..], Ew();
      var total := totalEligibleWeight;
      NoneIffNoShare(cur, ew);
      if total <= 0 { return PICK_NONE; }
      best := CreditAll(cur, ew);
      CreditedAt(cur, ew);
      current[best] := current[best] - total;
      assert current[..] == Next(cur, ew);
    }

    /** The loop: every candidate is credited its weight, and the first richest one is remembered. */
    method CreditAll(ghost cur: seq<int>, ghost ew: seq<nat>) returns (best: int)
      requires Valid() && cur == current[..] && ew == Ew()
      modifies current
      ensures current[..] == Credited(cur, ew) && best == Richest(Credited(cur, ew), ew, base.cap)
    {
      hide SumTo;
      best := -1;
      var bestCur := 0;
      for i := 0 to base.cap
        invariant best == Richest(Credited(cur, ew), ew, i)
        invariant best >= 0 ==> bestCur == Credited(cur, ew)[best]
        invariant forall j :: 0 <= j < i ==> current[j] == Credited(cur, ew)[j]
        invariant forall j :: i <= j < base.cap ==> current[j] == cur[j]
      {
        if base.eligible[i] && weights[i] > 0 {
          var c := current[i] + weights[i];
          current[i] := c;
          if best < 0 || c > bestCur { bestCur, best := c, i; }
        }
      }
      assert current[..] == Credited(cur, ew);
    }
  }

  lemma CreditedAt(cur: seq<int>, ew: seq<nat>)
    requires |cur| == |ew|
    ensures forall i :: 0 <= i < |ew| && ew[i] == 0 ==> Credited(cur, ew)[i] == cur[i]
  {
  }
}
