/**
 Vose's alias table in exact arithmetic: each of n columns holds probability mass 1, split between its own
 index and one alias, and the in-place two-worklist build leaves every index i with total mass exactly
 w[i]*n/W. The build's bookkeeping is proved step by step; its rounding-residue drain is dead.
 */
module AliasTable {
  import opened Seqs
  import opened FiniteSets

  // ---- real sums ---------------------------------------------------------------------------

  function SumR(s: seq<real>, n: nat): (r: real)
    requires n <= |s|
  {
    if n == 0 then 0.0 else SumR(s, n - 1) + s[n - 1]
  }

  lemma {:induction false} SumRUpdate(s: seq<real>, n: nat, i: nat, v: real)
    requires n <= |s| && i < |s|
    ensures SumR(s[i := v], n) == SumR(s, n) + (if i < n then v - s[i] else 0.0)
  {
    if n > 0 { SumRUpdate(s, n - 1, i, v); }
  }

  lemma {:induction false} SumRSign(s: seq<real>, n: nat)
    requires n <= |s| && forall i :: 0 <= i < n ==> s[i] >= 0.0
    ensures SumR(s, n) >= 0.0
    ensures SumR(s, n) == 0.0 ==> forall i :: 0 <= i < n ==> s[i] == 0.0
  {
    if n > 0 { SumRSign(s, n - 1); }
  }

  // ---- columns and mass --------------------------------------------------------------------

  /** A table in the making: columns still open hold their residual mass in `scaled`. */
  datatype Columns = Columns(prob: seq<real>, alias: seq<nat>, scaled: seq<real>, open: seq<bool>)

  ghost predicate Sized(c: Columns, n: nat) {
    |c.prob| == |c.alias| == |c.scaled| == |c.open| == n
  }

  /** What closed column j gives to index i. */
  function Give(c: Columns, j: nat, i: nat): real
    requires j < |c.open| == |c.prob| == |c.alias|
  {
    if c.open[j] then 0.0
    else (if j == i then c.prob[j] else 0.0) + (if c.alias[j] == i then 1.0 - c.prob[j] else 0.0)
  }

  /** Index i's mass over the first n columns. */
  function Mass(c: Columns, i: nat, n: nat): real
    requires n <= |c.open| == |c.prob| == |c.alias|
  {
    if n == 0 then 0.0 else Mass(c, i, n - 1) + Give(c, n - 1, i)
  }

  /** How far the open columns are from holding exactly 1 each, in total. */
  function Gaps(c: Columns): (g: seq<real>)
    requires |c.open| == |c.scaled|
    ensures |g| == |c.open|
  {
    seq(|c.open|, i requires 0 <= i < |c.open| => if c.open[i] then c.scaled[i] - 1.0 else 0.0)
  }

  /** Close column s at probability p with alias a. */
  function Close(c: Columns, s: nat, p: real, a: nat): (r: Columns)
    requires s < |c.open| == |c.prob| == |c.alias|
  {
    c.(prob := c.prob[s := p], alias := c.alias[s := a], open := c.open[s := false])
  }

  lemma {:induction false} CloseMass(c: Columns, s: nat, p: real, a: nat, i: nat, n: nat)
    requires n <= |c.open| == |c.prob| == |c.alias| && s < |c.open| && c.open[s]
    ensures Mass(Close(c, s, p, a), i, n) == Mass(c, i, n) +
      (if s < n then (if s == i then p else 0.0) + (if a == i then 1.0 - p else 0.0) else 0.0)
  {
    if n > 0 { CloseMass(c, s, p, a, i, n - 1); }
  }

  lemma {:induction false} RescaleMass(c: Columns, l: nat, v: real, i: nat, n: nat)
    requires n <= |c.open| == |c.prob| == |c.alias| && l < |c.scaled|
    ensures Mass(c.(scaled := c.scaled[l := v]), i, n) == Mass(c, i, n)
  {
    if n > 0 { RescaleMass(c, l, v, i, n - 1); }
  }

  // ---- the invariant of the build ----------------------------------------------------------

  /** n / total, the factor that scales weights to mean 1. */
  function Factor(n: nat, total: nat): real
    requires 0 < total
  {
    n as real / total as real
  }

  function Scaled(weight: nat, factor: real): real {
    weight as real * factor
  }

  /** Index i's fair share of n columns: w[i]*n/W. */
  function Share(w: seq<nat>, i: nat): real
    requires i < |w| && 0 < Sum(w)
  {
    Scaled(w[i], Factor(|w|, Sum(w)))
  }

  /** Closed columns are sound: a probability, a positive-weight alias, and nothing of their own for weight 0. */
  ghost predicate SoundColumn(w: seq<nat>, c: Columns, j: nat)
    requires j < |w| && Sized(c, |w|)
  {
    && 0.0 <= c.prob[j] <= 1.0
    && c.alias[j] < |w| && w[c.alias[j]] > 0
    && (w[j] == 0 ==> c.prob[j] == 0.0)
  }

  ghost predicate Conserved(w: seq<nat>, c: Columns, i: nat)
    requires i < |w| && Sized(c, |w|) && 0 < Sum(w)
  {
    Mass(c, i, |w|) + (if c.open[i] then c.scaled[i] else 0.0) == Share(w, i)
  }

  ghost predicate Building(w: seq<nat>, c: Columns) {
    && 0 < Sum(w) && Sized(c, |w|)
    && (forall i :: 0 <= i < |w| ==> Conserved(w, c, i))
    && SumR(Gaps(c), |w|) == 0.0
    && (forall j :: 0 <= j < |w| && !c.open[j] ==> SoundColumn(w, c, j))
    && (forall j :: 0 <= j < |w| && c.open[j] ==> 0.0 <= c.scaled[j] && (w[j] == 0 ==> c.scaled[j] == 0.0))
  }

  /** The finished table: every index holds exactly its share, and weight 0 can never come up. */
  ghost predicate ExactTable(w: seq<nat>, prob: seq<real>, alias: seq<nat>) {
    var c := Columns(prob, alias, prob, seq(|w|, _ => false));
    && 0 < Sum(w) && |prob| == |alias| == |w|
    && (forall i :: 0 <= i < |w| ==> Mass(c, i, |w|) == Share(w, i))
    && (forall j :: 0 <= j < |w| ==> SoundColumn(w, c, j))
  }

  /** The outcome of a draw (column j, x out of N), x / N being compared with the column's probability. */
  function Outcome(prob: seq<real>, alias: seq<nat>, j: nat, x: nat, N: nat): nat
    requires j < |prob| == |alias|
  {
    if x as real < prob[j] * N as real then j else alias[j]
  }

  /** No draw from an exact table ever yields a weight-0 index. */
  lemma OutcomeHasWeight(w: seq<nat>, prob: seq<real>, alias: seq<nat>, j: nat, x: nat, N: nat)
    requires ExactTable(w, prob, alias) && j < |w|
    ensures Outcome(prob, alias, j, x, N) < |w| && w[Outcome(prob, alias, j, x, N)] > 0
  {
    assert SoundColumn(w, Columns(prob, alias, prob, seq(|w|, _ => false)), j);
    if w[j] == 0 { assert prob[j] * N as real == 0.0; }
  }

  // ---- what a draw from the table yields ---------------------------------------------------

  /** Of 0, ..., k-1, how many lie below p * N. */
  function Under(p: real, N: nat, k: nat): (n: nat)
    requires 0 < N
    ensures n <= k
  {
    if k == 0 then 0 else Under(p, N, k - 1) + (if (k - 1) as real < p * N as real then 1 else 0)
  }

  lemma {:induction false} UnderIsCeiling(p: real, N: nat, k: nat)
    requires 0 < N && k <= N && 0.0 <= p
    ensures Under(p, N, k) as real < p * N as real + 1.0
    ensures Under(p, N, k) == k || Under(p, N, k) as real >= p * N as real
  {
    if k == 0 {
      assert p * N as real >= 0.0;
    } else {
      UnderIsCeiling(p, N, k - 1);
    }
  }

  /** Of the draws (j, 0), ..., (j, k-1) out of N, how many yield i. */
  function ColumnDraws(prob: seq<real>, alias: seq<nat>, j: nat, i: nat, N: nat, k: nat): (n: nat)
    requires j < |prob| == |alias| && 0 < N
  {
    if k == 0 then 0
    else ColumnDraws(prob, alias, j, i, N, k - 1) + (if Outcome(prob, alias, j, k - 1, N) == i then 1 else 0)
  }

  lemma {:induction false} ColumnDrawsSplit(prob: seq<real>, alias: seq<nat>, j: nat, i: nat, N: nat, k: nat)
    requires j < |prob| == |alias| && 0 < N
    ensures ColumnDraws(prob, alias, j, i, N, k) ==
      (if j == i then Under(prob[j], N, k) else 0) + (if alias[j] == i then k - Under(prob[j], N, k) else 0)
  {
    if k > 0 { ColumnDrawsSplit(prob, alias, j, i, N, k - 1); }
  }

  /** They are the size of the set of those x. */
  lemma {:induction false} ColumnDrawsCount(prob: seq<real>, alias: seq<nat>, j: nat, i: nat, N: nat, k: nat)
    requires j < |prob| == |alias| && 0 < N
    ensures |set x: nat | x in Below(k) && Outcome(prob, alias, j, x, N) == i| == ColumnDraws(prob, alias, j, i, N, k)
  {
    hide Outcome;
    var s := set x: nat | x in Below(k) && Outcome(prob, alias, j, x, N) == i;
    if k == 0 {
      assert s == {};
    } else {
      ColumnDrawsCount(prob, alias, j, i, N, k - 1);
      var r := set x: nat | x in Below(k - 1) && Outcome(prob, alias, j, x, N) == i;
      assert s == if Outcome(prob, alias, j, k - 1, N) == i then r + {k - 1} else r;
    }
  }

  /** Of all N draws from each of the first n columns, how many yield i. */
  function Draws(prob: seq<real>, alias: seq<nat>, i: nat, N: nat, n: nat): (d: nat)
    requires n <= |prob| == |alias| && 0 < N
  {
    if n == 0 then 0 else Draws(prob, alias, i, N, n - 1) + ColumnDraws(prob, alias, n - 1, i, N, N)
  }

  /** d is N times the mass m, to within e. */
  ghost predicate Near(N: nat, m: real, d: nat, e: nat) {
    N as real * m - e as real <= d as real <= N as real * m + e as real
  }

  lemma NearAdd(N: nat, m: real, d: nat, e: nat, m': real, d': nat, e': nat)
    requires Near(N, m, d, e) && Near(N, m', d', e')
    ensures Near(N, m + m', d + d', e + e')
  {
    assert N as real * (m + m') == N as real * m + N as real * m';
  }

  lemma NearNothing(N: nat)
    ensures Near(N, 0.0, 0, 0)
  {
    assert N as real * 0.0 == 0.0;
  }

  lemma NearParts(N: nat, p: real, u: nat)
    requires 0.0 <= p <= 1.0 && u <= N && u as real < p * N as real + 1.0 && (u == N || u as real >= p * N as real)
    ensures Near(N, p, u, 1) && Near(N, 1.0 - p, N - u, 1) && Near(N, p + (1.0 - p), N, 1)
  {
    assert p * N as real <= N as real;
    assert N as real * p == p * N as real && N as real * (1.0 - p) == N as real - p * N as real;
    assert N as real * (p + (1.0 - p)) == N as real;
  }

  /** A column's N draws fall to i in proportion to the mass it gives i, to within one. */
  lemma ColumnNearGift(c: Columns, j: nat, i: nat, N: nat)
    requires j < |c.prob| == |c.alias| == |c.open| && !c.open[j] && 0 < N && 0.0 <= c.prob[j] <= 1.0
    ensures Near(N, Give(c, j, i), ColumnDraws(c.prob, c.alias, j, i, N, N), 1)
  {
    hide ColumnDraws, Under;
    var p, u := c.prob[j], Under(c.prob[j], N, N);
    ColumnDrawsSplit(c.prob, c.alias, j, i, N, N);
    UnderIsCeiling(p, N, N);
    NearParts(N, p, u);
    NearNothing(N);
    hide Near;
    if j != i && c.alias[j] != i {
      NearNone(N);
    } else if j == i && c.alias[j] == i {
      assert u + (N - u) == N;
    } else {
      assert p + 0.0 == p && 0.0 + (1.0 - p) == 1.0 - p;
    }
  }

  lemma NearNone(N: nat)
    ensures Near(N, 0.0, 0, 1) && 0.0 + 0.0 == 0.0
  {
    NearNothing(N);
  }

  lemma {:induction false} DrawsNearMass(c: Columns, i: nat, N: nat, n: nat)
    requires n <= |c.prob| == |c.alias| == |c.open| && 0 < N
    requires forall j :: 0 <= j < n ==> !c.open[j] && 0.0 <= c.prob[j] <= 1.0
    ensures Near(N, Mass(c, i, n), Draws(c.prob, c.alias, i, N, n), n)
  {
    hide Near, Give, ColumnDraws;
    if n == 0 {
      NearNothing(N);
    } else {
      DrawsNearMass(c, i, N, n - 1);
      ColumnNearGift(c, n - 1, i, N);
      NearAdd(N, Mass(c, i, n - 1), Draws(c.prob, c.alias, i, N, n - 1), n - 1,
              Give(c, n - 1, i), ColumnDraws(c.prob, c.alias, n - 1, i, N, N), 1);
    }
  }

  /**
   Sampling is weighted: of the n*N draws (column, x out of N) index i comes up n*N*w[i]/W times, to within one per
   column.
   */
  lemma DrawsAreWeighted(w: seq<nat>, prob: seq<real>, alias: seq<nat>, i: nat, N: nat)
    requires ExactTable(w, prob, alias) && i < |w| && 0 < N
    ensures Near(N, Share(w, i), Draws(prob, alias, i, N, |w|), |w|)
  {
    hide Near, Mass, Draws, Share;
    var c := Columns(prob, alias, prob, seq(|w|, _ => false));
    forall j | 0 <= j < |w|
      ensures 0.0 <= c.prob[j] <= 1.0
    {
      assert SoundColumn(w, c, j);
    }
    DrawsNearMass(c, i, N, |w|);
  }

  // ---- one pairing step --------------------------------------------------------------------

  /** Pair a deficient column s with a surplus column l: s is topped up from l. */
  function Pair(c: Columns, s: nat, l: nat): (r: Columns)
    requires s < |c.open| == |c.prob| == |c.alias| == |c.scaled| && l < |c.open|
  {
    Close(c, s, c.scaled[s], l).(scaled := c.scaled[l := Remainder(c, s, l)])
  }

  /** What column l keeps after topping s up to 1. */
  function Remainder(c: Columns, s: nat, l: nat): real
    requires s < |c.scaled| && l < |c.scaled|
  {
    c.scaled[l] + c.scaled[s] - 1.0
  }

  lemma PairMass(w: seq<nat>, c: Columns, s: nat, l: nat, i: nat)
    requires 0 < Sum(w) && Sized(c, |w|) && i < |w| && s < |w| && l < |w| && s != l && c.open[s] && c.open[l]
    requires Conserved(w, c, i)
    ensures Conserved(w, Pair(c, s, l), i)
  {
    CloseMass(c, s, c.scaled[s], l, i, |w|);
    RescaleMass(Close(c, s, c.scaled[s], l), l, c.scaled[l] + c.scaled[s] - 1.0, i, |w|);
  }

  lemma PairSound(w: seq<nat>, c: Columns, s: nat, l: nat, j: nat)
    requires Building(w, c) && s < |w| && l < |w| && j < |w| && s != l && c.open[s] && c.open[l]
    requires c.scaled[s] < 1.0 <= c.scaled[l] && !Pair(c, s, l).open[j]
    ensures SoundColumn(w, Pair(c, s, l), j)
  {
    if j != s { assert SoundColumn(w, c, j); }
  }

  lemma PairConserves(w: seq<nat>, c: Columns, s: nat, l: nat)
    requires Building(w, c) && s < |w| && l < |w| && s != l && c.open[s] && c.open[l]
    requires c.scaled[s] < 1.0 <= c.scaled[l]
    ensures Building(w, Pair(c, s, l))
  {
    forall i | 0 <= i < |w|
      ensures Conserved(w, Pair(c, s, l), i)
    {
      PairMass(w, c, s, l, i);
    }
    forall j | 0 <= j < |w| && !Pair(c, s, l).open[j]
      ensures SoundColumn(w, Pair(c, s, l), j)
    {
      PairSound(w, c, s, l, j);
    }
    PairGaps(c, s, l);
  }

  lemma PairGaps(c: Columns, s: nat, l: nat)
    requires |c.open| == |c.prob| == |c.alias| == |c.scaled| && s < |c.open| && l < |c.open| && s != l && c.open[s] && c.open[l]
    ensures SumR(Gaps(Pair(c, s, l)), |c.open|) == SumR(Gaps(c), |c.open|)
  {
    var g := Gaps(c);
    var g' := g[s := 0.0];
    SumRUpdate(g, |g|, s, 0.0);
    SumRUpdate(g', |g|, l, c.scaled[l] + c.scaled[s] - 2.0);
    assert Gaps(Pair(c, s, l)) == g'[l := c.scaled[l] + c.scaled[s] - 2.0];
  }

  // ---- the end of the pairing loop ---------------------------------------------------------

  /** Only surplus columns left: their gaps are >= 0 and sum to 0, so each holds exactly 1. */
  lemma AllFull(w: seq<nat>, c: Columns)
    requires Building(w, c) && forall i :: 0 <= i < |w| && c.open[i] ==> c.scaled[i] >= 1.0
    ensures forall i :: 0 <= i < |w| && c.open[i] ==> c.scaled[i] == 1.0
  {
    SumRSign(Gaps(c), |w|);
    forall i | 0 <= i < |w| && c.open[i]
      ensures c.scaled[i] == 1.0
    {
      assert Gaps(c)[i] == 0.0;
    }
  }

  lemma {:induction false} NegativeGaps(g: seq<real>, n: nat, s: nat)
    requires n <= |g| && s < n && g[s] < 0.0 && forall i :: 0 <= i < n ==> g[i] <= 0.0
    ensures SumR(g, n) < 0.0
  {
    NonPositiveGaps(g, n - 1);
    if s < n - 1 { NegativeGaps(g, n - 1, s); }
  }

  lemma {:induction false} NonPositiveGaps(g: seq<real>, n: nat)
    requires n <= |g| && forall i :: 0 <= i < n ==> g[i] <= 0.0
    ensures SumR(g, n) <= 0.0
  {
    if n > 0 { NonPositiveGaps(g, n - 1); }
  }

  /** Deficient columns cannot be all that is left: the small-residue drain has nothing to do. */
  lemma NoneDeficient(w: seq<nat>, c: Columns, s: nat)
    requires Building(w, c) && s < |w| && c.open[s]
    ensures exists i :: 0 <= i < |w| && c.open[i] && c.scaled[i] >= 1.0
  {
    if forall i :: 0 <= i < |w| && c.open[i] ==> c.scaled[i] < 1.0 {
      NegativeGaps(Gaps(c), |w|, s);
    }
  }

  lemma FillMass(w: seq<nat>, c: Columns, l: nat, i: nat)
    requires 0 < Sum(w) && Sized(c, |w|) && i < |w| && l < |w| && c.open[l] && c.scaled[l] == 1.0
    requires Conserved(w, c, i)
    ensures Conserved(w, Close(c, l, 1.0, l), i)
  {
    CloseMass(c, l, 1.0, l, i, |w|);
  }

  /** Closing a full column keeps the books. */
  lemma FillConserves(w: seq<nat>, c: Columns, l: nat)
    requires Building(w, c) && l < |w| && c.open[l] && c.scaled[l] == 1.0
    ensures Building(w, Close(c, l, 1.0, l))
  {
    var r := Close(c, l, 1.0, l);
    forall i | 0 <= i < |w|
      ensures Conserved(w, r, i)
    {
      FillMass(w, c, l, i);
    }
    SumRUpdate(Gaps(c), |w|, l, 0.0);
    assert Gaps(r) == Gaps(c)[l := 0.0];
    forall j | 0 <= j < |w| && !r.open[j]
      ensures SoundColumn(w, r, j)
    {
      if j != l { assert SoundColumn(w, c, j); }
    }
  }

  lemma {:induction false} MassIgnoresScaled(c: Columns, d: Columns, i: nat, n: nat)
    requires n <= |c.open| == |c.prob| == |c.alias| && d.prob == c.prob && d.alias == c.alias && d.open == c.open
    ensures Mass(c, i, n) == Mass(d, i, n)
  {
    if n > 0 { MassIgnoresScaled(c, d, i, n - 1); }
  }

  /** With every column closed the table is exact. */
  lemma ClosedIsExact(w: seq<nat>, c: Columns)
    requires Building(w, c) && forall i :: 0 <= i < |w| ==> !c.open[i]
    ensures ExactTable(w, c.prob, c.alias)
  {
    var d := Columns(c.prob, c.alias, c.prob, seq(|w|, _ => false));
    assert d.open == c.open;
    forall i | 0 <= i < |w|
      ensures Mass(d, i, |w|) == Share(w, i)
    {
      assert Conserved(w, c, i);
      MassIgnoresScaled(c, d, i, |w|);
    }
    forall j | 0 <= j < |w|
      ensures SoundColumn(w, d, j)
    {
      assert SoundColumn(w, c, j);
    }
  }

  // ---- the start ---------------------------------------------------------------------------

  /** All columns open, scaled to mean 1. */
  function Start(w: seq<nat>, prob: seq<real>, alias: seq<nat>): (c: Columns)
    requires 0 < Sum(w)
  {
    Columns(prob, alias, seq(|w|, i requires 0 <= i < |w| => Share(w, i)), seq(|w|, _ => true))
  }

  lemma {:induction false} StartGaps(w: seq<nat>, c: Columns, n: nat)
    requires 0 < Sum(w) && n <= |w| && c == Start(w, c.prob, c.alias) && 0 <= SumTo(w, n)
    ensures SumR(Gaps(c), n) == Scaled(SumTo(w, n), Factor(|w|, Sum(w))) - n as real
  {
    if n > 0 {
      SumToNonNegative(w, n - 1);
      StartGaps(w, c, n - 1);
      ScaledAdd(SumTo(w, n - 1), w[n - 1], Factor(|w|, Sum(w)));
    }
  }

  lemma ScaledAdd(a: nat, b: nat, k: real)
    ensures Scaled(a + b, k) == Scaled(a, k) + Scaled(b, k)
  {
  }

  lemma ScaledTotal(n: nat, total: nat)
    requires 0 < total
    ensures Scaled(total, Factor(n, total)) == n as real && Factor(n, total) >= 0.0
  {
  }

  lemma {:induction false} OpenMass(c: Columns, i: nat, n: nat)
    requires n <= |c.open| == |c.prob| == |c.alias| && forall j :: 0 <= j < n ==> c.open[j]
    ensures Mass(c, i, n) == 0.0
  {
    if n > 0 { OpenMass(c, i, n - 1); }
  }

  lemma StartBuilding(w: seq<nat>, c: Columns)
    requires 0 < Sum(w) && |c.prob| == |c.alias| == |w| && c == Start(w, c.prob, c.alias)
    ensures Building(w, c)
  {
    StartGaps(w, c, |w|);
    ScaledTotal(|w|, Sum(w));
    forall i | 0 <= i < |w|
      ensures Conserved(w, c, i) && 0.0 <= c.scaled[i]
    {
      OpenMass(c, i, |w|);
    }
  }

  // ---- the two worklists -------------------------------------------------------------------

  /** `small` lists the open deficient columns and `large` the open surplus ones, each once. */
  ghost predicate Worklists(c: Columns, small: seq<nat>, large: seq<nat>) {
    && |c.open| == |c.scaled| && Distinct(small) && Distinct(large)
    && (forall k :: 0 <= k < |small| ==> small[k] < |c.open| && c.open[small[k]] && c.scaled[small[k]] < 1.0)
    && (forall k :: 0 <= k < |large| ==> large[k] < |c.open| && c.open[large[k]] && c.scaled[large[k]] >= 1.0)
    && (forall i :: 0 <= i < |c.open| && c.open[i] ==> i in small || i in large)
  }

  function Init<T>(s: seq<T>): (r: seq<T>)
    requires |s| > 0
    ensures |r| == |s| - 1
  {
    s[..|s| - 1]
  }

  function Last<T>(s: seq<T>): T
    requires |s| > 0
  {
    s[|s| - 1]
  }

  lemma InitMembers(s: seq<nat>)
    requires |s| > 0 && Distinct(s)
    ensures Distinct(Init(s)) && Last(s) !in Init(s) && forall x :: x in s <==> x in Init(s) || x == Last(s)
  {
    assert s == Init(s) + [Last(s)];
  }

  /** The worklists after the two columns on top are paired: the remainder goes back where it belongs. */
  function NextSmall(c: Columns, small: seq<nat>, large: seq<nat>): (r: seq<nat>)
    requires |small| > 0 && |large| > 0 && Last(small) < |c.scaled| && Last(large) < |c.scaled|
  {
    if Remainder(c, Last(small), Last(large)) < 1.0 then Init(small) + [Last(large)] else Init(small)
  }

  function NextLarge(c: Columns, small: seq<nat>, large: seq<nat>): (r: seq<nat>)
    requires |small| > 0 && |large| > 0 && Last(small) < |c.scaled| && Last(large) < |c.scaled|
  {
    if Remainder(c, Last(small), Last(large)) < 1.0 then Init(large) else large
  }

  lemma PairWorklists(c: Columns, small: seq<nat>, large: seq<nat>)
    requires Worklists(c, small, large) && |small| > 0 && |large| > 0 && |c.open| == |c.prob| == |c.alias|
    ensures Last(small) != Last(large)
    ensures Worklists(Pair(c, Last(small), Last(large)), NextSmall(c, small, large), NextLarge(c, small, large))
  {
    InitMembers(small);
    InitMembers(large);
    assert Distinct(NextSmall(c, small, large));
  }

  /** What the pairing loop keeps: the books, and worklists that list exactly the open columns. */
  ghost predicate InProgress(w: seq<nat>, c: Columns, small: seq<nat>, large: seq<nat>) {
    Building(w, c) && Worklists(c, small, large)
  }

  ghost predicate Shown(c: Columns, prob: array<real>, alias: array<nat>, scaled: array<real>)
    reads prob, alias, scaled
  {
    prob[..] == c.prob && alias[..] == c.alias && scaled[..] == c.scaled
  }

  // ---- the table as a function of the weights ----------------------------------------------

  datatype Work = Work(c: Columns, small: seq<nat>, large: seq<nat>)

  ghost predicate ValidWork(x: Work) {
    Worklists(x.c, x.small, x.large) && |x.c.open| == |x.c.prob| == |x.c.alias|
  }

  ghost function PairOnce(x: Work): (y: Work)
    requires ValidWork(x) && x.small != [] && x.large != []
    ensures ValidWork(y)
  {
    PairWorklists(x.c, x.small, x.large);
    Work(Pair(x.c, Last(x.small), Last(x.large)), NextSmall(x.c, x.small, x.large), NextLarge(x.c, x.small, x.large))
  }

  /** Pair until one of the worklists is empty. */
  ghost function PairAll(x: Work): (y: Work)
    requires ValidWork(x)
    ensures ValidWork(y)
    decreases |x.small| + |x.large|
  {
    if x.small == [] || x.large == [] then x else PairAll(PairOnce(x))
  }

  /** Fill every column that is left. */
  function CloseAll(c: Columns, large: seq<nat>): (r: Columns)
    requires |c.open| == |c.prob| == |c.alias| && forall k :: 0 <= k < |large| ==> large[k] < |c.open|
    ensures |r.prob| == |c.prob| && |r.alias| == |c.alias|
    decreases |large|
  {
    if large == [] then c else CloseAll(Close(c, Last(large), 1.0, Last(large)), Init(large))
  }

  /** The two stacks after the first i columns are sorted. */
  function SmallTo(w: seq<nat>, i: nat): (s: seq<nat>)
    requires 0 < Sum(w) && i <= |w|
  {
    if i == 0 then [] else if Share(w, i - 1) < 1.0 then SmallTo(w, i - 1) + [i - 1] else SmallTo(w, i - 1)
  }

  function LargeTo(w: seq<nat>, i: nat): (s: seq<nat>)
    requires 0 < Sum(w) && i <= |w|
  {
    if i == 0 then [] else if Share(w, i - 1) < 1.0 then LargeTo(w, i - 1) else LargeTo(w, i - 1) + [i - 1]
  }

  lemma {:induction false} SortedTo(w: seq<nat>, i: nat)
    requires 0 < Sum(w) && i <= |w|
    ensures Sorted(w, i, SmallTo(w, i), LargeTo(w, i))
  {
    if i > 0 {
      SortedTo(w, i - 1);
      SortOne(w, i - 1, SmallTo(w, i - 1), LargeTo(w, i - 1));
    }
  }

  ghost function StartWork(w: seq<nat>, prob: seq<real>, alias: seq<nat>): (x: Work)
    requires 0 < Sum(w) && |prob| == |alias| == |w|
    ensures ValidWork(x)
  {
    SortedTo(w, |w|);
    SortedStart(w, prob, alias, SmallTo(w, |w|), LargeTo(w, |w|));
    Work(Start(w, prob, alias), SmallTo(w, |w|), LargeTo(w, |w|))
  }

  /** What a build leaves in arrays that held `prob` and `alias`. */
  ghost function BuiltOver(w: seq<nat>, prob: seq<real>, alias: seq<nat>): (c: Columns)
    requires 0 < Sum(w) && |prob| == |alias| == |w|
    ensures |c.prob| == |c.alias| == |w|
  {
    var x := PairAll(StartWork(w, prob, alias));
    PairAllSized(StartWork(w, prob, alias));
    CloseAll(x.c, x.large)
  }

  lemma {:induction false} PairAllSized(x: Work)
    requires ValidWork(x)
    ensures |PairAll(x).c.prob| == |x.c.prob|
    decreases |x.small| + |x.large|
  {
    if x.small != [] && x.large != [] { PairAllSized(PairOnce(x)); }
  }

  /** The same but for what open columns hold, which nothing reads. */
  ghost predicate Alike(c: Columns, d: Columns) {
    && c.scaled == d.scaled && c.open == d.open
    && |c.open| == |c.prob| == |c.alias| == |d.prob| == |d.alias|
    && forall j :: 0 <= j < |c.open| && !c.open[j] ==> c.prob[j] == d.prob[j] && c.alias[j] == d.alias[j]
  }

  lemma {:induction false} PairAllAlike(x: Work, y: Work)
    requires ValidWork(x) && ValidWork(y) && Alike(x.c, y.c) && x.small == y.small && x.large == y.large
    ensures var a, b := PairAll(x), PairAll(y); Alike(a.c, b.c) && a.small == b.small && a.large == b.large
    decreases |x.small| + |x.large|
  {
    if x.small != [] && x.large != [] { PairAllAlike(PairOnce(x), PairOnce(y)); }
  }

  lemma {:induction false} CloseAllAlike(c: Columns, d: Columns, large: seq<nat>)
    requires Alike(c, d) && forall k :: 0 <= k < |large| ==> large[k] < |c.open|
    ensures Alike(CloseAll(c, large), CloseAll(d, large))
    decreases |large|
  {
    if large != [] {
      CloseAllAlike(Close(c, Last(large), 1.0, Last(large)), Close(d, Last(large), 1.0, Last(large)), Init(large));
    }
  }

  /** A build reads nothing of what the arrays held before. */
  lemma BuildsAlike(w: seq<nat>, prob: seq<real>, alias: seq<nat>, prob': seq<real>, alias': seq<nat>)
    requires 0 < Sum(w) && |prob| == |alias| == |prob'| == |alias'| == |w|
    ensures Alike(BuiltOver(w, prob, alias), BuiltOver(w, prob', alias'))
  {
    hide PairAll, CloseAll;
    var x, y := StartWork(w, prob, alias), StartWork(w, prob', alias');
    PairAllAlike(x, y);
    CloseAllAlike(PairAll(x).c, PairAll(y).c, PairAll(x).large);
  }

  /** The alias table of w: what a build leaves, whatever the arrays held before. */
  ghost predicate IsTable(w: seq<nat>, prob: seq<real>, alias: seq<nat>) {
    && 0 < Sum(w) && |prob| == |alias| == |w|
    && var c := BuiltOver(w, seq(|w|, _ => 0.0), seq(|w|, _ => 0));
    prob == c.prob && alias == c.alias
  }

  /** So it is determined by the weights. */
  lemma TableIsUnique(w: seq<nat>, prob: seq<real>, alias: seq<nat>, prob': seq<real>, alias': seq<nat>)
    requires IsTable(w, prob, alias) && IsTable(w, prob', alias')
    ensures prob == prob' && alias == alias'
  {
  }

  /** Finished columns over any start are the table of w. */
  lemma BuiltIsTable(w: seq<nat>, prob: seq<real>, alias: seq<nat>, c: Columns, large: seq<nat>)
    requires 0 < Sum(w) && |prob| == |alias| == |w| && PairAll(StartWork(w, prob, alias)) == Work(c, [], large)
    requires Sized(c, |w|) && forall k :: 0 <= k < |large| ==> large[k] < |w|
    requires var r := CloseAll(c, large); |r.open| == |w| && forall j :: 0 <= j < |w| ==> !r.open[j]
    ensures var r := CloseAll(c, large); IsTable(w, r.prob, r.alias)
  {
    hide PairAll, CloseAll, StartWork;
    BuildsAlike(w, prob, alias, seq(|w|, _ => 0.0), seq(|w|, _ => 0));
  }

  lemma PairInProgress(w: seq<nat>, c: Columns, small: seq<nat>, large: seq<nat>)
    requires InProgress(w, c, small, large) && |small| > 0 && |large| > 0
    ensures Last(small) != Last(large)
    ensures InProgress(w, Pair(c, Last(small), Last(large)), NextSmall(c, small, large), NextLarge(c, small, large))
  {
    PairWorklists(c, small, large);
    PairConserves(w, c, Last(small), Last(large));
  }

  /** The writes of one pairing. */
  method PairColumns(prob: array<real>, alias: array<nat>, scaled: array<real>, s: nat, l: nat, ghost c: Columns) returns (rem: real)
    requires prob != scaled && s != l && s < |c.open| && l < |c.open| && Sized(c, |c.open|) && Shown(c, prob, alias, scaled)
    modifies prob, alias, scaled
    ensures Shown(Pair(c, s, l), prob, alias, scaled) && rem == Remainder(c, s, l)
  {
    prob[s] := scaled[s];
    alias[s] := l;
    rem := scaled[l] + scaled[s] - 1.0;
    scaled[l] := rem;
  }

  /** Push x on a stack of height `top` holding `held`. */
  method Push(stack: array<nat>, top: nat, x: nat, ghost held: seq<nat>)
    requires top < stack.Length && stack[..top] == held
    modifies stack
    ensures stack[..top + 1] == held + [x]
  {
    stack[top] := x;
  }

  /** Pop both stacks, pair the two columns and push the remainder. */
  method PairTop(prob: array<real>, alias: array<nat>, scaled: array<real>, small: array<nat>, large: array<nat>,
                 ns: nat, nl: nat, ghost c: Columns, ghost sm: seq<nat>, ghost lg: seq<nat>)
    returns (ns': nat, nl': nat)
    requires 0 < ns <= small.Length && 0 < nl <= large.Length
    requires prob != scaled && small != large && alias != small && alias != large
    requires Sized(c, |c.open|) && Shown(c, prob, alias, scaled) && small[..ns] == sm && large[..nl] == lg
    requires Last(sm) != Last(lg) && Last(sm) < |c.open| && Last(lg) < |c.open|
    modifies prob, alias, scaled, small, large
    ensures ns' <= small.Length && nl' <= large.Length && ns' + nl' == ns + nl - 1
    ensures Shown(Pair(c, Last(sm), Last(lg)), prob, alias, scaled)
    ensures small[..ns'] == NextSmall(c, sm, lg) && large[..nl'] == NextLarge(c, sm, lg)
  {
    ns', nl' := ns - 1, nl - 1;
    var s, l := small[ns'], large[nl'];
    var rem := PairColumns(prob, alias, scaled, s, l, c);
    if rem < 1.0 {
      Push(small, ns', l, Init(sm));
      ns' := ns' + 1;
    } else {
      Push(large, nl', l, Init(lg));
      nl' := nl' + 1;
    }
  }

  /** The pairing loop; the joint height of the stacks falls every time. */
  method PairUp(ghost w: seq<nat>, prob: array<real>, alias: array<nat>, scaled: array<real>, small: array<nat>, large: array<nat>,
                ns0: nat, nl0: nat, ghost c0: Columns, ghost sm0: seq<nat>, ghost lg0: seq<nat>)
    returns (ns: nat, nl: nat, ghost c: Columns, ghost sm: seq<nat>, ghost lg: seq<nat>)
    requires small.Length == large.Length == |w| && ns0 <= |w| && nl0 <= |w|
    requires prob != scaled && small != large && alias != small && alias != large
    requires InProgress(w, c0, sm0, lg0)
    requires Shown(c0, prob, alias, scaled) && small[..ns0] == sm0 && large[..nl0] == lg0
    modifies prob, alias, scaled, small, large
    ensures ns <= |w| && nl <= |w| && (ns == 0 || nl == 0)
    ensures InProgress(w, c, sm, lg) && ValidWork(Work(c0, sm0, lg0)) && PairAll(Work(c0, sm0, lg0)) == Work(c, sm, lg)
    ensures Shown(c, prob, alias, scaled) && small[..ns] == sm && large[..nl] == lg
  {
    ns, nl, c, sm, lg := ns0, nl0, c0, sm0, lg0;
    while ns > 0 && nl > 0
      invariant ns <= |w| && nl <= |w| && InProgress(w, c, sm, lg)
      invariant PairAll(Work(c0, sm0, lg0)) == PairAll(Work(c, sm, lg))
      invariant Shown(c, prob, alias, scaled) && small[..ns] == sm && large[..nl] == lg
      decreases ns + nl
    {
      PairInProgress(w, c, sm, lg);
      ns, nl := PairTop(prob, alias, scaled, small, large, ns, nl, c, sm, lg);
      c, sm, lg := Pair(c, Last(sm), Last(lg)), NextSmall(c, sm, lg), NextLarge(c, sm, lg);
    }
  }

  lemma FillInProgress(w: seq<nat>, c: Columns, large: seq<nat>)
    requires InProgress(w, c, [], large) && |large| > 0
    ensures Sized(c, |w|) && Last(large) < |w|
    ensures var d := Close(c, Last(large), 1.0, Last(large));
      InProgress(w, d, [], Init(large)) && CloseAll(c, large) == CloseAll(d, Init(large))
  {
    AllFull(w, c);
    InitMembers(large);
    FillConserves(w, c, Last(large));
  }

  /** With no column open the table is finished. */
  lemma FilledIsExact(w: seq<nat>, c: Columns)
    requires InProgress(w, c, [], [])
    ensures ExactTable(w, c.prob, c.alias) && CloseAll(c, []) == c && |c.open| == |w| && forall j :: 0 <= j < |w| ==> !c.open[j]
  {
    ClosedIsExact(w, c);
  }

  lemma LargeInRange(w: seq<nat>, c: Columns, large: seq<nat>)
    requires InProgress(w, c, [], large)
    ensures Sized(c, |w|) && forall k :: 0 <= k < |large| ==> large[k] < |w|
  {
  }

  /** Pop one column and fill it. */
  method FillTop(prob: array<real>, alias: array<nat>, scaled: array<real>, large: array<nat>, nl: nat,
                 ghost c: Columns, ghost lg: seq<nat>)
    requires 0 < nl <= large.Length && large[..nl] == lg && prob != scaled && alias != large
    requires Sized(c, |c.open|) && Shown(c, prob, alias, scaled) && Last(lg) < |c.open|
    modifies prob, alias
    ensures Shown(Close(c, Last(lg), 1.0, Last(lg)), prob, alias, scaled) && large[..nl - 1] == Init(lg)
  {
    var l := large[nl - 1];
    prob[l] := 1.0;
    alias[l] := l;
  }

  /** The residue loop: every surplus column left is a full one. */
  method FillFull(ghost w: seq<nat>, prob: array<real>, alias: array<nat>, scaled: array<real>, large: array<nat>,
                  top: nat, ghost c0: Columns, ghost lg0: seq<nat>)
    requires large.Length == |w| && top <= |w| && prob != scaled && alias != large
    requires InProgress(w, c0, [], lg0)
    requires Shown(c0, prob, alias, scaled) && large[..top] == lg0
    modifies prob, alias
    ensures ExactTable(w, prob[..], alias[..])
    ensures var r := CloseAll(c0, lg0);
      prob[..] == r.prob && alias[..] == r.alias && |r.open| == |w| && forall j :: 0 <= j < |w| ==> !r.open[j]
  {
    LargeInRange(w, c0, lg0);
    hide CloseAll, InProgress, ExactTable, Shown;
    var nl := top;
    ghost var c, lg: seq<nat> := c0, lg0;
    while nl > 0
      invariant 0 <= nl <= |w| && InProgress(w, c, [], lg) && Sized(c, |w|) && large[..nl] == lg
      invariant forall k :: 0 <= k < |lg| ==> lg[k] < |w|
      invariant CloseAll(c0, lg0) == CloseAll(c, lg) && Shown(c, prob, alias, scaled)
    {
      FillInProgress(w, c, lg);
      FillTop(prob, alias, scaled, large, nl, c, lg);
      nl, c, lg := nl - 1, Close(c, Last(lg), 1.0, Last(lg)), Init(lg);
    }
    FilledIsExact(w, c);
    ShownColumns(c, prob, alias, scaled);
  }

  lemma ShownColumns(c: Columns, prob: array<real>, alias: array<nat>, scaled: array<real>)
    requires Shown(c, prob, alias, scaled)
    ensures prob[..] == c.prob && alias[..] == c.alias
  {
  }

  /** i has been pushed on the stack its share belongs to. */
  ghost predicate Sorted(w: seq<nat>, i: nat, small: seq<nat>, large: seq<nat>)
    requires 0 < Sum(w) && i <= |w|
  {
    && Distinct(small) && Distinct(large)
    && (forall k :: 0 <= k < |small| ==> small[k] < i && Share(w, small[k]) < 1.0)
    && (forall k :: 0 <= k < |large| ==> large[k] < i && Share(w, large[k]) >= 1.0)
    && (forall k :: 0 <= k < i ==> k in small || k in large)
  }

  /** Scale the weights to mean 1 and sort the columns into the two stacks. */
  method Partition(weights: array<nat>, ghost w: seq<nat>, total: nat, scaled: array<real>, small: array<nat>, large: array<nat>)
    returns (ns: nat, nl: nat)
    requires |w| <= weights.Length && weights[..|w|] == w && |w| == scaled.Length == small.Length == large.Length
    requires small != large && weights != small && weights != large && total == Sum(w) && 0 < total
    modifies scaled, small, large
    ensures ns + nl == |w| && small[..ns] == SmallTo(w, |w|) && large[..nl] == LargeTo(w, |w|)
    ensures forall i :: 0 <= i < |w| ==> scaled[i] == Share(w, i)
  {
    var n := scaled.Length;
    var factor := Factor(n, total);
    ns, nl := 0, 0;
    ghost var sm, lg := [], [];
    for i := 0 to n
      invariant ns + nl == i && small[..ns] == sm == SmallTo(w, i) && large[..nl] == lg == LargeTo(w, i)
      invariant forall k :: 0 <= k < i ==> scaled[k] == Share(w, k)
      invariant weights[..|w|] == w
    {
      assert weights[i] == weights[..|w|][i];
      var v := Scaled(weights[i], factor);
      scaled[i] := v;
      if v < 1.0 {
        Push(small, ns, i, sm);
        ns, sm := ns + 1, sm + [i];
      } else {
        Push(large, nl, i, lg);
        nl, lg := nl + 1, lg + [i];
      }
    }
  }

  lemma SortOne(w: seq<nat>, i: nat, small: seq<nat>, large: seq<nat>)
    requires 0 < Sum(w) && i < |w| && Sorted(w, i, small, large)
    ensures if Share(w, i) < 1.0 then Sorted(w, i + 1, small + [i], large) else Sorted(w, i + 1, small, large + [i])
  {
  }

  lemma SortedStart(w: seq<nat>, prob: seq<real>, alias: seq<nat>, small: seq<nat>, large: seq<nat>)
    requires 0 < Sum(w) && |prob| == |alias| == |w| && Sorted(w, |w|, small, large)
    ensures InProgress(w, Start(w, prob, alias), small, large)
  {
    StartBuilding(w, Start(w, prob, alias));
  }

  /** The whole build, for a positive weight sum; the scratch arrays are reused between builds. */
  method Build(weights: array<nat>, ghost w: seq<nat>, total: nat, prob: array<real>, alias: array<nat>, scaled: array<real>,
               small: array<nat>, large: array<nat>)
    requires |w| <= weights.Length && weights[..|w|] == w
    requires |w| == prob.Length == alias.Length == scaled.Length == small.Length == large.Length
    requires prob != scaled && small != large && alias != small && alias != large
    requires weights != small && weights != large && weights != alias && total == Sum(w) && 0 < total
    modifies prob, alias, scaled, small, large
    ensures ExactTable(w, prob[..], alias[..]) && IsTable(w, prob[..], alias[..])
  {
    ghost var p0, a0 := prob[..], alias[..];
    ghost var x := StartWork(w, p0, a0);
    StartReady(w, p0, a0);
    hide PairAll, CloseAll, SmallTo, LargeTo, StartWork, BuiltOver, IsTable, ExactTable, Building, Worklists;
    var ns, nl := Partition(weights, w, total, scaled, small, large);
    ghost var c, sm, lg;
    ns, nl, c, sm, lg := PairUp(w, prob, alias, scaled, small, large, ns, nl, x.c, x.small, x.large);
    SmallIsEmpty(w, c, sm, lg);
    FillFull(w, prob, alias, scaled, large, nl, c, lg);
    BuiltIsTable(w, p0, a0, c, lg);
  }

  lemma StartReady(w: seq<nat>, prob: seq<real>, alias: seq<nat>)
    requires 0 < Sum(w) && |prob| == |alias| == |w|
    ensures var x := StartWork(w, prob, alias);
      && InProgress(w, x.c, x.small, x.large) && x.small == SmallTo(w, |w|) && x.large == LargeTo(w, |w|)
      && x.c.prob == prob && x.c.alias == alias && Sized(x.c, |w|) && forall i :: 0 <= i < |w| ==> x.c.scaled[i] == Share(w, i)
  {
    SortedTo(w, |w|);
    SortedStart(w, prob, alias, SmallTo(w, |w|), LargeTo(w, |w|));
  }

  /** When the pairing ends no deficient column is left: the residue drain has nothing to do. */
  lemma SmallIsEmpty(w: seq<nat>, c: Columns, small: seq<nat>, large: seq<nat>)
    requires InProgress(w, c, small, large) && (|small| == 0 || |large| == 0)
    ensures small == [] && Sized(c, |w|) && forall k :: 0 <= k < |large| ==> large[k] < |w|
  {
    if |small| > 0 { NoneDeficient(w, c, small[0]); }
  }
}
