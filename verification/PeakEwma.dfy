/**
 Latency-aware power of two choices: Finagle's peak rule per endpoint, a decaying pool mean for endpoints
 without a sample, and a busy floor that makes a hung endpoint dearer with time. Nothing depends on where the
 clock's zero lies.
 */
module PeakEwma {
  import opened Words
  import opened Eligibility
  import opened TwoChoices
  import Prng

  // ---- exponential decay -------------------------------------------------------------------

  /** The laws of exp the strategy relies on; exp(a)*exp(b) is named so that the law applies where it is wanted. */
  ghost predicate IsExp(exp: real -> real) {
    && exp(0.0) == 1.0
    && (forall x :: x <= 0.0 ==> 0.0 < exp(x) <= 1.0)
    && (forall a, b :: Product(exp, a, b) == exp(a + b))
  }

  function Product(exp: real -> real, a: real, b: real): real {
    exp(a) * exp(b)
  }

  /** The exponential, the time constant, and the least reading a clock can give. */
  datatype Decay = Decay(exp: real -> real, tau: real, lowest: real)

  ghost predicate ValidDecay(c: Decay) {
    IsExp(c.exp) && c.tau > 0.0
  }

  function Weight(c: Decay, dt: real): (w: real)
    requires c.tau > 0.0
  {
    c.exp(-dt / c.tau)
  }

  lemma WeightRange(c: Decay, dt: real)
    requires ValidDecay(c)
    ensures dt >= 0.0 ==> 0.0 < Weight(c, dt) <= 1.0
    ensures Weight(c, 0.0) == 1.0
  {
    if dt >= 0.0 { QuotientSign(dt, c.tau); }
    QuotientSign(0.0, c.tau);
  }

  lemma QuotientSign(x: real, d: real)
    requires x >= 0.0 && d > 0.0
    ensures -x / d <= 0.0 && (x == 0.0 ==> -x / d == 0.0)
  {
  }

  lemma WeightAdd(c: Decay, a: real, b: real)
    requires ValidDecay(c)
    ensures Weight(c, a + b) == Weight(c, a) * Weight(c, b)
  {
    QuotientAdd(a, b, c.tau);
    assert Product(c.exp, -a / c.tau, -b / c.tau) == c.exp(-a / c.tau + -b / c.tau);
  }

  lemma QuotientAdd(a: real, b: real, d: real)
    requires d > 0.0
    ensures -(a + b) / d == -a / d + -b / d
  {
  }

  /** Time since `since`, clamped so that a clock running backwards never inflates anything. */
  function Age(now: real, since: real): (dt: real)
    ensures dt >= 0.0
  {
    if now - since < 0.0 then 0.0 else now - since
  }

  // ---- the statistics ----------------------------------------------------------------------

  /** Per-endpoint estimates, and the pool's decayed sum and count with the newest reading seen. */
  datatype Stats = Stats(ewma: seq<real>, stamp: seq<real>, sampled: seq<bool>, sum: real, count: real, newest: real)

  ghost predicate ValidStats(st: Stats, cap: nat) {
    |st.ewma| == |st.stamp| == |st.sampled| == cap && st.count >= 0.0
  }

  function Cold(cap: nat, lowest: real): (st: Stats) {
    Stats(seq(cap, _ => 1.0), seq(cap, _ => 0.0), seq(cap, _ => false), 0.0, 0.0, lowest)
  }

  /** The peak rule: a first or larger sample replaces the estimate, otherwise it eases towards the sample. */
  function Estimate(c: Decay, sampled: bool, v: real, since: real, sample: real, now: real): (e: real)
    requires c.tau > 0.0
  {
    if !sampled || sample > v then sample
    else
      var w := Weight(c, Age(now, since));
      v * w + sample * (1.0 - w)
  }

  function Recorded(c: Decay, st: Stats, i: nat, sample: real, now: real): (after: Stats)
    requires c.tau > 0.0 && i < |st.ewma| == |st.stamp| == |st.sampled|
  {
    var pw := Weight(c, Age(now, st.newest));
    Stats(st.ewma[i := Estimate(c, st.sampled[i], st.ewma[i], st.stamp[i], sample, now)], st.stamp[i := now], st.sampled[i := true],
      st.sum * pw + sample, st.count * pw + 1.0, if now - st.newest < 0.0 then st.newest else now)
  }

  function EwmaAt(c: Decay, st: Stats, i: nat, now: real): (e: real)
    requires c.tau > 0.0 && i < |st.ewma| == |st.stamp| == |st.sampled|
  {
    if !st.sampled[i] then st.ewma[i] else st.ewma[i] * Weight(c, Age(now, st.stamp[i]))
  }

  function Mean(st: Stats): (m: real) {
    if st.count > 0.0 then st.sum / st.count else 1.0
  }

  function Cost(c: Decay, st: Stats, load: nat, i: nat, now: real): (cost: real)
    requires c.tau > 0.0 && i < |st.ewma| == |st.stamp| == |st.sampled|
  {
    if !st.sampled[i] then (if load == 0 then 0.0 else (load + 1) as real * Mean(st))
    else
      var dt, decayed := Age(now, st.stamp[i]), EwmaAt(c, st, i, now);
      (load + 1) as real * (if load > 0 && !(decayed > dt) then dt else decayed)
  }

  // ---- what the statistics mean ------------------------------------------------------------

  lemma Expand(x: real, y: real, w: real)
    ensures y * w + x * (1.0 - w) == x + (y - x) * w
  {
  }

  /** Between x and y, in proportion w. */
  lemma Blend(x: real, y: real, w: real)
    requires x <= y && 0.0 <= w <= 1.0
    ensures x <= y * w + x * (1.0 - w) <= y
  {
    Expand(x, y, w);
    var d := y - x;
    ScaleOrder(d, 0.0, w);
    ScaleOrder(d, w, 1.0);
    assert d * 1.0 == d && d * 0.0 == 0.0;
  }

  /** After a record the estimate lies between the sample and the larger of sample and previous estimate. */
  lemma EstimateRange(c: Decay, sampled: bool, v: real, since: real, sample: real, now: real)
    requires ValidDecay(c)
    ensures var e := Estimate(c, sampled, v, since, sample, now);
      && sample <= e && (!sampled || sample >= v ==> e == sample) && (sampled && sample < v ==> e <= v)
  {
    hide Weight, Age, IsExp;
    if sampled && sample <= v {
      WeightRange(c, Age(now, since));
      Blend(sample, v, Weight(c, Age(now, since)));
    }
  }

  /** Reading never raises an estimate, and a later reading never exceeds an earlier one. */
  lemma ReadsDecay(c: Decay, st: Stats, i: nat, now: real, later: real)
    requires ValidDecay(c) && i < |st.ewma| == |st.stamp| == |st.sampled| && st.ewma[i] >= 0.0 && now <= later
    ensures EwmaAt(c, st, i, later) <= EwmaAt(c, st, i, now) <= st.ewma[i]
  {
    hide Weight, IsExp;
    if st.sampled[i] {
      var a, b, v := Age(now, st.stamp[i]), Age(later, st.stamp[i]), st.ewma[i];
      WeightRange(c, a);
      WeightRange(c, b - a);
      WeightAdd(c, a, b - a);
      assert a + (b - a) == b;
      TwoDecays(v, Weight(c, a), Weight(c, b - a), Weight(c, b));
    }
  }

  /** A read decays from the last response on: what one reading gives, a later one gives times exp(-elapsed/tau). */
  lemma ReadsCompose(c: Decay, st: Stats, i: nat, now: real, later: real)
    requires ValidDecay(c) && i < |st.ewma| == |st.stamp| == |st.sampled| && st.sampled[i] && st.stamp[i] <= now <= later
    ensures EwmaAt(c, st, i, st.stamp[i]) == st.ewma[i]
    ensures EwmaAt(c, st, i, later) == EwmaAt(c, st, i, now) * Weight(c, later - now)
  {
    hide Weight, IsExp;
    var a, b := now - st.stamp[i], later - now;
    assert Age(now, st.stamp[i]) == a && Age(later, st.stamp[i]) == a + b && Age(st.stamp[i], st.stamp[i]) == 0.0;
    WeightRange(c, 0.0);
    TimesOne(st.ewma[i]);
    WeightAdd(c, a, b);
    TimesThree(st.ewma[i], Weight(c, a), Weight(c, b));
  }

  lemma TimesThree(x: real, a: real, b: real)
    ensures x * (a * b) == x * a * b
  {
  }

  lemma TwoDecays(x: real, a: real, b: real, ab: real)
    requires x >= 0.0 && 0.0 <= a <= 1.0 && 0.0 <= b <= 1.0 && ab == a * b
    ensures x * ab <= x * a <= x
  {
    ScaleDown(a, b);
    ScaleDown(x, a);
    ScaleOrder(x, ab, a);
  }

  lemma ScaleDown(x: real, w: real)
    requires x >= 0.0 && 0.0 <= w <= 1.0
    ensures 0.0 <= x * w <= x
  {
  }

  /** A busy endpoint costs at least its time since the last response, per request: a hung one gets dearer. */
  lemma BusyFloor(c: Decay, st: Stats, load: nat, i: nat, now: real)
    requires c.tau > 0.0 && i < |st.ewma| == |st.stamp| == |st.sampled| && st.sampled[i] && 0 < load
    ensures Cost(c, st, load, i, now) >= (load + 1) as real * Age(now, st.stamp[i])
    ensures Cost(c, st, load, i, now) >= (load + 1) as real * EwmaAt(c, st, i, now)
    ensures Cost(c, st, load, i, now) in {(load + 1) as real * Age(now, st.stamp[i]), (load + 1) as real * EwmaAt(c, st, i, now)}
  {
    hide EwmaAt;
    var dt, e := Age(now, st.stamp[i]), EwmaAt(c, st, i, now);
    var base := if e > dt then e else dt;
    ScaleOrder((load + 1) as real, dt, base);
    ScaleOrder((load + 1) as real, e, base);
  }

  lemma ScaleOrder(k: real, x: real, y: real)
    requires k >= 0.0 && x <= y
    ensures k * x <= k * y
  {
  }

  // ---- histories ---------------------------------------------------------------------------

  datatype Sample = Sample(i: nat, value: real, at: real)

  ghost predicate ValidHistory(c: Decay, cap: nat, h: seq<Sample>) {
    && ValidDecay(c)
    && forall k :: 0 <= k < |h| ==> h[k].i < cap && h[k].value >= 0.0 && h[k].at >= c.lowest
  }

  /** The statistics after the first n samples. */
  function Replay(c: Decay, cap: nat, h: seq<Sample>, n: nat): (st: Stats)
    requires n <= |h| && c.tau > 0.0 && forall k :: 0 <= k < |h| ==> h[k].i < cap
    ensures |st.ewma| == |st.stamp| == |st.sampled| == cap
  {
    if n == 0 then Cold(cap, c.lowest) else Recorded(c, Replay(c, cap, h, n - 1), h[n - 1].i, h[n - 1].value, h[n - 1].at)
  }

  /** The largest of the first n clock readings. */
  function Latest(c: Decay, h: seq<Sample>, n: nat): (m: real)
    requires n <= |h|
  {
    if n == 0 then c.lowest
    else
      var m := Latest(c, h, n - 1);
      if h[n - 1].at - m < 0.0 then m else h[n - 1].at
  }

  /** Sum over the first n samples of x(k) * exp(-(m - latest reading at k) / tau). */
  function WeightedSum(c: Decay, h: seq<Sample>, x: seq<real>, n: nat, m: real): (s: real)
    requires n <= |h| == |x| && c.tau > 0.0
  {
    if n == 0 then 0.0 else WeightedSum(c, h, x, n - 1, m) + x[n - 1] * Weight(c, m - Latest(c, h, n))
  }

  lemma {:induction false} WeightedSumShift(c: Decay, h: seq<Sample>, x: seq<real>, n: nat, m: real, m': real)
    requires n <= |h| == |x| && ValidDecay(c)
    ensures WeightedSum(c, h, x, n, m') == WeightedSum(c, h, x, n, m) * Weight(c, m' - m)
  {
    hide Weight, Latest;
    if n > 0 {
      WeightedSumShift(c, h, x, n - 1, m, m');
      var d := m - Latest(c, h, n);
      WeightAdd(c, m' - m, d);
      assert m' - m + d == m' - Latest(c, h, n);
      Regroup(WeightedSum(c, h, x, n - 1, m), x[n - 1], Weight(c, d), Weight(c, m' - m));
    }
  }

  lemma Regroup(s: real, x: real, a: real, b: real)
    ensures (s + x * a) * b == s * b + x * (b * a)
  {
  }

  lemma WeightedSumEmpty(c: Decay, h: seq<Sample>)
    requires c.tau > 0.0
    ensures forall x: seq<real>, m: real :: |x| == |h| ==> WeightedSum(c, h, x, 0, m) == 0.0
  {
  }

  lemma WeightedSumNext(c: Decay, h: seq<Sample>, x: seq<real>, n: nat, m: real)
    requires 0 < n <= |h| == |x| && ValidDecay(c)
    ensures var m' := Latest(c, h, n);
      WeightedSum(c, h, x, n, m') == WeightedSum(c, h, x, n - 1, m) * Weight(c, m' - m) + x[n - 1]
  {
    hide Weight, Latest, IsExp;
    var m' := Latest(c, h, n);
    WeightedSumShift(c, h, x, n - 1, m, m');
    WeightRange(c, 0.0);
    assert m' - m' == 0.0;
    TimesOne(x[n - 1]);
  }

  function Values(h: seq<Sample>): (x: seq<real>)
    ensures |x| == |h|
  {
    seq(|h|, k requires 0 <= k < |h| => h[k].value)
  }

  function Ones(h: seq<Sample>): (x: seq<real>)
    ensures |x| == |h|
  {
    seq(|h|, _ => 1.0)
  }

  lemma RecordedSums(c: Decay, st: Stats, i: nat, sample: real, now: real)
    requires c.tau > 0.0 && i < |st.ewma| == |st.stamp| == |st.sampled|
    ensures var pw, after := Weight(c, Age(now, st.newest)), Recorded(c, st, i, sample, now);
      && after.sum == st.sum * pw + sample && after.count == st.count * pw + 1.0
      && after.newest == if now - st.newest < 0.0 then st.newest else now
  {
    hide Weight, Estimate;
  }

  /**
   The pool sums in closed form, for every history, backwards clocks included: sample k counts with weight
   exp(-(m_n - m_k)/tau), m being the running maximum of the clock.
   */
  lemma {:induction false} PoolSumsClosedForm(c: Decay, cap: nat, h: seq<Sample>, n: nat)
    requires ValidHistory(c, cap, h) && n <= |h|
    ensures var st, m := Replay(c, cap, h, n), Latest(c, h, n);
      && st.newest == m
      && st.sum == WeightedSum(c, h, Values(h), n, m)
      && st.count == WeightedSum(c, h, Ones(h), n, m)
  {
    hide Weight, IsExp, Recorded, WeightedSum;
    if n == 0 {
      WeightedSumEmpty(c, h);
    } else {
      PoolSumsClosedForm(c, cap, h, n - 1);
      RecordedSums(c, Replay(c, cap, h, n - 1), h[n - 1].i, h[n - 1].value, h[n - 1].at);
      WeightedSumNext(c, h, Values(h), n, Latest(c, h, n - 1));
      WeightedSumNext(c, h, Ones(h), n, Latest(c, h, n - 1));
      assert Latest(c, h, n) - Latest(c, h, n - 1) == Age(h[n - 1].at, Latest(c, h, n - 1));
    }
  }

  lemma TimesOne(x: real)
    ensures x * 1.0 == 1.0 * x == x
  {
  }

  /** Every sample so far lies in [lo, hi]. */
  ghost predicate Within(h: seq<Sample>, n: nat, lo: real, hi: real)
    requires n <= |h|
  {
    forall k :: 0 <= k < n ==> lo <= h[k].value <= hi
  }

  lemma {:induction false} SumsInRange(c: Decay, cap: nat, h: seq<Sample>, n: nat, lo: real, hi: real)
    requires ValidHistory(c, cap, h) && n <= |h| && Within(h, n, lo, hi)
    ensures var st := Replay(c, cap, h, n);
      && lo * st.count <= st.sum <= hi * st.count && st.count >= 0.0 && (0 < n ==> st.count >= 1.0)
  {
    hide Weight, IsExp, Recorded, Age;
    if n > 0 {
      SumsInRange(c, cap, h, n - 1, lo, hi);
      var st := Replay(c, cap, h, n - 1);
      RecordedSums(c, st, h[n - 1].i, h[n - 1].value, h[n - 1].at);
      var pw := Weight(c, Age(h[n - 1].at, st.newest));
      WeightRange(c, Age(h[n - 1].at, st.newest));
      ScaledRange(lo, hi, st.count, st.sum, pw, h[n - 1].value);
    }
  }

  lemma ScaledBound(lo: real, n: real, s: real, w: real, v: real)
    requires lo * n <= s && lo <= v && 0.0 <= w
    ensures lo * (n * w + 1.0) <= s * w + v
  {
    ScaleOrder(w, lo * n, s);
    assert lo * (n * w + 1.0) == w * (lo * n) + lo;
  }

  lemma ScaledRange(lo: real, hi: real, n: real, s: real, w: real, v: real)
    requires lo * n <= s <= hi * n && lo <= v <= hi && 0.0 <= w && 0.0 <= n
    ensures lo * (n * w + 1.0) <= s * w + v <= hi * (n * w + 1.0) && 1.0 <= n * w + 1.0
  {
    ScaledBound(lo, n, s, w, v);
    ScaleOrder(w, s, hi * n);
    assert hi * (n * w + 1.0) == w * (hi * n) + hi;
    ScaleOrder(n, 0.0, w);
  }

  /** The pool mean lies between the smallest and the largest sample. */
  lemma MeanInRange(c: Decay, cap: nat, h: seq<Sample>, lo: real, hi: real)
    requires ValidHistory(c, cap, h) && 0 < |h| && Within(h, |h|, lo, hi)
    ensures lo <= Mean(Replay(c, cap, h, |h|)) <= hi
  {
    hide Replay;
    SumsInRange(c, cap, h, |h|, lo, hi);
    var st := Replay(c, cap, h, |h|);
    QuotientBetween(st.sum, st.count, lo, hi);
  }

  lemma Scales(n: real, x: real, y: real)
    requires n > 0.0 && x < y
    ensures x * n < y * n
  {
  }

  lemma QuotientBetween(s: real, n: real, lo: real, hi: real)
    requires n > 0.0 && lo * n <= s <= hi * n
    ensures lo <= s / n <= hi
  {
    var q := s / n;
    assert q * n == s;
    if q < lo { Scales(n, q, lo); }
    if q > hi { Scales(n, hi, q); }
  }

  /** Each endpoint's estimate lies within the range of its own samples; without one it is the baseline. */
  lemma {:induction false} EstimateInRange(c: Decay, cap: nat, h: seq<Sample>, n: nat, i: nat, lo: real, hi: real)
    requires ValidHistory(c, cap, h) && n <= |h| && i < cap
    requires forall k :: 0 <= k < n && h[k].i == i ==> lo <= h[k].value <= hi
    ensures var st := Replay(c, cap, h, n);
      && (st.sampled[i] <==> exists k :: 0 <= k < n && h[k].i == i)
      && if st.sampled[i] then lo <= st.ewma[i] <= hi else st.ewma[i] == 1.0
  {
    hide Estimate;
    if n > 0 {
      EstimateInRange(c, cap, h, n - 1, i, lo, hi);
      var st, s := Replay(c, cap, h, n - 1), h[n - 1];
      EstimateRange(c, st.sampled[s.i], st.ewma[s.i], st.stamp[s.i], s.value, s.at);
      if s.i == i { assert 0 <= n - 1 < n && h[n - 1].i == i; }
    }
  }

  /** Between two moments the gap between an estimate and s has shrunk by exp(-elapsed/tau). */
  ghost predicate Approached(c: Decay, s: real, v: real, at: real, later: real, atLater: real)
    requires c.tau > 0.0
  {
    s <= later && at <= atLater && later - s == (v - s) * c.exp(-(atLater - at) / c.tau)
  }

  /** Smaller samples are approached at the pace of the clock, however many of them there are. */
  lemma {:induction false} GapDecays(c: Decay, cap: nat, h: seq<Sample>, m: nat, n: nat, i: nat, s: real)
    requires ValidHistory(c, cap, h) && m <= n <= |h| && i < cap
    requires var a := Replay(c, cap, h, m); a.sampled[i] && s <= a.ewma[i]
    requires forall k :: m <= k < n && h[k].i == i ==> h[k].value == s && h[k].at >= Replay(c, cap, h, k).stamp[i]
    ensures var a, b := Replay(c, cap, h, m), Replay(c, cap, h, n);
      b.sampled[i] && Approached(c, s, a.ewma[i], a.stamp[i], b.ewma[i], b.stamp[i])
  {
    var a := Replay(c, cap, h, m);
    if n > m { RecordedAt(c, Replay(c, cap, h, n - 1), h[n - 1].i, h[n - 1].value, h[n - 1].at, i); }
    hide Weight, IsExp, Recorded, Estimate, Approached;
    if n == m {
      GapStart(c, a.ewma[i], a.stamp[i], s);
    } else {
      GapDecays(c, cap, h, m, n - 1, i, s);
      var b := Replay(c, cap, h, n - 1);
      if h[n - 1].i == i { GapStep(c, a.ewma[i], a.stamp[i], b.ewma[i], b.stamp[i], s, h[n - 1].at); }
    }
  }

  lemma GapStart(c: Decay, v: real, at: real, s: real)
    requires ValidDecay(c) && s <= v
    ensures Approached(c, s, v, at, v, at)
  {
    WeightRange(c, 0.0);
    assert Weight(c, at - at) == c.exp(-(at - at) / c.tau);
    hide Weight, IsExp;
    TimesOne(v - s);
  }

  lemma GapStep(c: Decay, v: real, at: real, later: real, since: real, s: real, now: real)
    requires ValidDecay(c) && Approached(c, s, v, at, later, since) && since <= now
    ensures Approached(c, s, v, at, Estimate(c, true, later, since, s, now), now)
  {
    assert Weight(c, since - at) == c.exp(-(since - at) / c.tau) && Weight(c, now - at) == c.exp(-(now - at) / c.tau);
    hide Weight, IsExp;
    EstimateRange(c, true, later, since, s, now);
    var w := Weight(c, now - since);
    assert Age(now, since) == now - since;
    Expand(later, s, w);
    WeightAdd(c, since - at, now - since);
    assert since - at + (now - since) == now - at;
    TimesThree(v - s, Weight(c, since - at), w);
  }

  lemma RecordedAt(c: Decay, st: Stats, k: nat, sample: real, now: real, i: nat)
    requires c.tau > 0.0 && k < |st.ewma| == |st.stamp| == |st.sampled| && i < |st.ewma|
    ensures var after := Recorded(c, st, k, sample, now);
      if k != i then after.ewma[i] == st.ewma[i] && after.stamp[i] == st.stamp[i] && after.sampled[i] == st.sampled[i]
      else after.ewma[i] == Estimate(c, st.sampled[i], st.ewma[i], st.stamp[i], sample, now) && after.stamp[i] == now && after.sampled[i]
  {
  }

  /**
   An endpoint without a sample is free while idle, and while busy it is priced like the pool: per request,
   between the smallest and the largest sample anybody returned.
   */
  lemma ColdPrice(c: Decay, cap: nat, h: seq<Sample>, i: nat, load: nat, now: real, lo: real, hi: real)
    requires ValidHistory(c, cap, h) && 0 < |h| && Within(h, |h|, lo, hi) && i < cap
    requires forall k :: 0 <= k < |h| ==> h[k].i != i
    ensures var cost := Cost(c, Replay(c, cap, h, |h|), load, i, now);
      if load == 0 then cost == 0.0 else (load + 1) as real * lo <= cost <= (load + 1) as real * hi
  {
    hide Replay, EwmaAt, Mean;
    EstimateInRange(c, cap, h, |h|, i, 0.0, 0.0);
    MeanInRange(c, cap, h, lo, hi);
    var m := Mean(Replay(c, cap, h, |h|));
    ScaleOrder((load + 1) as real, lo, m);
    ScaleOrder((load + 1) as real, m, hi);
  }

  /** Without a sample an endpoint reads 1, and before the pool has any that is its price per request while busy. */
  lemma Baseline(c: Decay, cap: nat, h: seq<Sample>, i: nat, load: nat, now: real)
    requires ValidHistory(c, cap, h) && i < cap && forall k :: 0 <= k < |h| ==> h[k].i != i
    ensures EwmaAt(c, Replay(c, cap, h, |h|), i, now) == 1.0
    ensures |h| == 0 ==> Cost(c, Replay(c, cap, h, |h|), load, i, now) == if load == 0 then 0.0 else (load + 1) as real
  {
    EstimateInRange(c, cap, h, |h|, i, 0.0, 0.0);
    TimesOne((load + 1) as real);
  }

  /** A sampled endpoint's cost per request while idle never exceeds the largest sample of its own. */
  lemma IdlePrice(c: Decay, cap: nat, h: seq<Sample>, i: nat, now: real, hi: real)
    requires ValidHistory(c, cap, h) && i < cap && exists k :: 0 <= k < |h| && h[k].i == i
    requires forall k :: 0 <= k < |h| && h[k].i == i ==> h[k].value <= hi
    ensures 0.0 <= Cost(c, Replay(c, cap, h, |h|), 0, i, now) <= hi
  {
    hide Replay, Weight;
    EstimateInRange(c, cap, h, |h|, i, 0.0, hi);
    var st := Replay(c, cap, h, |h|);
    WeightRange(c, Age(now, st.stamp[i]));
    ScaleDown(st.ewma[i], Weight(c, Age(now, st.stamp[i])));
    var e := EwmaAt(c, st, i, now);
    ReadsDecay(c, st, i, now, now);
    assert 0.0 <= e <= hi;
    TimesOne(e);
    assert Cost(c, st, 0, i, now) == 1.0 * e;
  }

  // ---- whole runs under a shifted clock ----------------------------------------------------

  datatype Event = Record(i: nat, value: real, at: real) | PickAt(now: real) | Flap(i: nat, v: bool) | SetLoad(i: nat, n: nat)

  datatype World = World(st: Stats, up: seq<bool>, load: seq<nat>, x: Word)

  ghost predicate ValidWorld(c: Decay, w: World, cap: nat) {
    ValidDecay(c) && ValidStats(w.st, cap) && |w.up| == |w.load| == cap
  }

  /** The cheaper of the two choices; a tie keeps the first. */
  function PickFrom(c: Decay, w: World, now: real): (d: Drawn)
    requires c.tau > 0.0 && |w.st.ewma| == |w.st.stamp| == |w.st.sampled| == |w.up| == |w.load|
    ensures if Live(w.up) == 0 then d.i == PICK_NONE else 0 <= d.i < |w.up| && w.up[d.i]
  {
    var p := Choose(w.up, w.x);
    if Live(w.up) == 0 then Drawn(PICK_NONE, p.next)
    else Drawn(if Cost(c, w.st, w.load[p.b], p.b, now) < Cost(c, w.st, w.load[p.a], p.a, now) then p.b else p.a, p.next)
  }

  /** It is one of the pair drawn, costs no more than either, and on equal cost it is the first. */
  lemma PickIsCheaper(c: Decay, w: World, now: real)
    requires c.tau > 0.0 && |w.st.ewma| == |w.st.stamp| == |w.st.sampled| == |w.up| == |w.load| && 0 < Live(w.up)
    ensures var p, d := Choose(w.up, w.x), PickFrom(c, w, now);
      && IsPair(w.up, w.x, p) && d.next == p.next && (d.i == p.a || d.i == p.b)
      && var cost := (i: int) requires 0 <= i < |w.up| => Cost(c, w.st, w.load[i], i, now);
      cost(d.i) <= cost(p.a) && cost(d.i) <= cost(p.b) && (cost(p.a) == cost(p.b) ==> d.i == p.a)
  {
    hide Cost, Choose, IsPair;
    ChooseIsPair(w.up, w.x);
  }

  predicate ValidEvent(c: Decay, cap: nat, e: Event) {
    match e
    case Record(i, value, at) => i < cap && value >= 0.0 && at >= c.lowest
    case PickAt(now) => now >= c.lowest
    case Flap(i, v) => i < cap
    case SetLoad(i, n) => i < cap
  }

  function Act(c: Decay, w: World, cap: nat, e: Event): (after: World)
    requires c.tau > 0.0 && |w.st.ewma| == |w.st.stamp| == |w.st.sampled| == |w.up| == |w.load| == cap && ValidEvent(c, cap, e)
    ensures |after.st.ewma| == |after.st.stamp| == |after.st.sampled| == |after.up| == |after.load| == cap
  {
    match e
    case Record(i, value, at) => w.(st := Recorded(c, w.st, i, value, at))
    case PickAt(now) => w.(x := PickFrom(c, w, now).next)
    case Flap(i, v) => w.(up := w.up[i := v])
    case SetLoad(i, n) => w.(load := w.load[i := n])
  }

  /** The world after the first n events. */
  function After(c: Decay, w: World, cap: nat, es: seq<Event>, n: nat): (after: World)
    requires c.tau > 0.0 && |w.st.ewma| == |w.st.stamp| == |w.st.sampled| == |w.up| == |w.load| == cap
    requires n <= |es| && forall k :: 0 <= k < |es| ==> ValidEvent(c, cap, es[k])
    ensures |after.st.ewma| == |after.st.stamp| == |after.st.sampled| == |after.up| == |after.load| == cap
  {
    if n == 0 then w else Act(c, After(c, w, cap, es, n - 1), cap, es[n - 1])
  }

  /** The event with its clock reading moved by C. */
  function Shift(e: Event, C: real): (s: Event) {
    match e
    case Record(i, value, at) => Record(i, value, at + C)
    case PickAt(now) => PickAt(now + C)
    case Flap(i, v) => e
    case SetLoad(i, n) => e
  }

  /** Equal but for stamps, which are C apart; before the first sample both newest readings are the seed. */
  ghost predicate Shifted(c: Decay, a: Stats, b: Stats, C: real) {
    && |a.ewma| == |a.stamp| == |a.sampled| == |b.stamp|
    && b.ewma == a.ewma && b.sampled == a.sampled && b.sum == a.sum && b.count == a.count && a.count >= 0.0
    && (forall i :: 0 <= i < |a.stamp| && a.sampled[i] ==> b.stamp[i] == a.stamp[i] + C)
    && if a.count > 0.0 then b.newest == a.newest + C else a.sum == 0.0 && a.newest == b.newest == c.lowest
  }

  lemma CostShifts(c: Decay, a: Stats, b: Stats, C: real, load: nat, i: nat, now: real)
    requires c.tau > 0.0 && Shifted(c, a, b, C) && i < |a.ewma|
    ensures EwmaAt(c, b, i, now + C) == EwmaAt(c, a, i, now)
    ensures Cost(c, b, load, i, now + C) == Cost(c, a, load, i, now)
  {
    if a.sampled[i] { assert Age(now + C, b.stamp[i]) == Age(now, a.stamp[i]); }
  }

  /** The pool sums move alike: the first sample wipes out whatever weight the seed reading gives. */
  lemma RecordShifts(c: Decay, a: Stats, b: Stats, C: real, i: nat, sample: real, now: real)
    requires ValidDecay(c) && Shifted(c, a, b, C) && i < |a.ewma| && now >= c.lowest && now + C >= c.lowest
    ensures Shifted(c, Recorded(c, a, i, sample, now), Recorded(c, b, i, sample, now + C), C)
  {
    hide Weight, IsExp;
    var a', b' := Recorded(c, a, i, sample, now), Recorded(c, b, i, sample, now + C);
    if a.sampled[i] { assert Age(now + C, b.stamp[i]) == Age(now, a.stamp[i]); }
    assert Estimate(c, b.sampled[i], b.ewma[i], b.stamp[i], sample, now + C)
      == Estimate(c, a.sampled[i], a.ewma[i], a.stamp[i], sample, now);
    assert b'.ewma == a'.ewma;
    if a.count > 0.0 {
      assert Age(now + C, b.newest) == Age(now, a.newest);
      WeightRange(c, Age(now, a.newest));
      CountStaysPositive(a.count, Weight(c, Age(now, a.newest)));
    } else {
      FirstSample(a.sum, a.count, Weight(c, Age(now, a.newest)));
      FirstSample(b.sum, b.count, Weight(c, Age(now + C, b.newest)));
      assert a'.sum == sample && b'.sum == sample;
      assert a'.count == 1.0 && b'.count == 1.0;
      assert a'.newest == now && b'.newest == now + C;
    }
  }

  lemma CountStaysPositive(n: real, w: real)
    requires n >= 0.0 && w >= 0.0
    ensures n * w + 1.0 > 0.0
  {
    ScaleOrder(n, 0.0, w);
  }

  lemma FirstSample(s: real, n: real, w: real)
    requires s == 0.0 && n == 0.0
    ensures s * w == 0.0 && n * w == 0.0
  {
  }

  ghost predicate ShiftedWorld(c: Decay, a: World, b: World, C: real) {
    Shifted(c, a.st, b.st, C) && b.up == a.up && b.load == a.load && b.x == a.x
  }

  lemma PickShifts(c: Decay, a: World, b: World, C: real, now: real)
    requires ValidWorld(c, a, |a.up|) && ShiftedWorld(c, a, b, C)
    ensures PickFrom(c, b, now + C) == PickFrom(c, a, now)
  {
    hide Cost, Choose;
    if Live(a.up) > 0 {
      var p := Choose(a.up, a.x);
      CostShifts(c, a.st, b.st, C, a.load[p.a], p.a, now);
      CostShifts(c, a.st, b.st, C, a.load[p.b], p.b, now);
    }
  }

  /**
   Over any sequence of records, picks, flaps and load changes, on any clock, moving every reading by C gives
   the same picks, estimates and pool sums.
   */
  lemma {:induction false} RunsAreTranslationInvariant(c: Decay, w: World, cap: nat, es: seq<Event>, fs: seq<Event>, C: real, n: nat)
    requires ValidWorld(c, w, cap) && w.st == Cold(cap, c.lowest)
    requires |fs| == |es|
    requires forall k :: 0 <= k < |es| ==> fs[k] == Shift(es[k], C) && ValidEvent(c, cap, es[k]) && ValidEvent(c, cap, fs[k])
    requires n <= |es|
    ensures ShiftedWorld(c, After(c, w, cap, es, n), After(c, w, cap, fs, n), C)
    ensures n < |es| && es[n].PickAt? ==>
      PickFrom(c, After(c, w, cap, fs, n), es[n].now + C) == PickFrom(c, After(c, w, cap, es, n), es[n].now)
  {
    hide Recorded, PickFrom, IsExp;
    if n > 0 {
      RunsAreTranslationInvariant(c, w, cap, es, fs, C, n - 1);
      var a, b, e := After(c, w, cap, es, n - 1), After(c, w, cap, fs, n - 1), es[n - 1];
      if e.Record? { RecordShifts(c, a.st, b.st, C, e.i, e.value, e.at); }
    }
    if n < |es| && es[n].PickAt? {
      PickShifts(c, After(c, w, cap, es, n), After(c, w, cap, fs, n), C, es[n].now);
    }
  }

  /** Over any run: when a pick draws two sampled idle endpoints, the one with the smaller decayed estimate is picked. */
  lemma FasterIdleWins(c: Decay, w: World, cap: nat, es: seq<Event>, n: nat, i: nat, j: nat)
    requires ValidWorld(c, w, cap) && n < |es| && es[n].PickAt? && forall k :: 0 <= k < |es| ==> ValidEvent(c, cap, es[k])
    requires var v, now := After(c, w, cap, es, n), es[n].now;
      && 0 < Live(v.up) && {Choose(v.up, v.x).a, Choose(v.up, v.x).b} == {i as int, j as int} && i < cap && j < cap
      && v.st.sampled[i] && v.st.sampled[j] && v.load[i] == v.load[j] == 0
      && EwmaAt(c, v.st, i, now) < EwmaAt(c, v.st, j, now)
    ensures PickFrom(c, After(c, w, cap, es, n), es[n].now).i == i
  {
    hide After, Choose, EwmaAt, IsPair;
    var v, now := After(c, w, cap, es, n), es[n].now;
    PickIsCheaper(c, v, now);
    TimesOne(EwmaAt(c, v.st, i, now));
    TimesOne(EwmaAt(c, v.st, j, now));
    assert Choose(v.up, v.x).a in {i as int, j as int} && Choose(v.up, v.x).b in {i as int, j as int};
    assert i as int in {Choose(v.up, v.x).a, Choose(v.up, v.x).b};
  }

  // ---- the balancer ------------------------------------------------------------------------

  class PeakEwmaBalancer {
    const base: BalancerBase
    const inflight: array<nat>
    const c: Decay
    const rng: Prng.Generator
    const ewma: array<real>
    const stamp: array<real>
    const sampled: array<bool>
    /** Decayed sum, decayed count, newest reading. */
    const samp: array<real>

    ghost predicate Valid()
      reads this, base, base.eligible, rng
    {
      && base.Valid() && rng.Valid() && base.cap <= inflight.Length && ValidDecay(c)
      && ewma.Length == stamp.Length == sampled.Length == base.cap && samp.Length == 3
      && ewma != stamp && ewma != samp && stamp != samp && sampled != base.eligible
    }

    ghost function AsStats(): (st: Stats)
      requires samp.Length == 3
      reads ewma, stamp, sampled, samp
    {
      Stats(ewma[..], stamp[..], sampled[..], samp[0], samp[1], samp[2])
    }

    ghost function AsWorld(): (w: World)
      requires Valid()
      reads this, base, base.eligible, rng, inflight, ewma, stamp, sampled, samp
    {
      World(AsStats(), base.Up(), inflight[..base.cap], rng.s)
    }

    constructor (capacity: nat, view: array<bool>, load: array<nat>, decay: Decay, seed: Word)
      requires 1 <= capacity <= view.Length && capacity <= load.Length && ValidDecay(decay)
      ensures Valid() && fresh(base) && fresh(rng) && fresh(ewma) && fresh(stamp) && fresh(sampled) && fresh(samp)
      ensures base.eligible == view && base.cap == capacity && inflight == load && c == decay
      ensures AsStats() == Cold(capacity, c.lowest)
    {
      hide IsExp, LiveTo;
      base := new BalancerBase(capacity, view);
      inflight, c := load, decay;
      rng := new Prng.Generator(seed);
      ewma := new real[capacity](_ => 1.0);
      stamp := new real[capacity](_ => 0.0);
      sampled := new bool[capacity](_ => false);
      samp := new real[3](_ => 0.0);
      new;
      samp[2] := c.lowest;
    }

    /** Decay on read; an endpoint without a sample reads its baseline. */
    method Ewma(i: nat, now: real) returns (e: real)
      requires Valid() && i < base.cap
      ensures e == EwmaAt(c, AsStats(), i, now)
    {
      if !sampled[i] { return ewma[i]; }
      var dt := now - stamp[i];
      if dt < 0.0 { dt := 0.0; }
      e := ewma[i] * Weight(c, dt);
    }

    /** Feed one round-trip sample into the endpoint's estimate and the pool mean. */
    method RecordRtt(i: nat, sample: real, now: real)
      requires Valid() && i < base.cap && sample >= 0.0 && now >= c.lowest
      modifies ewma, stamp, sampled, samp
      ensures Valid() && AsStats() == Recorded(c, old(AsStats()), i, sample, now)
    {
      hide IsExp, Estimate, Weight;
      Observe(i, sample, now);
      stamp[i] := now;
      sampled[i] := true;
      Pool(sample, now);
    }

    /** Finagle's observe: the peak, or the blend. */
    method Observe(i: nat, sample: real, now: real)
      requires Valid() && i < base.cap
      modifies ewma
      ensures ewma[..] == old(ewma[..])[i := Estimate(c, sampled[i], old(ewma[i]), stamp[i], sample, now)]
    {
      hide IsExp, Weight;
      var v := ewma[i];
      if !sampled[i] || sample > v {
        ewma[i] := sample;
      } else {
        var dt := now - stamp[i];
        if dt < 0.0 { dt := 0.0; }
        assert dt == Age(now, stamp[i]);
        var w := Weight(c, dt);
        var blend := v * w + sample * (1.0 - w);
        assert blend == Estimate(c, sampled[i], v, stamp[i], sample, now);
        ewma[i] := blend;
      }
    }

    /** Both sums decay by the time since the newest reading, then take the sample at weight 1. */
    method Pool(sample: real, now: real)
      requires Valid()
      modifies samp
      ensures var pw := Weight(c, Age(now, old(samp[2])));
        && samp[0] == old(samp[0]) * pw + sample && samp[1] == old(samp[1]) * pw + 1.0
        && samp[2] == if now - old(samp[2]) < 0.0 then old(samp[2]) else now
    {
      hide IsExp, Weight;
      var pdt := now - samp[2];
      if pdt < 0.0 { pdt := 0.0; } else { samp[2] := now; }
      var pw := Weight(c, pdt);
      var kept := samp[0] * pw;
      samp[0] := kept + sample;
      samp[1] := samp[1] * pw + 1.0;
    }

    method CostOf(i: nat, now: real) returns (cost: real)
      requires Valid() && i < base.cap
      ensures cost == Cost(c, AsStats(), inflight[i], i, now)
    {
      hide IsExp, Weight;
      if !sampled[i] {
        if inflight[i] == 0 { return 0.0; }
        return (inflight[i] + 1) as real * (if samp[1] > 0.0 then samp[0] / samp[1] else 1.0);
      }
      var dt := now - stamp[i];
      if dt < 0.0 { dt := 0.0; }
      var decayed := ewma[i] * Weight(c, dt);
      cost := (inflight[i] + 1) as real * (if inflight[i] > 0 then (if decayed > dt then decayed else dt) else decayed);
    }

    /** A pure read of the statistics: only the generator moves. */
    method Pick(now: real) returns (i: int)
      requires Valid()
      modifies rng
      ensures Valid() && PickFrom(c, old(AsWorld()), now) == Drawn(i, rng.s)
    {
      hide IsExp, Cost, Choose;
      var a, b := Pair(base, rng);
      if a < 0 || b == a { return a; }
      var costA := CostOf(a, now);
      var costB := CostOf(b, now);
      i := if costB < costA then b else a;
    }
  }
}
