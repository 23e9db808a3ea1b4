/**
 LeastConn, SED and NQ: scan the pool for the smallest load score. The three strategies repeat one body with a
 different score, so they share one class here, told apart by `rule`.
 */
module LoadScan {
  import opened Seqs
  import opened Arith
  import opened FiniteSets
  import opened Words
  import opened Buckets
  import opened Prng
  import opened Eligibility
  import opened CircularScan

  datatype Rule = LeastConn | Sed | Nq

  const NQ_IDLE_TRIES := 4

  /** The score an endpoint is scanned with; SED and NQ skip weight 0, NQ scores an idle endpoint 0. */
  function Offer(rule: Rule, up: bool, load: nat, weight: nat): (b: Bid) {
    if !up then Out
    else if rule.LeastConn? then Bid(load as real)
    else if weight == 0 then Out
    else if rule.Nq? && load == 0 then Bid(0.0)
    else Bid((load + 1) as real / weight as real)
  }

  function Bids(rule: Rule, up: seq<bool>, load: seq<nat>, weight: seq<nat>): (bids: seq<Bid>)
    requires |up| <= |load| && |up| <= |weight|
    ensures |bids| == |up|
  {
    seq(|up|, i requires 0 <= i < |up| => Offer(rule, up[i], load[i], weight[i]))
  }

  lemma ScoresNonNegative(rule: Rule, up: seq<bool>, load: seq<nat>, weight: seq<nat>)
    requires |up| <= |load| && |up| <= |weight|
    ensures forall i :: 0 <= i < |up| && Bids(rule, up, load, weight)[i].Bid? ==> Bids(rule, up, load, weight)[i].score >= 0.0
  {
    forall i | 0 <= i < |up| && Bids(rule, up, load, weight)[i].Bid?
      ensures Bids(rule, up, load, weight)[i].score >= 0.0
    {
      if weight[i] > 0 { QuotientPositive(load[i] + 1, weight[i]); }
    }
  }

  lemma QuotientPositive(a: nat, b: nat)
    requires 0 < a && 0 < b
    ensures a as real / b as real > 0.0
  {
  }

  /** Cross-multiplication: comparing scores compares (load+1)*weight products. */
  lemma CompareScores(a: nat, w: nat, b: nat, v: nat)
    requires 0 < w && 0 < v
    ensures a as real / w as real <= b as real / v as real <==> a * v <= b * w
  {
    var x, y := a as real / w as real, b as real / v as real;
    var p := w as real * v as real;
    assert x * p == a as real * v as real by { assert x * w as real == a as real; }
    assert y * p == b as real * w as real by { assert y * v as real == b as real; }
    assert (a * v) as real == a as real * v as real && (b * w) as real == b as real * w as real;
    ScaleCompare(x, y, p);
  }

  lemma ScaleCompare(x: real, y: real, p: real)
    requires 0.0 < p
    ensures x <= y <==> x * p <= y * p
  {
    assert (y - x) * p == y * p - x * p;
  }

  lemma {:induction false} ZeroIsKept(bids: seq<Bid>, lo: nat, hi: nat, best: nat)
    requires lo <= hi <= |bids| && best < |bids| && bids[best] == Bid(0.0)
    requires forall i :: 0 <= i < |bids| && bids[i].Bid? ==> bids[i].score >= 0.0
    ensures Scan(bids, lo, hi, best) == best
    decreases hi - lo
  {
    if lo < hi { ZeroIsKept(bids, lo + 1, hi, best); }
  }

  // ---- dispatch runs -----------------------------------------------------------------------

  /**
   A run of dispatches without settles: at every step some minimum of the standing bids, whichever the tie
   rule chose, is picked and its load raised by one.
   */
  ghost predicate DispatchRun(rule: Rule, up: seq<bool>, weight: seq<nat>, loads: seq<seq<nat>>, picks: seq<nat>) {
    && |loads| == |picks| + 1
    && (forall t :: 0 <= t < |loads| ==> |loads[t]| == |up| == |weight|)
    && (forall t :: 0 <= t < |picks| ==>
          && IsMin(Bids(rule, up, loads[t], weight), picks[t])
          && loads[t + 1] == loads[t][picks[t] := loads[t][picks[t]] + 1])
  }

  ghost predicate WithinOne(up: seq<bool>, load: seq<nat>)
    requires |up| == |load|
  {
    forall i, j :: 0 <= i < |up| && 0 <= j < |up| && up[i] && up[j] ==> load[i] <= load[j] + 1
  }

  /** LeastConn is greedy-perfect: a spread of at most 1 over the eligible endpoints is kept for ever. */
  lemma {:induction false} LeastConnSpread(up: seq<bool>, weight: seq<nat>, loads: seq<seq<nat>>, picks: seq<nat>, t: nat)
    requires DispatchRun(LeastConn, up, weight, loads, picks) && t < |loads|
    requires WithinOne(up, loads[0])
    ensures WithinOne(up, loads[t])
  {
    if t > 0 {
      LeastConnSpread(up, weight, loads, picks, t - 1);
      var bids := Bids(LeastConn, up, loads[t - 1], weight);
      assert IsMin(bids, picks[t - 1]);
      forall j | 0 <= j < |up| && up[j]
        ensures loads[t - 1][picks[t - 1]] <= loads[t - 1][j]
      {
        assert bids[j] == Bid(loads[t - 1][j] as real);
      }
    }
  }

  /** In the running under SED: eligible with a positive weight. */
  predicate Candidate(up: seq<bool>, weight: seq<nat>, i: int)
    requires |up| == |weight|
  {
    0 <= i < |up| && up[i] && weight[i] > 0
  }

  /** The D'Hondt condition: no candidate would be better served by another's last request. */
  ghost predicate DHondt(up: seq<bool>, weight: seq<nat>, load: seq<nat>)
    requires |up| == |weight| == |load|
  {
    forall i, j :: Candidate(up, weight, i) && Candidate(up, weight, j) ==> load[i] * weight[j] <= (load[j] + 1) * weight[i]
  }

  lemma DHondtStep(up: seq<bool>, weight: seq<nat>, load: seq<nat>, b: nat)
    requires |up| == |weight| == |load| && DHondt(up, weight, load)
    requires IsMin(Bids(Sed, up, load, weight), b)
    ensures DHondt(up, weight, load[b := load[b] + 1]) && Candidate(up, weight, b)
  {
    hide Bids;
    BestBid(up, weight, load, b);
    forall i, j | Candidate(up, weight, i) && Candidate(up, weight, j)
      ensures var after := load[b := load[b] + 1]; after[i] * weight[j] <= (after[j] + 1) * weight[i]
    {
      assert load[i] * weight[j] <= (load[j] + 1) * weight[i];
      assert (load[b] + 1) * weight[j] <= (load[j] + 1) * weight[b];
      PairStep(load[i], weight[i], load[j], weight[j], i == b, j == b);
    }
  }

  /** i at load a and weight w against j at load c and weight v, when i, j or both (then they are one) get one more. */
  lemma PairStep(a: nat, w: nat, c: nat, v: nat, i: bool, j: bool)
    requires a * v <= (c + 1) * w && (i ==> (a + 1) * v <= (c + 1) * w)
    ensures (if i then a + 1 else a) * v <= ((if j then c + 1 else c) + 1) * w
  {
    OneMore(c + 1, w);
  }

  /** The winner's next request is served no worse than anybody else's would be. */
  lemma BestBid(up: seq<bool>, weight: seq<nat>, load: seq<nat>, b: nat)
    requires |up| == |weight| == |load| && IsMin(Bids(Sed, up, load, weight), b)
    ensures Candidate(up, weight, b)
    ensures forall j :: Candidate(up, weight, j) ==> (load[b] + 1) * weight[j] <= (load[j] + 1) * weight[b]
  {
    var bids := Bids(Sed, up, load, weight);
    forall j | Candidate(up, weight, j)
      ensures (load[b] + 1) * weight[j] <= (load[j] + 1) * weight[b]
    {
      assert bids[j].Bid?;
      CompareScores(load[b] + 1, weight[b], load[j] + 1, weight[j]);
    }
  }

  lemma OneMore(x: nat, w: nat)
    ensures x * w <= (x + 1) * w
  {
    MulAdd(x, 1, w);
  }

  /** From zero load, SED's dispatches are a D'Hondt apportionment after any number of them. */
  lemma {:induction false} SedIsDHondt(up: seq<bool>, weight: seq<nat>, loads: seq<seq<nat>>, picks: seq<nat>, t: nat)
    requires DispatchRun(Sed, up, weight, loads, picks) && t < |loads|
    requires loads[0] == Zeros(|up|)
    ensures DHondt(up, weight, loads[t])
    ensures Sum(loads[t]) == t && forall i :: 0 <= i < |up| && !Candidate(up, weight, i) ==> loads[t][i] == 0
  {
    if t == 0 {
      SumToZero(loads[0], |up|);
    } else {
      hide DHondt, Bids, IsMin;
      SedIsDHondt(up, weight, loads, picks, t - 1);
      DHondtStep(up, weight, loads[t - 1], picks[t - 1]);
      SumUpdate(loads[t - 1], picks[t - 1], loads[t - 1][picks[t - 1]] + 1);
    }
  }

  lemma {:induction false} QuotaSum(up: seq<bool>, weight: seq<nat>, load: seq<nat>, j: nat, n: nat)
    requires |up| == |weight| == |load| && n <= |up| && Candidate(up, weight, j) && DHondt(up, weight, load)
    requires forall i :: 0 <= i < |up| && !Candidate(up, weight, i) ==> load[i] == 0
    ensures SumTo(load, n) * weight[j] + (if j < n then weight[j] else 0) <= (load[j] + 1) * SumTo(EligibleWeights(up, weight), n)
  {
    if n > 0 {
      QuotaSum(up, weight, load, j, n - 1);
      var i, cw := n - 1, EligibleWeights(up, weight);
      QuotaTerm(up, weight, load, j, i);
      QuotaStep(SumTo(load, i), load[i], weight[j], SumTo(cw, i), cw[i], load[j] + 1,
        if j < i then weight[j] else 0, if i == j then weight[j] else 0);
    }
  }

  lemma QuotaStep(s: int, l: int, w: int, c: int, x: int, k: int, a: int, b: int)
    requires s * w + a <= k * c && l * w + b <= k * x
    ensures (s + l) * w + (a + b) <= k * (c + x)
  {
    MulAdd(s, l, w);
    MulAdd(c, x, k);
  }

  lemma QuotaTerm(up: seq<bool>, weight: seq<nat>, load: seq<nat>, j: nat, i: nat)
    requires |up| == |weight| == |load| && i < |up| && Candidate(up, weight, j) && DHondt(up, weight, load)
    requires !Candidate(up, weight, i) ==> load[i] == 0
    ensures load[i] * weight[j] + (if i == j then weight[j] else 0) <= (load[j] + 1) * EligibleWeights(up, weight)[i]
  {
    if i == j {
      MulAdd(load[j], 1, weight[j]);
    } else if Candidate(up, weight, i) {
      assert load[i] * weight[j] <= (load[j] + 1) * weight[i];
    } else {
      MulNonNegative(load[j] + 1, EligibleWeights(up, weight)[i]);
    }
  }

  /** Every candidate meets its lower quota: after T dispatches it has at least floor(T*w/W). */
  lemma SedLowerQuota(up: seq<bool>, weight: seq<nat>, loads: seq<seq<nat>>, picks: seq<nat>, t: nat, j: nat)
    requires DispatchRun(Sed, up, weight, loads, picks) && t < |loads|
    requires loads[0] == Zeros(|up|) && Candidate(up, weight, j)
    ensures 0 < Sum(EligibleWeights(up, weight)) && t * weight[j] / Sum(EligibleWeights(up, weight)) <= loads[t][j]
  {
    var W := Sum(EligibleWeights(up, weight));
    SumToNonNegative(EligibleWeights(up, weight), |up|);
    SedIsDHondt(up, weight, loads, picks, t);
    QuotaSum(up, weight, loads[t], j, |up|);
    FloorBelow(t * weight[j], loads[t][j] + 1, W);
  }

  lemma FloorBelow(x: nat, n: nat, W: nat)
    requires 0 < W && x < n * W
    ensures x / W < n
  {
    assert (x / W) * W <= x;
    MulCancelStrict(x / W, n, W);
  }

  lemma EqualWeightOrder(x: nat, y: nat, w: nat)
    requires 0 < w
    ensures x as real / w as real < y as real / w as real <==> x < y
  {
    CompareScores(y, w, x, w);
    if y <= x { MulNonNegative(x - y, w); } else { MulNonNegative(y - x - 1, w); }
    MulDistribute(x, y, w);
  }

  /** With all weights equal, SED and LeastConn pick alike. */
  lemma SedWithEqualWeightsIsLeastConn(up: seq<bool>, load: seq<nat>, weight: seq<nat>, w: nat, cur: nat)
    requires |up| <= |load| && |up| <= |weight| && cur <= |up|
    requires 0 < w && forall i :: 0 <= i < |up| ==> weight[i] == w
    ensures Pick(Bids(Sed, up, load, weight), cur) == Pick(Bids(LeastConn, up, load, weight), cur)
  {
    var a, b := Bids(Sed, up, load, weight), Bids(LeastConn, up, load, weight);
    forall i, j | 0 <= i < |a| && 0 <= j < |a| && a[i].Bid? && a[j].Bid?
      ensures a[i].score < a[j].score <==> b[i].score < b[j].score
    {
      EqualWeightOrder(load[i] + 1, load[j] + 1, w);
    }
    SameOrderSameScan(a, b, cur, |a|, -1);
    SameOrderSameScan(a, b, 0, cur, Scan(a, cur, |a|, -1));
  }

  /** Never queue: while some weighted eligible endpoint is idle, NQ picks an idle one. */
  lemma NqNeverQueues(up: seq<bool>, load: seq<nat>, weight: seq<nat>, cur: nat, i: nat)
    requires |up| <= |load| && |up| <= |weight| && cur <= |up|
    requires i < |up| && up[i] && weight[i] > 0 && load[i] == 0
    ensures var p := Pick(Bids(Nq, up, load, weight), cur); 0 <= p && up[p] && weight[p] > 0 && load[p] == 0
  {
    var bids := Bids(Nq, up, load, weight);
    PickIsFirstMin(bids, cur);
    var p := Pick(bids, cur);
    assert bids[i] == Bid(0.0);
    if load[p] > 0 { QuotientPositive(load[p] + 1, weight[p]); }
  }

  lemma BusyScores(load: nat, weight: nat)
    ensures 0 < weight ==> (load + 1) as real / weight as real > 0.0
  {
    if 0 < weight { QuotientPositive(load + 1, weight); }
  }

  /** With every weighted eligible endpoint busy, NQ's bids are SED's, and so are its picks. */
  lemma BusyNqIsSed(up: seq<bool>, load: seq<nat>, weight: seq<nat>, cur: nat)
    requires |up| <= |load| && |up| <= |weight| && cur <= |up|
    requires forall i :: 0 <= i < |up| && up[i] && weight[i] > 0 ==> load[i] > 0
    ensures Bids(Nq, up, load, weight) == Bids(Sed, up, load, weight)
    ensures Pick(Bids(Nq, up, load, weight), cur) == Pick(Bids(Sed, up, load, weight), cur)
  {
  }

  /** One of the minima, or none when nobody bids. */
  ghost predicate MinOrNone(bids: seq<Bid>, best: int) {
    if best < 0 then best == PICK_NONE && forall i :: 0 <= i < |bids| ==> bids[i].Out? else IsMin(bids, best)
  }

  // ---- which minimum the reservoir keeps ---------------------------------------------------

  lemma SkipAhead(c: nat, x: Word)
    requires x != 0
    ensures c <= c * 0x1_0000_0000 / x
  {
    var q := c * 0x1_0000_0000 / x;
    assert c * 0x1_0000_0000 < (q + 1) * x;
    MulNonNegative(c, 0x1_0000_0000 - x);
    MulCancelStrict(c, q + 1, x);
  }

  /** floor(c / u) + 1 for u = x / 2^32 in (0, 1): the index of the next tie that replaces, always ahead of c. */
  function NextReplacement(c: nat, x: Word): (r: nat)
    requires x != 0
    ensures c < r
  {
    SkipAhead(c, x);
    c * 0x1_0000_0000 / x + 1
  }

  /** Who holds, and the last word drawn. */
  datatype Held = Held(who: int, x: Word)

  /** The tie that holds out of K when tie c holds now and x is the last word drawn: a chain of skip draws. */
  function Chain(c: nat, K: nat, x: Word): (h: Held)
    requires 0 < c <= K && x != 0
    ensures c <= h.who <= K && h.x != 0
    decreases K - c
  {
    if c == K then Held(c, x)
    else
      StepKeepsNonZero(x);
      var next := NextReplacement(c, Step(x));
      if next > K then Held(c, Step(x)) else Chain(next, K, Step(x))
  }

  /** The endpoints below n that bid v, in order. */
  function TiesWith(bids: seq<Bid>, v: real, n: nat): (m: seq<nat>)
    requires n <= |bids|
    ensures forall k :: 0 <= k < |m| ==> m[k] < n && bids[m[k]] == Bid(v)
    ensures forall k :: 0 <= k < n && bids[k] == Bid(v) ==> k in m
  {
    if n == 0 then [] else TiesWith(bids, v, n - 1) + (if bids[n - 1] == Bid(v) then [n - 1] else [])
  }

  lemma {:induction false} NoTies(bids: seq<Bid>, v: real, n: nat)
    requires n <= |bids| && forall k :: 0 <= k < n ==> bids[k] != Bid(v)
    ensures TiesWith(bids, v, n) == []
  {
    if n > 0 { NoTies(bids, v, n - 1); }
  }

  /**
   Who holds after a scan of the endpoints below n from generator state `start`: of the minima, the one the skip
   draws single out. The words before those were spent on the ties among the endpoints before the first minimum.
   */
  function Kept(bids: seq<Bid>, n: nat, start: Word): (h: Held)
    requires n <= |bids| && start != 0
    ensures h.x != 0
  {
    ScanIsFirstBest(bids, 0, n, -1);
    var first := Scan(bids, 0, n, -1);
    if first < 0 then Held(PICK_NONE, start)
    else
      var minima := TiesWith(bids, bids[first].score, n);
      var h := Chain(1, |minima|, Kept(bids, first, start).x);
      Held(minima[h.who - 1], h.x)
  }

  /** So the reservoir never leaves the minima, whatever is drawn. */
  lemma KeptIsMin(bids: seq<Bid>, start: Word)
    requires start != 0
    ensures MinOrNone(bids, Kept(bids, |bids|, start).who)
  {
    hide Step, NextReplacement;
    ScanIsFirstBest(bids, 0, |bids|, -1);
  }

  /** None of the first n draws from `start` is an idle endpoint. */
  ghost predicate NoneIdle(bids: seq<Bid>, start: Word, n: nat) {
    forall t :: 0 <= t < n ==> Draw(StateAfter(start, t), |bids|) < |bids| && bids[Draw(StateAfter(start, t), |bids|)] != Bid(0.0)
  }

  /** best is the first idle endpoint among the first four draws from `start`, and x the state it left. */
  ghost predicate IdleDrawn(bids: seq<Bid>, best: int, start: Word, x: Word) {
    && 0 <= best < |bids| && bids[best] == Bid(0.0)
    && exists t ::
      0 <= t < 4 && NoneIdle(bids, start, t) && best == Draw(StateAfter(start, t), |bids|) && x == StateAfter(start, t + 1)
  }

  /** The end of the chain among K ties, when tie h holds after c of them and r is the skip drawn (0: none yet). */
  function Ahead(h: nat, c: nat, r: nat, x: Word, K: nat): Held
    requires 0 < c <= K && x != 0 && (r != 0 ==> c < r)
  {
    if r == 0 then Chain(c, K, x) else if r > K then Held(h, x) else Chain(r, K, x)
  }

  /** The scan is on its way along the chain from x0, however many ties are still to come. */
  ghost predicate OnChain(h: nat, c: nat, r: nat, x: Word, x0: Word) {
    && x0 != 0 && x != 0 && 0 < h <= c && (if r == 0 then h == c else c < r)
    && forall K :: c <= K ==> Chain(1, K, x0) == Ahead(h, c, r, x, K)
  }

  lemma MeetOnChain(h: nat, c: nat, r: nat, x: Word, x0: Word)
    requires OnChain(h, c, r, x, x0)
    ensures Step(x) != 0
    ensures
      var x' := if r == 0 then Step(x) else x;
      var r' := if r == 0 then NextReplacement(c, x') else r;
      if c + 1 == r' then OnChain(r', r', 0, x', x0) else OnChain(h, c + 1, r', x', x0)
  {
    StepKeepsNonZero(x);
    hide Step, NextReplacement;
  }

  /** The scan has passed the endpoints below n. */
  ghost predicate Running(bids: seq<Bid>, n: nat, best: int, h: nat, c: nat, r: nat, x: Word, start: Word) {
    && start != 0 && x != 0 && n <= |bids|
    && var first := Scan(bids, 0, n, -1);
    if first < 0 then best == PICK_NONE && x == start
    else
      && 0 <= best < n && bids[best] == bids[first]
      && var minima := TiesWith(bids, bids[first].score, n);
      h <= c == |minima| && 0 < h && minima[h - 1] == best && OnChain(h, c, r, x, Kept(bids, first, start).x)
  }

  lemma {:induction false} ScanOneMore(bids: seq<Bid>, i: nat, n: nat, best: int)
    requires i <= n < |bids| && -1 <= best < |bids| && (best >= 0 ==> bids[best].Bid?)
    ensures var b := Scan(bids, i, n, best); Scan(bids, i, n + 1, best) == if Better(bids, n, b) then n else b
    decreases n - i
  {
    if i < n { ScanOneMore(bids, i + 1, n, if Better(bids, i, best) then i else best); }
  }

  lemma RunningIsKept(bids: seq<Bid>, n: nat, best: int, h: nat, c: nat, r: nat, x: Word, start: Word)
    requires Running(bids, n, best, h, c, r, x, start)
    ensures Kept(bids, n, start) == Held(best, x)
    ensures -1 <= best < n && (best >= 0 ==> bids[best].Bid?)
  {
    hide Step, NextReplacement;
    ScanIsFirstBest(bids, 0, n, -1);
    var first := Scan(bids, 0, n, -1);
    if first >= 0 {
      assert Chain(1, c, Kept(bids, first, start).x) == Ahead(h, c, r, x, c);
    }
  }

  lemma RunBegins(bids: seq<Bid>, start: Word)
    requires start != 0
    ensures Running(bids, 0, PICK_NONE, 0, 0, 0, start, start)
  {
  }

  lemma RunStart(bids: seq<Bid>, i: nat, best: int, h: nat, c: nat, r: nat, x: Word, start: Word)
    requires Running(bids, i, best, h, c, r, x, start) && i < |bids| && -1 <= best < i && (best >= 0 ==> bids[best].Bid?)
    requires Better(bids, i, best)
    ensures Running(bids, i + 1, i, 1, 1, 0, x, start)
  {
    hide Step, NextReplacement, Kept;
    RunningIsKept(bids, i, best, h, c, r, x, start);
    ScanIsFirstBest(bids, 0, i, -1);
    ScanOneMore(bids, 0, i, -1);
    NoTies(bids, bids[i].score, i);
  }

  lemma RunSkip(bids: seq<Bid>, i: nat, best: int, h: nat, c: nat, r: nat, x: Word, start: Word)
    requires Running(bids, i, best, h, c, r, x, start) && i < |bids| && -1 <= best < i && (best >= 0 ==> bids[best].Bid?)
    requires !Better(bids, i, best) && (best >= 0 ==> bids[i] != bids[best])
    ensures Running(bids, i + 1, best, h, c, r, x, start)
  {
    hide Step, NextReplacement, Kept, OnChain;
    ScanOneMore(bids, 0, i, -1);
  }

  lemma RunMeet(bids: seq<Bid>, i: nat, best: int, h: nat, c: nat, r: nat, x: Word, start: Word)
    requires Running(bids, i, best, h, c, r, x, start) && i < |bids| && 0 <= best < i && bids[best].Bid? && bids[i] == bids[best]
    ensures 0 < c && Step(x) != 0
    ensures
      var x' := if r == 0 then Step(x) else x;
      var r' := if r == 0 then NextReplacement(c, x') else r;
      if c + 1 == r' then Running(bids, i + 1, i, r', r', 0, x', start) else Running(bids, i + 1, best, h, c + 1, r', x', start)
  {
    var first := Scan(bids, 0, i, -1);
    var x0 := Kept(bids, first, start).x;
    MeetOnChain(h, c, r, x, x0);
    ScanOneMore(bids, 0, i, -1);
    hide Step, NextReplacement, Kept, OnChain;
  }

  // ---- the balancers -----------------------------------------------------------------------

  class LoadBalancer {
    const rule: Rule
    const base: BalancerBase
    const inflight: array<nat>
    const weights: array<nat>
    const rng: Generator
    /** The rotating tie-break cursor: the next scan's preferred start. */
    var cur: nat

    ghost predicate Valid()
      reads this, base, base.eligible, rng
    {
      && base.Valid() && rng.Valid() && cur <= base.cap
      && base.cap <= inflight.Length && base.cap <= weights.Length
    }

    ghost function Standing(): (bids: seq<Bid>)
      requires Valid()
      reads this, base, base.eligible, rng, inflight, weights
      ensures |bids| == base.cap
    {
      Bids(rule, base.Up(), inflight[..], weights[..])
    }

    constructor (kind: Rule, capacity: nat, view: array<bool>, load: array<nat>, ws: array<nat>, seed: Word)
      requires 1 <= capacity <= view.Length && capacity <= load.Length && capacity <= ws.Length
      ensures Valid() && fresh(base) && fresh(rng) && cur == 0
      ensures rule == kind && base.eligible == view && base.cap == capacity && inflight == load && weights == ws
    {
      rule, inflight, weights, cur := kind, load, ws, 0;
      base := new BalancerBase(capacity, view);
      rng := new Generator(seed);
    }

    function OfferAt(i: nat): (b: Bid)
      requires Valid() && i < base.cap
      reads this, base, base.eligible, rng, inflight, weights
      ensures b == Standing()[i]
    {
      Offer(rule, base.eligible[i], inflight[i], weights[i])
    }

    /** NQ has met no idle endpoint yet. */
    ghost predicate NoIdleYet(best: int)
      requires Valid() && -1 <= best < base.cap
      reads this, base, base.eligible, rng, inflight, weights
    {
      best >= 0 ==> Standing()[best].Bid? && (rule.Nq? ==> Standing()[best].score > 0.0)
    }

    /** One of the two scan loops; NQ stops at the first idle endpoint. */
    method ScanRange(lo: nat, hi: nat, best: int) returns (b: int, idle: bool)
      requires Valid() && lo <= hi <= base.cap
      requires -1 <= best < base.cap && NoIdleYet(best)
      ensures b == Scan(Standing(), lo, hi, best)
      ensures if idle then b >= 0 && Standing()[b] == Bid(0.0) else NoIdleYet(b)
    {
      ghost var bids := Standing();
      ScoresNonNegative(rule, base.Up(), inflight[..], weights[..]);
      b := best;
      for i := lo to hi
        invariant -1 <= b < base.cap && NoIdleYet(b)
        invariant Scan(bids, lo, hi, best) == Scan(bids, i, hi, b)
      {
        var bid := OfferAt(i);
        if bid.Bid? {
          if rule.Nq? && inflight[i] == 0 {
            ZeroIsKept(bids, i + 1, hi, i);
            return i, true;
          }
          if rule.Nq? { QuotientPositive(inflight[i] + 1, weights[i]); }
          if b < 0 || bid.score < OfferAt(b).score { b := i; }
        }
      }
      idle := false;
    }

    /** Ties rotate: the first minimum at or after the cursor, which then moves just past it. */
    method Pick() returns (best: int)
      requires Valid()
      modifies this`cur
      ensures Valid()
      ensures best == CircularScan.Pick(Standing(), old(cur))
      ensures cur == if best < 0 then old(cur) else best + 1
    {
      CursorWraps(Standing());
      if base.live == 0 {
        NoneLive(cur);
        return PICK_NONE;
      }
      var start := if cur < base.cap then cur else 0;
      ghost var bids := Standing();
      ScoresNonNegative(rule, base.Up(), inflight[..], weights[..]);
      var idle;
      best, idle := ScanRange(start, base.cap, -1);
      if idle {
        ZeroIsKept(bids, 0, start, best);
      } else {
        best, idle := ScanRange(0, start, best);
      }
      if best < 0 { return PICK_NONE; }
      cur := best + 1;
    }

    lemma NoneLive(start: nat)
      requires Valid() && base.live == 0 && start <= base.cap
      ensures CircularScan.Pick(Standing(), start) == PICK_NONE
    {
      NobodyBids();
      PickIsFirstMin(Standing(), start);
    }

    lemma NobodyBids()
      requires Valid() && base.live == 0
      ensures forall i :: 0 <= i < base.cap ==> Standing()[i].Out?
    {
      LiveToPositive(base.Up(), base.cap);
    }

    /**
     `ties: 'random'`: one ascending scan with a skip-based reservoir. Whatever the generator draws, the
     result is one of the minima, and none only when nobody bids; which one is decided by the skip draws alone,
     unless NQ has drawn an idle endpoint before the scan.
     */
    method PickRandom() returns (best: int)
      requires Valid()
      modifies rng
      ensures Valid()
      ensures MinOrNone(Standing(), best)
      ensures
        || (base.live == 0 && best == PICK_NONE && rng.s == old(rng.s))
        || (rule.Nq? && IdleDrawn(Standing(), best, old(rng.s), rng.s))
        || (var x := StateAfter(old(rng.s), if rule.Nq? then NQ_IDLE_TRIES else 0);
            x != 0 && Held(best, rng.s) == Kept(Standing(), base.cap, x) && (rule.Nq? ==> NoneIdle(Standing(), old(rng.s), 4)))
    {
      ghost var bids := Standing();
      ScoresNonNegative(rule, base.Up(), inflight[..], weights[..]);
      if base.live == 0 {
        NobodyBids();
        return PICK_NONE;
      }
      hide Step, Draw, Offer;
      if rule.Nq? {
        best := IdleDraw();
        if best >= 0 { return; }
      }
      hide MinOrNone;
      assert Standing() == bids;
      hide StateAfter;
      var x;
      best, x := Reservoir(rng.s);
      KeptIsMin(bids, rng.s);
      rng.s := x;
      assert Standing() == bids;
    }

    /** NQ draws a few endpoints at random first, in the hope of an idle one. */
    method IdleDraw() returns (j: int)
      requires Valid() && rule.Nq?
      modifies rng
      ensures Valid() && Standing() == old(Standing())
      ensures if j == PICK_NONE then rng.s == StateAfter(old(rng.s), NQ_IDLE_TRIES) && NoneIdle(Standing(), old(rng.s), 4)
              else IdleDrawn(Standing(), j, old(rng.s), rng.s) && Standing()[j] == Bid(0.0)
    {
      hide Step, Draw;
      ghost var bids, x0 := Standing(), rng.s;
      for t := 0 to NQ_IDLE_TRIES
        invariant Valid() && Standing() == bids && rng.s == StateAfter(x0, t) && NoneIdle(bids, x0, t)
      {
        j := rng.NextBelow(base.cap);
        assert j == Draw(StateAfter(x0, t), base.cap) && rng.s == StateAfter(x0, t + 1);
        BusyScores(inflight[j], weights[j]);
        if inflight[j] == 0 && base.eligible[j] && weights[j] > 0 { return; }
      }
      j := PICK_NONE;
    }

    /** The scan: a tie replaces the holder only when the tie count c reaches the drawn skip r. */
    method Reservoir(start: Word) returns (best: int, x: Word)
      requires Valid() && start != 0
      ensures Held(best, x) == Kept(Standing(), base.cap, start)
    {
      ghost var bids := Standing();
      var lowest, c: nat, r: nat := 0.0, 0, 0;
      best, x := PICK_NONE, start;
      ghost var h: nat := 0;
      hide Step, Running, Kept, Offer, Bids, LiveTo;
      RunBegins(bids, start);
      for i := 0 to base.cap
        invariant -1 <= best < i && (best >= 0 ==> bids[best] == Bid(lowest))
        invariant Running(bids, i, best, h, c, r, x, start)
      {
        var bid := OfferAt(i);
        if bid.Bid? && (best < 0 || bid.score < lowest) {
          RunStart(bids, i, best, h, c, r, x, start);
          lowest, best, c, r, h := bid.score, i, 1, 0, 1;
        } else if bid.Bid? && bid.score == lowest {
          best, h, c, r, x := MeetTie(bids, i, best, h, c, r, x, start);
        } else {
          RunSkip(bids, i, best, h, c, r, x, start);
        }
      }
      RunningIsKept(bids, base.cap, best, h, c, r, x, start);
    }
  }

  /** One more tie: a skip is drawn if none is pending, and the tie takes over if the count reaches it. */
  method MeetTie(ghost bids: seq<Bid>, i: nat, best: int, ghost h: nat, c: nat, r: nat, x: Word, ghost start: Word)
    returns (best': int, ghost h': nat, c': nat, r': nat, x': Word)
    requires Running(bids, i, best, h, c, r, x, start) && i < |bids| && 0 <= best < i && bids[best].Bid? && bids[i] == bids[best]
    ensures Running(bids, i + 1, best', h', c', r', x', start) && 0 <= best' <= i && bids[best'] == bids[best]
  {
    hide Step, NextReplacement, Running;
    RunMeet(bids, i, best, h, c, r, x, start);
    best', h', r', x' := best, h, r, x;
    if r' == 0 {
      x' := Step(x);
      r' := NextReplacement(c, x');
    }
    c' := c + 1;
    if c' == r' { best', h', r' := i, c', 0; }
  }

  /** The words after which the holder among c ties survives ties c+1, ..., m. */
  ghost function WordsKeeping(c: nat, m: nat): (s: set<int>) {
    set x: nat | x in Below(TWO32) && KeepsThrough(c, m, x)
  }

  predicate KeepsThrough(c: nat, m: nat, x: nat) {
    0 < x < TWO32 && NextReplacement(c, x) > m
  }

  lemma KeepsWhenSmall(c: nat, m: nat, x: Word)
    requires x != 0 && 0 < m
    ensures NextReplacement(c, x) > m <==> x <= c * 0x1_0000_0000 / m
  {
    var a := c * 0x1_0000_0000;
    var q, p := a / x, a / m;
    assert q * x <= a < (q + 1) * x && p * m <= a < (p + 1) * m;
    if q >= m {
      MulNonNegative(q - m, x);
      MulDistribute(q, m, x);
      MulCancelStrict(x, p + 1, m);
    } else {
      MulNonNegative(m - q - 1, x);
      MulSplit(m, q, x);
      MulCancelStrict(p, x, m);
    }
  }

  lemma QuotientBelow(c: nat, m: nat)
    requires 0 < c < m
    ensures var q := c * 0x1_0000_0000 / m; q < TWO32 && NearShare(q, c, m)
  {
    var q := c * 0x1_0000_0000 / m;
    assert q * m <= c * 0x1_0000_0000 < q * m + m;
    MulNonNegative(m - c - 1, 0x1_0000_0000);
    MulCancelStrict(q, 0x1_0000_0000, m);
  }

  lemma KeepingIsInterval(c: nat, m: nat, q: nat)
    requires 0 < c < m && q == c * 0x1_0000_0000 / m && q < TWO32
    ensures WordsKeeping(c, m) == Below(q + 1) - Below(1)
  {
    forall x: nat | 0 < x < TWO32 ensures KeepsThrough(c, m, x) <==> x <= q {
      KeepsWhenSmall(c, m, x);
    }
  }

  /**
   The skip draws are fair: of all words a share c/m, to within one word, lets the holder among c ties survive
   through tie m. That is the chance a reservoir gives it that replaces at tie j with chance 1/j.
   */
  lemma ReplacementShare(c: nat, m: nat)
    requires 0 < c < m
    ensures NearShare(|WordsKeeping(c, m)|, c, m)
  {
    hide NextReplacement, NearShare;
    var q := c * 0x1_0000_0000 / m;
    QuotientBelow(c, m);
    KeepingIsInterval(c, m, q);
    IntervalSize(1, q + 1);
  }

  ghost predicate HoldsThrough(c: nat, K: nat, x: nat) {
    0 < x < TWO32 && 0 < c <= K && Chain(c, K, x).who == c
  }

  /** So the reservoir itself keeps its holder among c ties through K of them for a share c/K of all generator states. */
  lemma HolderShare(c: nat, K: nat)
    requires 0 < c < K
    ensures NearShare(|set x: nat | x in Below(TWO32) && HoldsThrough(c, K, x)|, c, K)
  {
    hide Step, NextReplacement, NearShare;
    var f := StepAsFunction();
    ReplacementShare(c, K);
    PreimageSize(TWO32, f, WordsKeeping(c, K));
    StepOfZero();
    forall x: nat | x < TWO32 ensures f(x) in WordsKeeping(c, K) <==> HoldsThrough(c, K, x) {
      if x > 0 { StepKeepsNonZero(x); }
    }
    assert Preimage(TWO32, f, WordsKeeping(c, K)) == set x: nat | x in Below(TWO32) && HoldsThrough(c, K, x);
  }

  // ---- the reservoir over independent uniform draws ----------------------------------------

  /** The chance that the holder among c ties survives through tie m; `ReplacementShare` is its count over words. */
  function Survives(c: nat, m: nat): (p: real)
    requires 0 < m
  {
    c as real / m as real
  }

  /** The chance that the holder among c ties is replaced at tie m exactly. */
  function ReplacedAt(c: nat, m: nat): (p: real)
    requires 0 < c < m
  {
    Survives(c, m - 1) - Survives(c, m)
  }

  /** The chance that tie k ever becomes the holder: some earlier holder's draw lands on it. */
  function Takes(k: nat): (p: real)
    requires 0 < k
    decreases k, k
  {
    if k == 1 then 1.0 else TakesFrom(k, k - 1)
  }

  /** Its part over the holders among ties 1, ..., n. */
  function TakesFrom(k: nat, n: nat): (p: real)
    requires n < k
    decreases k, n
  {
    if n == 0 then 0.0 else TakesFrom(k, n - 1) + Takes(n) * ReplacedAt(n, k)
  }

  lemma Telescopes(a: real, b: real)
    requires a > 0.0 && b > 0.0
    ensures 1.0 / a * (a / b - a / (b + 1.0)) == 1.0 / (b * (b + 1.0))
  {
    var c := b + 1.0;
    Cancels(a, b);
    Cancels(a, c);
    Difference(b);
    assert 1.0 / a * (a / b - a / c) == 1.0 / a * (a / b) - 1.0 / a * (a / c);
  }

  lemma Cancels(a: real, b: real)
    requires a > 0.0 && b > 0.0
    ensures 1.0 / a * (a / b) == 1.0 / b
  {
  }

  lemma Difference(b: real)
    requires b > 0.0
    ensures 1.0 / b - 1.0 / (b + 1.0) == 1.0 / (b * (b + 1.0))
  {
  }

  lemma StepChance(n: nat, k: nat)
    requires 0 < n < k
    ensures 1.0 / n as real * ReplacedAt(n, k) == 1.0 / ((k - 1) as real * k as real)
  {
    Telescopes(n as real, (k - 1) as real);
  }

  lemma AddChance(n: nat, d: real)
    requires 0 < n && d > 0.0
    ensures (n - 1) as real / d + 1.0 / d == n as real / d
  {
  }

  lemma {:induction false} TakesFromIs(k: nat, n: nat)
    requires n < k && 1 < k
    ensures TakesFrom(k, n) == n as real / ((k - 1) as real * k as real)
    decreases k, n
  {
    var d := (k - 1) as real * k as real;
    if n > 0 {
      TakesFromIs(k, n - 1);
      TakesIsOneIn(n);
      StepChance(n, k);
      AddChance(n, d);
    }
  }

  lemma {:induction false} TakesIsOneIn(k: nat)
    requires 0 < k
    ensures Takes(k) == 1.0 / k as real
    decreases k, k
  {
    if k > 1 {
      TakesFromIs(k, k - 1);
      var b, c := (k - 1) as real, k as real;
      assert b / (b * c) == 1.0 / c;
    }
  }

  /** The reservoir is fair: of K ties each is the last holder with chance 1/K. */
  lemma ReservoirIsFair(k: nat, K: nat)
    requires 0 < k <= K
    ensures Takes(k) * Survives(k, K) == 1.0 / K as real
  {
    TakesIsOneIn(k);
    Cancels(k as real, K as real);
  }
}
