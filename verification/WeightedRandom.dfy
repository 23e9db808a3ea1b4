/**
 O(1) weighted sampling: alias draws with rejection over the eligibility view, and a weight-proportional walk
 when 64 draws in a row land on down endpoints.
 */
module WeightedRandom {
  import opened Seqs
  import opened FiniteSets
  import opened Words
  import opened Buckets
  import opened Prng
  import opened Eligibility
  import opened AliasTable

  const ALIAS_TRIES := 64
  const EXACT_SUM := 0x20_0000_0000_0000

  /** What column j yields at word x: x / 2^32 against the column's probability, cross-multiplied. */
  function Choice(prob: seq<real>, alias: seq<nat>, j: nat, x: Word): (c: nat)
    requires j < |prob| == |alias|
  {
    if x as real < prob[j] * 4294967296.0 then j else alias[j]
  }

  ghost function WordsYielding(prob: seq<real>, alias: seq<nat>, j: nat, i: nat): (s: set<int>)
    requires j < |prob| == |alias|
  {
    set x: nat | x in Below(TWO32) && Choice(prob, alias, j, x) == i
  }

  /** How many of the pairs (column below n, 32-bit word) yield i. */
  ghost function PairsYielding(prob: seq<real>, alias: seq<nat>, i: nat, n: nat): (k: nat)
    requires n <= |prob| == |alias|
  {
    if n == 0 then 0 else PairsYielding(prob, alias, i, n - 1) + |WordsYielding(prob, alias, n - 1, i)|
  }

  lemma {:induction false} PairsAreDraws(prob: seq<real>, alias: seq<nat>, i: nat, n: nat)
    requires n <= |prob| == |alias|
    ensures PairsYielding(prob, alias, i, n) == Draws(prob, alias, i, TWO32, n)
  {
    hide ColumnDraws, Below;
    if n > 0 {
      PairsAreDraws(prob, alias, i, n - 1);
      ColumnDrawsCount(prob, alias, n - 1, i, TWO32, TWO32);
      assert WordsYielding(prob, alias, n - 1, i) == set x: nat | x in Below(TWO32) && Outcome(prob, alias, n - 1, x, TWO32) == i;
    }
  }

  /** Over all pairs (column, 32-bit word) index i comes up n * 2^32 * w[i] / W times, to within one per column. */
  lemma PairsAreWeighted(w: seq<nat>, prob: seq<real>, alias: seq<nat>, i: nat)
    requires TableOf(w, prob, alias) && 0 < Sum(w) && i < |w|
    ensures |prob| == |alias| == |w| && Near(TWO32, Share(w, i), PairsYielding(prob, alias, i, |w|), |w|)
  {
    hide PairsYielding, Draws, Share, Near, IsTable;
    DrawsAreWeighted(w, prob, alias, i, TWO32);
    PairsAreDraws(prob, alias, i, |w|);
  }

  /** The t-th alias draw from generator state x. */
  function Candidate(prob: seq<real>, alias: seq<nat>, x: Word, t: nat): (c: nat)
    requires 0 < |prob| == |alias|
  {
    ScaleIsBucket(StateAfter(x, 2 * t + 1), |prob|, 0);
    Choice(prob, alias, Draw(StateAfter(x, 2 * t), |prob|), StateAfter(x, 2 * t + 2))
  }

  /** Each draw takes two words of its own: word 2t+1 for the column, word 2t+2 to compare. */
  lemma CandidateReads(prob: seq<real>, alias: seq<nat>, x: Word, t: nat)
    requires 0 < |prob| == |alias|
    ensures var col := Scale(StateAfter(x, 2 * t + 1), |prob|);
      col < |prob| && Candidate(prob, alias, x, t) == Choice(prob, alias, col, StateAfter(x, 2 * t + 2))
  {
    hide Step, Choice;
    ScaleIsBucket(StateAfter(x, 2 * t + 1), |prob|, 0);
    assert StateAfter(x, 2 * t + 1) == Step(StateAfter(x, 2 * t));
  }

  /** The first n alias draws all land on down endpoints. */
  ghost predicate Rejected(up: seq<bool>, prob: seq<real>, alias: seq<nat>, x: Word, n: nat)
    requires 0 < |prob| == |alias|
  {
    forall e :: 0 <= e < n ==> Candidate(prob, alias, x, e) < |up| && !up[Candidate(prob, alias, x, e)]
  }

  lemma RejectedMore(up: seq<bool>, prob: seq<real>, alias: seq<nat>, x: Word, n: nat)
    requires 0 < |prob| == |alias| && Rejected(up, prob, alias, x, n)
    requires Candidate(prob, alias, x, n) < |up| && !up[Candidate(prob, alias, x, n)]
    ensures Rejected(up, prob, alias, x, n + 1)
  {
  }

  /** i is what a pick from generator state x returns when its first n alias draws are rejected. */
  ghost predicate Answer(up: seq<bool>, w: seq<nat>, prob: seq<real>, alias: seq<nat>, x: Word, n: nat, i: int)
    requires 0 < |prob| == |alias| && |up| <= |w|
  {
    && n <= ALIAS_TRIES && Rejected(up, prob, alias, x, n)
    && if n < ALIAS_TRIES then i == Candidate(prob, alias, x, n) else Hits(EligibleWeights(up, w), StateAfter(x, 2 * n + 1), i)
  }

  ghost predicate WalksTo(share: seq<nat>, i: nat, x: nat) {
    x < TWO32 && Hits(share, Step(x), i)
  }

  /** The generator states whose next word makes the walk over `share` end at i. */
  ghost function StatesWalkingTo(share: seq<nat>, i: nat): (s: set<int>) {
    set x: nat | x in Below(TWO32) && WalksTo(share, i, x)
  }

  /** Over all 2^32 states the walk returns i in proportion to its eligible weight, to within one state. */
  lemma SparseIsProportional(share: seq<nat>, i: nat)
    requires i < |share| && share[i] > 0
    ensures NearShare(|StatesWalkingTo(share, i)|, share[i], Sum(share))
  {
    hide Step;
    var f := StepAsFunction();
    assert StatesWalkingTo(share, i) == Preimage(TWO32, f, Hitters(share, i));
    PreimageSize(TWO32, f, Hitters(share, i));
    HitCount(share, i);
  }

  /** The table a rebuild on w leaves: for a positive sum the alias table of w, else no mass and each column its own alias. */
  ghost predicate TableOf(w: seq<nat>, prob: seq<real>, alias: seq<nat>) {
    if 0 < Sum(w) then ExactTable(w, prob, alias) && IsTable(w, prob, alias)
    else |prob| == |alias| == |w| && forall i :: 0 <= i < |w| ==> prob[i] == 0.0 && alias[i] == i
  }

  /** Two rebuilds on the same weights leave the same table. */
  lemma SameTable(w: seq<nat>, prob: seq<real>, alias: seq<nat>, prob': seq<real>, alias': seq<nat>)
    requires TableOf(w, prob, alias) && TableOf(w, prob', alias')
    ensures prob == prob' && alias == alias'
  {
    if 0 < Sum(w) { TableIsUnique(w, prob, alias, prob', alias'); }
  }

  lemma TableHasWeight(w: seq<nat>, prob: seq<real>, alias: seq<nat>, j: nat, x: Word)
    requires TableOf(w, prob, alias) && 0 < Sum(w) && j < |w|
    ensures |prob| == |alias| == |w| && Choice(prob, alias, j, x) < |w| && w[Choice(prob, alias, j, x)] > 0
  {
    OutcomeHasWeight(w, prob, alias, j, x, TWO32);
  }

  class WeightedRandomBalancer {
    const base: BalancerBase
    const weights: array<nat>
    const rng: Generator
    const prob: array<real>
    const alias: array<nat>
    const small: array<nat>
    const large: array<nat>
    const scaled: array<real>
    /** The weights the alias table was built on. */
    const built: array<nat>
    var psum: nat
    var ew: nat

    ghost predicate Shape()
      reads this, base, base.eligible, rng
    {
      && base.Valid() && rng.Valid() && base.cap <= weights.Length
      && prob.Length == alias.Length == small.Length == large.Length == scaled.Length == built.Length == base.cap
      && prob != scaled && small != large && alias != small && alias != large && built != small && built != large && built != alias
      && weights != small && weights != large && weights != alias && weights != built
    }

    /** Every cache agrees with the built snapshot, whatever the caller's own weights say meanwhile. */
    ghost predicate Valid()
      reads this, base, base.eligible, rng, prob, alias, built
    {
      && Shape()
      && psum == Sum(built[..])
      && ew == Sum(EligibleWeights(base.Up(), built[..]))
      && TableOf(built[..], prob[..], alias[..])
    }

    constructor (capacity: nat, view: array<bool>, ws: array<nat>, seed: Word)
      requires 1 <= capacity <= view.Length && capacity <= ws.Length
      ensures Valid() && fresh(base) && fresh(rng)
      ensures fresh(prob) && fresh(alias) && fresh(small) && fresh(large) && fresh(scaled) && fresh(built)
      ensures base.eligible == view && base.cap == capacity && weights == ws && built[..] == ws[..capacity]
    {
      base := new BalancerBase(capacity, view);
      weights, psum, ew := ws, 0, 0;
      rng := new Generator(seed);
      prob := new real[capacity](_ => 0.0);
      alias := new nat[capacity](_ => 0);
      small := new nat[capacity](_ => 0);
      large := new nat[capacity](_ => 0);
      scaled := new real[capacity](_ => 0.0);
      built := new nat[capacity](_ => 0);
      new;
      Rebuild();
    }

    /** Snapshot the weights and rebuild the table on them; on the weights it was built on, that changes nothing. */
    method Rebuild()
      requires Shape()
      modifies this`psum, this`ew, prob, alias, small, large, scaled, built
      ensures Valid() && built[..] == weights[..base.cap]
      ensures old(Valid() && built[..] == weights[..base.cap]) ==>
        prob[..] == old(prob[..]) && alias[..] == old(alias[..]) && psum == old(psum) && ew == old(ew)
    {
      hide ExactTable, IsTable, TableOf;
      ghost var p0, a0 := prob[..], alias[..];
      Snapshot();
      if psum == 0 { ClearTable(); } else { FillTable(); }
      if old(Valid() && built[..] == weights[..base.cap]) {
        SameTable(built[..], p0, a0, prob[..], alias[..]);
      }
    }

    method ClearTable()
      requires Shape() && psum == Sum(built[..]) == 0
      modifies prob, alias
      ensures TableOf(built[..], prob[..], alias[..]) && built[..] == old(built[..]) && weights[..] == old(weights[..])
    {
      for i := 0 to base.cap
        invariant built[..] == old(built[..]) && weights[..] == old(weights[..])
        invariant forall k :: 0 <= k < i ==> prob[k] == 0.0 && alias[k] == k
      {
        prob[i] := 0.0;
        alias[i] := i;
      }
    }

    method FillTable()
      requires Shape() && psum == Sum(built[..]) > 0
      modifies prob, alias, small, large, scaled
      ensures TableOf(built[..], prob[..], alias[..]) && built[..] == old(built[..]) && weights[..] == old(weights[..])
    {
      hide ExactTable, IsTable;
      Build(built, built[..], psum, prob, alias, scaled, small, large);
    }

    method Snapshot()
      requires Shape()
      modifies this`psum, this`ew, built
      ensures Shape() && built[..] == weights[..base.cap]
      ensures psum == Sum(built[..]) && ew == Sum(EligibleWeights(base.Up(), built[..]))
    {
      ghost var w, up := weights[..base.cap], base.Up();
      psum, ew := 0, 0;
      for i := 0 to base.cap
        invariant Shape() && weights[..base.cap] == w && base.Up() == up
        invariant built[..i] == w[..i]
        invariant psum == SumTo(w, i) && ew == SumTo(EligibleWeights(up, w), i)
      {
        var v := weights[i];
        assert v == w[i];
        built[i] := v;
        psum := psum + v;
        if base.eligible[i] { ew := ew + v; }
      }
      assert built[..] == w;
    }

    /** A flap never rebuilds; past the exact-sum regime the cache is recounted instead of adjusted. */
    method SetEligible(i: nat, up: bool)
      requires Valid() && i < base.cap
      modifies base, base.eligible, this`ew
      ensures Valid() && base.Up() == old(base.Up())[i := up]
    {
      hide ExactTable, IsTable, TableOf, LiveTo;
      ghost var was, b := base.Up(), built[..];
      EligibleWeightsFlip(was, b, i, up);
      SumUpdate(EligibleWeights(was, b), i, if up then b[i] else 0);
      SumToNonNegative(EligibleWeights(was, b), |was|);
      var before := base.eligible[i];
      base.SetEligible(i, up);
      if before == up { return; }
      if psum < EXACT_SUM {
        ew := if up then ew + built[i] else ew - built[i];
      } else {
        ew := 0;
        for j := 0 to base.cap
          invariant base.Valid() && base.Up() == was[i := up]
          invariant ew == SumTo(EligibleWeights(base.Up(), b), j)
        {
          if base.eligible[j] { ew := ew + built[j]; }
        }
      }
    }

    /**
     The rebuild is skipped only when the new weight is the built one. It is then one that would change nothing,
     unless the caller has edited another weight in place since the last build.
     */
    method SetWeight(i: nat, w: nat)
      requires Valid() && i < base.cap
      modifies weights, this`psum, this`ew, prob, alias, small, large, scaled, built
      ensures Valid() && weights[..] == old(weights[..])[i := w]
      ensures built[..] == if w == old(built[i]) then old(built[..]) else weights[..base.cap]
      ensures built[..] == weights[..base.cap] <==>
        w != old(built[i]) || forall k :: 0 <= k < base.cap && k != i ==> old(weights[k]) == old(built[k])
    {
      weights[i] := w;
      if w == built[i] { return; }
      Rebuild();
    }

    /** Batch form: afterwards the table is the one for exactly these weights. */
    method SetWeights(ws: seq<nat>)
      requires Valid() && |ws| >= base.cap
      modifies weights, this`psum, this`ew, prob, alias, small, large, scaled, built
      ensures Valid() && built[..] == weights[..base.cap] == ws[..base.cap]
    {
      for k := 0 to base.cap
        invariant Valid() && weights[..k] == ws[..k]
      {
        weights[k] := ws[k];
      }
      var i := 0;
      while i < base.cap && weights[i] == built[i]
        invariant i <= base.cap && built[..i] == weights[..i]
      {
        i := i + 1;
      }
      if i == base.cap { return; }
      Rebuild();
    }

    /** Eligible with a positive built weight. */
    ghost predicate Servable(i: int)
      requires base.cap <= base.eligible.Length && base.cap <= built.Length
      reads base, base.eligible, built
    {
      0 <= i < base.cap && base.Up()[i] && built[i] > 0
    }

    /**
     For every generator state: a servable endpoint, or none exactly when there is none. It is the first of the
     alias draws to land on an eligible endpoint, or the walk's answer after 64 that do not.
     */
    method Pick() returns (i: int)
      requires Valid()
      modifies rng
      ensures Valid()
      ensures if i < 0 then i == PICK_NONE && forall k :: !Servable(k) else Servable(i)
      ensures i >= 0 ==> exists n :: Answer(base.Up(), built[..], prob[..], alias[..], old(rng.s), n, i)
    {
      ghost var x0 := rng.s;
      if base.live == 0 || psum == 0 {
        NothingServable();
        return PICK_NONE;
      }
      ghost var n;
      i, n := AliasDraws(base.Up(), built[..], prob[..], alias[..]);
      if i < 0 { i := SparsePick(); }
      assert i >= 0 ==> Answer(base.Up(), built[..], prob[..], alias[..], x0, n, i);
    }

    /** Up to 64 alias draws, stopping at the first that lands on an eligible endpoint. */
    method AliasDraws(ghost up: seq<bool>, ghost w: seq<nat>, ghost p: seq<real>, ghost a: seq<nat>) returns (i: int, ghost n: nat)
      requires Valid() && psum > 0
      requires up == base.Up() && w == built[..] && p == prob[..] && a == alias[..]
      modifies rng
      ensures Valid() && Rejected(up, p, a, old(rng.s), n) && n <= ALIAS_TRIES
      ensures if i < 0 then n == ALIAS_TRIES && rng.s == StateAfter(old(rng.s), 2 * n)
              else n < ALIAS_TRIES && i == Candidate(p, a, old(rng.s), n) && Servable(i)
    {
      hide Step, Draw, Choice, ExactTable, IsTable, TableOf;
      ghost var x0 := rng.s;
      var t := 0;
      while t < ALIAS_TRIES
        invariant 0 <= t <= ALIAS_TRIES && Valid() && rng.s == StateAfter(x0, 2 * t) && Rejected(up, p, a, x0, t)
      {
        var cand := AliasDraw(x0, t, w, p, a);
        if base.eligible[cand] { return cand, t; }
        RejectedMore(up, p, a, x0, t);
        t := t + 1;
      }
      return PICK_NONE, t;
    }

    /** One column draw and one probability compare. */
    method AliasDraw(ghost x: Word, ghost t: nat, ghost w: seq<nat>, ghost p: seq<real>, ghost a: seq<nat>) returns (cand: nat)
      requires Valid() && psum > 0 && rng.s == StateAfter(x, 2 * t)
      requires w == built[..] && p == prob[..] && a == alias[..]
      modifies rng
      ensures Valid() && rng.s == StateAfter(x, 2 * (t + 1))
      ensures cand == Candidate(p, a, x, t) && cand < |w| && w[cand] > 0
    {
      hide Step, Draw, ExactTable, IsTable, TableOf, LiveTo;
      var col := rng.NextBelow(base.cap);
      assert rng.s == StateAfter(x, 2 * t + 1);
      var x' := rng.Next();
      assert x' == StateAfter(x, 2 * t + 2);
      TableHasWeight(w, p, a, col, x');
      cand := if x' as real < prob[col] * 4294967296.0 then col else alias[col];
      assert cand == Choice(p, a, col, x');
    }

    lemma NothingServable()
      requires Valid() && (base.live == 0 || psum == 0)
      ensures forall k :: !Servable(k)
    {
      LiveToPositive(base.Up(), base.cap);
      SumToNonNegative(built[..], base.cap);
    }

    /**
     The weight-proportional walk: u = x / 2^32 * s is kept as an exact multiple of 2^-32. It returns the
     endpoint whose cumulative interval holds the draw; the walk never runs off the end.
     */
    method SparsePick() returns (i: int)
      requires Valid()
      modifies rng
      ensures Valid()
      ensures if i < 0 then i == PICK_NONE && forall k :: !Servable(k)
              else Servable(i) && rng.s == Step(old(rng.s)) && Hits(EligibleWeights(base.Up(), built[..]), rng.s, i)
    {
      ghost var share := EligibleWeights(base.Up(), built[..]);
      SumToNonNegative(share, base.cap);
      var s := ew;
      if s == 0 {
        assert forall k :: Servable(k) ==> share[k] > 0;
        return PICK_NONE;
      }
      var x := rng.Next();
      ScaledBelow(x, s);
      i := Walk(x, x * s);
    }

    /** Subtract the eligible weights in turn from `target` until it goes negative. */
    method Walk(ghost x: Word, target: nat) returns (i: int)
      requires Valid() && target == x * Sum(EligibleWeights(base.Up(), built[..]))
      requires target < Sum(EligibleWeights(base.Up(), built[..])) * 0x1_0000_0000
      ensures Servable(i) && Hits(EligibleWeights(base.Up(), built[..]), x, i)
    {
      hide TableOf, LiveTo, Live;
      ghost var share := EligibleWeights(base.Up(), built[..]);
      var u: int := target;
      for k := 0 to base.cap
        invariant u == target - SumTo(share, k) * 0x1_0000_0000 && 0 <= u
      {
        if base.eligible[k] && built[k] > 0 {
          u := u - built[k] * 0x1_0000_0000;
          if u < 0 { return k; }
        }
      }
      assert false;
      i := PICK_NONE;
    }
  }
}
