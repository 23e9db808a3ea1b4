/**
 Sticky routing over a prebuilt Maglev table: the in-place build, the keyed lookup (home slot, bounded
 probe, full sweep), and what a drain or a recovery can and cannot move.
 */
module ConsistentHash {
  import opened Seqs
  import opened FiniteSets
  import opened Words
  import opened Primes
  import opened Maglev
  import opened MaglevBuild
  import opened Quotas
  import opened Eligibility

  const CH_PROBE_LIMIT := 64
  const MAX_TABLE_SIZE := 0x7fff_ffff

  /** Two xor-shift-multiply rounds and a last xor-shift. */
  function Mix(w: Word): (r: Word) {
    var a := Imul(Xor(w, Shr(w, 16)), 0x7feb352d);
    var b := Imul(Xor(a, Shr(a, 15)), 0x846ca68b);
    XorShrInRange(b, 16);
    Xor(b, Shr(b, 16))
  }

  /** The 32-bit integer mix of a backend index: x >>> 0 first. */
  function ChMix32(x: nat): (r: Word) {
    Mix(x % TWO32)
  }

  function Offset(seed: Word, b: nat, m: nat): (r: nat)
    requires 1 < m
    ensures r < m
  {
    ChMix32(Xor(b, seed)) % m
  }

  function Skip(seed: Word, b: nat, m: nat): (r: nat)
    requires 1 < m
    ensures 1 <= r < m
  {
    ChMix32(Xor(b, seed) + 0x9e3779b9) % (m - 1) + 1
  }

  // ---- what the mix spreads ----------------------------------------------------------------

  /** The mix is a permutation of the 32-bit words. */
  lemma MixInjective(x: Word, y: Word)
    requires Mix(x) == Mix(y)
    ensures x == y
  {
    hide Xor, Shr, Imul;
    var p, p' := Xor(x, Shr(x, 16)), Xor(y, Shr(y, 16));
    var a, a' := Imul(p, 0x7feb352d), Imul(p', 0x7feb352d);
    var q, q' := Xor(a, Shr(a, 15)), Xor(a', Shr(a', 15));
    var b, b' := Imul(q, 0x846ca68b), Imul(q', 0x846ca68b);
    XorShrInRange(x, 16);
    XorShrInRange(y, 16);
    XorShrInRange(a, 15);
    XorShrInRange(a', 15);
    XorShrInjective(b, b', 16);
    ImulInjective(q, q', 0x846ca68b);
    XorShrInjective(a, a', 15);
    ImulInjective(p, p', 0x7feb352d);
    XorShrInjective(x, y, 16);
  }

  /** The word mixed for backend b under a seed: the first plus an offset for the skip. */
  function Mixed(b: nat, plus: nat, seed: nat): (h: nat) {
    if seed < TWO32 then ChMix32(Xor(b, seed) + plus) else seed
  }

  lemma MixedAsFunction(b: Word, plus: nat) returns (f: nat -> nat)
    requires plus < TWO32
    ensures Injective(TWO32, f) && forall seed: nat :: f(seed) == Mixed(b, plus, seed)
  {
    hide ChMix32, Xor;
    f := seed => Mixed(b, plus, seed);
    forall x: nat, y: nat | x < TWO32 && y < TWO32 && f(x) == f(y)
      ensures x == y
    {
      MixedInjective(b, plus, x, y);
    }
  }

  lemma MixedInjective(b: Word, plus: nat, x: Word, y: Word)
    requires plus < TWO32 && ChMix32(Xor(b, x) + plus) == ChMix32(Xor(b, y) + plus)
    ensures x == y
  {
    hide Mix, Xor;
    XorInRange(b, x);
    XorInRange(b, y);
    MixInjective((Xor(b, x) + plus) % TWO32, (Xor(b, y) + plus) % TWO32);
    SameSum(Xor(b, x), Xor(b, y), plus);
    XorCommutes(b, x);
    XorCommutes(b, y);
    XorInjective(x, y, b);
  }

  lemma SameSum(u: Word, v: Word, plus: nat)
    requires plus < TWO32 && (u + plus) % TWO32 == (v + plus) % TWO32
    ensures u == v
  {
  }

  lemma MixedShare(b: Word, plus: nat, n: nat, c: nat)
    requires plus < TWO32 && c < n
    ensures TWO32 / n <= |set seed: nat | seed in FiniteSets.Below(TWO32) && Mixed(b, plus, seed) % n == c| <= TWO32 / n + 1
  {
    hide Mixed;
    var f := MixedAsFunction(b, plus);
    var s := set x: nat | x in FiniteSets.Below(TWO32) && x % n == c;
    ResidueShare(TWO32, n, c);
    PreimageSize(TWO32, f, s);
    assert Preimage(TWO32, f, s) == set seed: nat | seed in FiniteSets.Below(TWO32) && Mixed(b, plus, seed) % n == c;
  }

  /** As the seed ranges over all words every slot is backend b's offset equally often, to within one ... */
  lemma OffsetShare(b: Word, m: nat, c: nat)
    requires 1 < m && c < m
    ensures TWO32 / m <= |set seed: nat | seed in FiniteSets.Below(TWO32) && Offset(seed, b, m) == c| <= TWO32 / m + 1
  {
    hide ChMix32, Xor;
    MixedShare(b, 0, m, c);
    assert (set seed: nat | seed in FiniteSets.Below(TWO32) && Offset(seed, b, m) == c)
      == set seed: nat | seed in FiniteSets.Below(TWO32) && Mixed(b, 0, seed) % m == c;
  }

  /** ... and every step from 1 to m-1 its skip. */
  lemma SkipShare(b: Word, m: nat, k: nat)
    requires 1 < m && 1 <= k < m
    ensures var n := TWO32 / (m - 1);
      n <= |set seed: nat | seed in FiniteSets.Below(TWO32) && Skip(seed, b, m) == k| <= n + 1
  {
    hide ChMix32, Xor;
    MixedShare(b, 0x9e3779b9, m - 1, k - 1);
    assert (set seed: nat | seed in FiniteSets.Below(TWO32) && Skip(seed, b, m) == k)
      == set seed: nat | seed in FiniteSets.Below(TWO32) && Mixed(b, 0x9e3779b9, seed) % (m - 1) == k - 1;
  }

  // ---- the table a weight vector stands for ------------------------------------------------

  ghost predicate ValidConfig(w: seq<nat>, m: nat) {
    && IsPrime(m) && m <= MAX_TABLE_SIZE
    && 1 <= |w| <= m
  }

  function ParamsFor(w: seq<nat>, m: nat, seed: Word): (p: Params)
    requires 1 <= |w| <= m <= MAX_TABLE_SIZE && 1 < m && 0 < Sum(w)
  {
    Params(m,
      seq(|w|, b requires 0 <= b < |w| => Offset(seed, b, m)),
      seq(|w|, b requires 0 <= b < |w| => Skip(seed, b, m)),
      AllQuotas(w, m))
  }

  /** All-zero weights mean every backend is removed: the table is blank and masked off. */
  function TableFor(w: seq<nat>, m: nat, seed: Word): (t: seq<int>)
    requires 1 <= |w| <= m <= MAX_TABLE_SIZE && 1 < m
    ensures |t| == m
  {
    if Sum(w) <= 0 then Zeros(m) else Table(ParamsFor(w, m, seed))
  }

  lemma ParamsValid(w: seq<nat>, m: nat, seed: Word)
    requires ValidConfig(w, m) && 0 < Sum(w)
    ensures ValidParams(ParamsFor(w, m, seed))
  {
    QuotasSumToTable(w, m);
  }

  /**
   The Maglev guarantee, for every weight vector with a positive sum and every seed: the table is complete,
   and each backend owns a number of slots strictly within one of its exact share m*w[b]/W, none if w[b] = 0.
   */
  lemma TableIsProportional(w: seq<nat>, m: nat, seed: Word)
    requires ValidConfig(w, m) && 0 < Sum(w)
    ensures var t := TableFor(w, m, seed);
      && (forall c :: 0 <= c < m ==> 0 <= t[c] < |w| && w[t[c]] > 0)
      && (forall b :: 0 <= b < |w| ==>
            && Count(t, b) == Quota(w, m, b)
            && w[b] * m - Sum(w) < Count(t, b) * Sum(w) <= w[b] * m + Sum(w)
            && (w[b] == 0 ==> Count(t, b) == 0))
  {
    var p, t := ParamsFor(w, m, seed), TableFor(w, m, seed);
    ParamsValid(w, m, seed);
    TableMeetsQuotas(p);
    forall b | 0 <= b < |w|
      ensures Count(t, b) == Quota(w, m, b)
      ensures w[b] * m - Sum(w) < Count(t, b) * Sum(w) <= w[b] * m + Sum(w)
      ensures w[b] == 0 ==> Count(t, b) == 0
    {
      QuotaIsProportional(w, m, b);
    }
    forall c | 0 <= c < m
      ensures w[t[c]] > 0
    {
      CountToZero(t, m, t[c]);
    }
  }

  // ---- lookup specification ----------------------------------------------------------------

  /** The slot d steps after `slot`, wrapping at the end of a table of size m. */
  function Wrap(slot: nat, d: nat, m: nat): (c: nat)
    requires slot < m
    ensures c < m
  {
    if d == 0 then slot
    else if Wrap(slot, d - 1, m) + 1 >= m then 0 else Wrap(slot, d - 1, m) + 1
  }

  lemma {:induction false} WrapWithinTurn(slot: nat, d: nat, m: nat)
    requires slot < m && d < m
    ensures Wrap(slot, d, m) == if slot + d < m then slot + d else slot + d - m
  {
    if d > 0 { WrapWithinTurn(slot, d - 1, m); }
  }

  ghost predicate Owned(t: seq<int>, n: nat) {
    0 < |t| && forall c :: 0 <= c < |t| ==> 0 <= t[c] < n
  }

  /** The backend of the first slot at distance d, ..., lim-1 from `slot` that is `ok`, or none. */
  function First(t: seq<int>, ok: seq<bool>, slot: nat, d: nat, lim: nat): (i: int)
    requires slot < |t| && Owned(t, |ok|)
    ensures i == PICK_NONE || (0 <= i < |ok| && ok[i])
    decreases lim - d
  {
    if d >= lim then PICK_NONE
    else if ok[t[Wrap(slot, d, |t|)]] then t[Wrap(slot, d, |t|)]
    else First(t, ok, slot, d + 1, lim)
  }

  /** No slot at distance d, ..., lim-1 from `slot` is ok. */
  ghost predicate NoneIn(t: seq<int>, ok: seq<bool>, slot: nat, d: nat, lim: nat)
    requires slot < |t| && Owned(t, |ok|)
  {
    forall e :: d <= e < lim ==> !ok[t[Wrap(slot, e, |t|)]]
  }

  lemma {:induction false} FirstIsFirst(t: seq<int>, ok: seq<bool>, slot: nat, d: nat, lim: nat)
    returns (e: nat)
    requires slot < |t| && Owned(t, |ok|) && d <= lim
    ensures d <= e <= lim && NoneIn(t, ok, slot, d, e)
    ensures var i := First(t, ok, slot, d, lim);
      if e < lim then i == t[Wrap(slot, e, |t|)] && ok[i] else i == PICK_NONE
    decreases lim - d
  {
    if d == lim || ok[t[Wrap(slot, d, |t|)]] {
      e := d;
    } else {
      e := FirstIsFirst(t, ok, slot, d + 1, lim);
    }
  }

  /** i owns the first slot of the table, counting from `slot` and wrapping, that is ok; or no slot of it is. */
  ghost predicate IsFirstFrom(t: seq<int>, ok: seq<bool>, slot: nat, i: int)
    requires slot < |t| && Owned(t, |ok|)
  {
    if i == PICK_NONE then forall c :: 0 <= c < |t| ==> !ok[t[c]]
    else exists d ::
      && 0 <= d < |t| && NoneIn(t, ok, slot, 0, d)
      && i == t[if slot + d < |t| then slot + d else slot + d - |t|] && ok[i]
  }

  lemma FirstIsFirstFrom(t: seq<int>, ok: seq<bool>, slot: nat)
    requires slot < |t| && Owned(t, |ok|)
    ensures IsFirstFrom(t, ok, slot, First(t, ok, slot, 0, |t|))
  {
    NoneIffUnreachable(t, ok, slot);
    var e := FirstIsFirst(t, ok, slot, 0, |t|);
    if e < |t| { WrapWithinTurn(slot, e, |t|); }
  }

  /** A window whose slots are all down can be skipped. */
  lemma {:induction false} FirstSkips(t: seq<int>, ok: seq<bool>, slot: nat, d: nat, e: nat, lim: nat)
    requires slot < |t| && Owned(t, |ok|) && d <= e <= lim && NoneIn(t, ok, slot, d, e)
    ensures First(t, ok, slot, d, lim) == First(t, ok, slot, e, lim)
    decreases e - d
  {
    if d < e { FirstSkips(t, ok, slot, d + 1, e, lim); }
  }

  /** One more slot down, or the first ok slot found. */
  lemma NoneExtend(t: seq<int>, ok: seq<bool>, slot: nat, from: nat, d: nat, lim: nat)
    requires slot < |t| && Owned(t, |ok|) && from <= d < lim && NoneIn(t, ok, slot, from, d)
    ensures var i := t[Wrap(slot, d, |t|)];
      if ok[i] then First(t, ok, slot, from, lim) == i else NoneIn(t, ok, slot, from, d + 1)
  {
    FirstSkips(t, ok, slot, from, d, lim);
  }

  lemma NoneMeansNone(t: seq<int>, ok: seq<bool>, slot: nat, d: nat, lim: nat)
    requires slot < |t| && Owned(t, |ok|) && d <= lim && NoneIn(t, ok, slot, d, lim)
    ensures First(t, ok, slot, d, lim) == PICK_NONE
  {
    FirstSkips(t, ok, slot, d, lim, lim);
  }

  /** Every slot is at some distance below the table size. */
  lemma DistanceTo(slot: nat, c: nat, m: nat) returns (d: nat)
    requires slot < m && c < m
    ensures d < m && Wrap(slot, d, m) == c
  {
    d := if slot <= c then c - slot else c + m - slot;
    WrapWithinTurn(slot, d, m);
  }

  /** The lookup fails exactly when no eligible backend owns a slot. */
  lemma NoneIffUnreachable(t: seq<int>, ok: seq<bool>, slot: nat)
    requires slot < |t| && Owned(t, |ok|)
    ensures First(t, ok, slot, 0, |t|) == PICK_NONE <==> forall c :: 0 <= c < |t| ==> !ok[t[c]]
  {
    var e := FirstIsFirst(t, ok, slot, 0, |t|);
    if e == |t| {
      forall c | 0 <= c < |t|
        ensures !ok[t[c]]
      {
        var d := DistanceTo(slot, c, |t|);
      }
    }
  }

  /** Probing a window and then sweeping a whole turn from its end finds the same slot as one plain turn. */
  lemma SweepFinds(t: seq<int>, ok: seq<bool>, slot: nat, w: nat)
    requires slot < |t| && Owned(t, |ok|) && NoneIn(t, ok, slot, 0, w)
    ensures First(t, ok, slot, w, w + |t|) == First(t, ok, slot, 0, |t|)
  {
    var e := FirstIsFirst(t, ok, slot, 0, |t|);
    FirstSkips(t, ok, slot, 0, w, w + |t|);
    if e < |t| {
      FirstSkips(t, ok, slot, 0, e, w + |t|);
    } else {
      NoneIffUnreachable(t, ok, slot);
      var g := FirstIsFirst(t, ok, slot, 0, w + |t|);
    }
  }

  /** Whatever a window from home finds, one plain turn finds, even if the window wraps past a whole turn. */
  lemma WindowFinds(t: seq<int>, ok: seq<bool>, slot: nat, w: nat)
    requires slot < |t| && Owned(t, |ok|) && First(t, ok, slot, 0, w) != PICK_NONE
    ensures First(t, ok, slot, 0, w) == First(t, ok, slot, 0, |t|)
  {
    NoneIffUnreachable(t, ok, slot);
    var e := FirstIsFirst(t, ok, slot, 0, w);
    var g := FirstIsFirst(t, ok, slot, 0, |t|);
  }

  // ---- what a change of eligibility moves --------------------------------------------------

  ghost predicate Below(a: seq<bool>, b: seq<bool>) {
    |a| == |b| && forall i :: 0 <= i < |a| && a[i] ==> b[i]
  }

  /** Draining any set of backends moves no key that was not on one of them. */
  lemma DrainMovesOnlyItsKeys(t: seq<int>, before: seq<bool>, after: seq<bool>, slot: nat)
    requires slot < |t| && Owned(t, |before|) && Below(after, before)
    ensures var i := First(t, before, slot, 0, |t|);
      (i == PICK_NONE || after[i]) ==> First(t, after, slot, 0, |t|) == i
  {
    var e := FirstIsFirst(t, before, slot, 0, |t|);
    FirstSkips(t, after, slot, 0, e, |t|);
  }

  /** Draining one backend moves a key if and only if the key was on it. */
  lemma DrainMovesExactlyItsKeys(t: seq<int>, up: seq<bool>, i: nat, slot: nat)
    requires slot < |t| && Owned(t, |up|) && i < |up|
    ensures First(t, up[i := false], slot, 0, |t|) != First(t, up, slot, 0, |t|)
      <==> First(t, up, slot, 0, |t|) == i
  {
    var e := FirstIsFirst(t, up, slot, 0, |t|);
    DrainMovesOnlyItsKeys(t, up, up[i := false], slot);
    var g := FirstIsFirst(t, up[i := false], slot, 0, |t|);
  }

  /** Bringing backends up moves keys only onto the backends brought up. */
  lemma RecoveryMovesOnlyToRecovered(t: seq<int>, before: seq<bool>, after: seq<bool>, slot: nat)
    requires slot < |t| && Owned(t, |before|) && Below(before, after)
    ensures var i, j := First(t, before, slot, 0, |t|), First(t, after, slot, 0, |t|);
      j != i ==> j != PICK_NONE && after[j] && !before[j]
  {
    var g := FirstIsFirst(t, after, slot, 0, |t|);
    if g < |t| && before[First(t, after, slot, 0, |t|)] {
      DrainMovesOnlyItsKeys(t, after, before, slot);
    } else if g == |t| {
      var e := FirstIsFirst(t, before, slot, 0, |t|);
    }
  }

  /** A forward walk of at most `steps` slots past the one `d` steps from home. */
  method Walk(lookup: array<int>, eligible: array<bool>, ghost up: seq<bool>, ghost home: nat, ghost d: nat, from: nat, steps: nat)
    returns (i: int, slot: nat)
    requires |up| <= eligible.Length && up == eligible[..|up|] && Owned(lookup[..], |up|)
    requires home < lookup.Length && from == Wrap(home, d, lookup.Length)
    ensures i == First(lookup[..], up, home, d + 1, d + 1 + steps)
    ensures i == PICK_NONE ==> slot == Wrap(home, d + steps, lookup.Length) && NoneIn(lookup[..], up, home, d + 1, d + 1 + steps)
  {
    hide First;
    ghost var t := lookup[..];
    slot := from;
    for p := 0 to steps
      invariant slot == Wrap(home, d + p, |t|)
      invariant NoneIn(t, up, home, d + 1, d + p + 1)
    {
      slot := slot + 1;
      if slot >= lookup.Length { slot := 0; }
      i := lookup[slot];
      NoneExtend(t, up, home, d + 1, d + p + 1, d + 1 + steps);
      if eligible[i] { return i, slot; }
    }
    NoneMeansNone(t, up, home, d + 1, d + 1 + steps);
    i := PICK_NONE;
  }

  /** Home, 64-slot probe, full-table sweep: together one plain turn from home. */
  method Lookup(lookup: array<int>, eligible: array<bool>, ghost up: seq<bool>, home: nat) returns (i: int)
    requires |up| <= eligible.Length && up == eligible[..|up|] && Owned(lookup[..], |up|)
    requires home < lookup.Length
    ensures i == First(lookup[..], up, home, 0, lookup.Length)
  {
    i := lookup[home];
    if eligible[i] { return i; }
    var slot;
    i, slot := Walk(lookup, eligible, up, home, 0, home, CH_PROBE_LIMIT);
    if i != PICK_NONE {
      WindowFinds(lookup[..], up, home, CH_PROBE_LIMIT + 1);
      return i;
    }
    SweepFinds(lookup[..], up, home, CH_PROBE_LIMIT + 1);
    i, slot := Walk(lookup, eligible, up, home, CH_PROBE_LIMIT, slot, lookup.Length);
  }

  // ---- the balancer ------------------------------------------------------------------------

  class ConsistentHashBalancer {
    const base: BalancerBase
    const m: nat
    const seed: Word
    const weights: array<nat>
    const lookup: array<int>
    /** -1 for a normal table, 0 when every weight is 0; ANDed into the live-count guard. */
    var wmask: int

    ghost predicate Shape()
      reads this, base, base.eligible, weights
    {
      && base.Valid()
      && weights.Length == base.cap && lookup.Length == m
      && (weights as object) != lookup
      && ValidConfig(weights[..], m)
    }

    ghost predicate Valid()
      reads this, base, base.eligible, weights, lookup
    {
      && Shape()
      && lookup[..] == TableFor(weights[..], m, seed)
      && wmask == (if Sum(weights[..]) <= 0 then 0 else -1)
    }

    /** The live count masked by the all-zero-weights mask; exact because the count is a non-negative int32. */
    function Guard(): int
      requires base.Valid()
      reads this, base, base.eligible
    {
      if wmask == 0 then 0 else base.live
    }

    /** The backend a key hash is routed to, as a function of weights and eligibility. */
    ghost function Route(slot: nat): (i: int)
      requires Valid() && slot < m
      reads this, base, base.eligible, weights, lookup
      ensures i == PICK_NONE || (0 <= i < base.cap && base.Up()[i])
    {
      if Sum(weights[..]) <= 0 then PICK_NONE
      else
        TableIsProportional(weights[..], m, seed);
        First(lookup[..], base.Up(), slot, 0, m)
    }

    /** The ctor's table-size guard: an int32 prime no smaller than the pool. */
    static method AcceptsTableSize(m: int, capacity: nat) returns (ok: bool)
      ensures ok <==> m <= MAX_TABLE_SIZE && IsPrime(m) && capacity <= m
    {
      if m < 2 || m > MAX_TABLE_SIZE { return false; }
      var prime := ChIsPrime(m);
      return prime && capacity <= m;
    }

    constructor (capacity: nat, view: array<bool>, initial: seq<nat>, tableSize: nat, salt: Word)
      requires 1 <= capacity <= view.Length && |initial| == capacity
      requires tableSize <= MAX_TABLE_SIZE && IsPrime(tableSize) && capacity <= tableSize
      ensures Valid() && fresh(base) && fresh(weights) && fresh(lookup)
      ensures base.eligible == view && base.cap == capacity && m == tableSize && seed == salt
      ensures weights[..] == initial
    {
      base := new BalancerBase(capacity, view);
      m, seed := tableSize, salt;
      var owned := new nat[capacity](i requires 0 <= i < capacity => initial[i]);
      weights := owned;
      lookup := new int[tableSize](_ => 0);
      wmask := -1;
      new;
      assert weights[..] == initial;
      Build();
    }

    /** Permutation parameters and the weight sum. */
    method Parameters() returns (offset: array<nat>, skip: array<nat>, total: nat)
      requires Shape()
      ensures fresh(offset) && fresh(skip) && offset != skip
      ensures total == Sum(weights[..])
      ensures offset[..] == seq(weights.Length, b requires 0 <= b < weights.Length => Offset(seed, b, m))
      ensures skip[..] == seq(weights.Length, b requires 0 <= b < weights.Length => Skip(seed, b, m))
    {
      hide ChMix32;
      var n := weights.Length;
      offset, skip, total := new nat[n], new nat[n], 0;
      for b := 0 to n
        invariant forall i :: 0 <= i < b ==> offset[i] == Offset(seed, i, m) && skip[i] == Skip(seed, i, m)
        invariant total == SumTo(weights[..], b)
      {
        offset[b], skip[b] := Offset(seed, b, m), Skip(seed, b, m);
        total := total + weights[b];
      }
    }

    /** (Re)build the table from the owned weights. */
    method Build()
      requires Shape()
      modifies lookup, this`wmask
      ensures Valid()
    {
      ghost var w := weights[..];
      var offset, skip, total := Parameters();
      if total <= 0 {
        wmask := 0;
        for c := 0 to m
          invariant weights[..] == w && wmask == 0
          invariant forall i :: 0 <= i < c ==> lookup[i] == 0
        {
          lookup[c] := 0;
        }
        assert lookup[..] == Zeros(m);
        return;
      }
      wmask := -1;
      ghost var p := ParamsFor(w, m, seed);
      ParamsValid(w, m, seed);
      var quota := AssignQuotas(weights, m);
      Populate(p, offset, skip, quota, lookup);
      assert weights[..] == w;
    }

    /** Cold weight change: rebuilds unless the weight is already the built one. */
    method SetWeight(i: nat, w: nat)
      requires Valid() && i < base.cap
      modifies lookup, weights, this`wmask
      ensures Valid() && weights[..] == old(weights[..])[i := w]
    {
      if w == weights[i] { return; }
      weights[i] := w;
      Build();
    }

    /** Batch form: one rebuild, or none when the weights equal the built ones. */
    method SetWeights(ws: seq<nat>)
      requires Valid() && |ws| >= base.cap
      modifies lookup, weights, this`wmask
      ensures Valid() && weights[..] == ws[..base.cap]
    {
      var i := 0;
      while i < base.cap && ws[i] == weights[i]
        invariant i <= base.cap && weights[..i] == ws[..i]
      {
        i := i + 1;
      }
      if i == base.cap { return; }
      for k := 0 to base.cap
        invariant base.Valid() && weights[..k] == ws[..k]
      {
        weights[k] := ws[k];
      }
      assert weights[..] == ws[..base.cap];
      Build();
    }

    /** A health flap: no rebuild, the table and weights stay. */
    method SetEligible(i: nat, up: bool)
      requires Valid() && i < base.cap
      modifies base, base.eligible
      ensures Valid() && base.Up() == old(base.Up())[i := up]
    {
      base.SetEligible(i, up);
    }

    method Pick(keyHash: Word) returns (i: int)
      requires Valid()
      ensures 0 < m && i == Route(keyHash % m)
      ensures Sum(weights[..]) <= 0 ==> i == PICK_NONE
      ensures Sum(weights[..]) > 0 ==> Owned(lookup[..], base.cap) && IsFirstFrom(lookup[..], base.Up(), keyHash % m, i)
    {
      i := PickSlot(keyHash % m);
    }

    /** Home slot, then the bounded probe, then the sweep. */
    method PickSlot(home: nat) returns (i: int)
      requires Valid() && home < m
      ensures i == Route(home)
      ensures Sum(weights[..]) <= 0 ==> i == PICK_NONE
      ensures Sum(weights[..]) > 0 ==> Owned(lookup[..], base.cap) && IsFirstFrom(lookup[..], base.Up(), home, i)
    {
      if Sum(weights[..]) > 0 {
        TableIsProportional(weights[..], m, seed);
        FirstIsFirstFrom(lookup[..], base.Up(), home);
      }
      if Guard() == 0 {
        NoneLive(home);
        return PICK_NONE;
      }
      i := Lookup(lookup, base.eligible, base.Up(), home);
    }

    lemma NoneLive(home: nat)
      requires Valid() && home < m && Guard() == 0
      ensures Route(home) == PICK_NONE
    {
      if Sum(weights[..]) > 0 { LiveToPositive(base.Up(), base.cap); }
    }
  }
}
