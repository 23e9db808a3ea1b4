/**
 The weighted Maglev table as a mathematical object: backends take turns, and at its turn a backend with
 quota left takes the first free slot of its own permutation `offset, offset + skip, offset + 2*skip, ...`
 (mod m). This module is the reference that ConsistentHash.dfy's in-place build is proved to compute.
 */
module Maglev {
  import opened Seqs
  import opened FiniteSets
  import opened Arith
  import opened Primes

  const FREE := -1

  /** Build parameters: table size and, per backend, permutation and slot quota. */
  datatype RawParams = Params(m: nat, offset: seq<nat>, skip: seq<nat>, quota: seq<nat>)

  /** Offsets and skips are residues of the table size. */
  ghost predicate Residues(p: RawParams) {
    && 0 < p.m && 0 < |p.offset| == |p.skip| == |p.quota|
    && (forall b :: 0 <= b < |p.offset| ==> p.offset[b] < p.m && p.skip[b] < p.m)
  }

  type Params = p: RawParams | Residues(p)
    witness Params(1, [0], [0], [1])

  ghost predicate ValidParams(p: Params) {
    && IsPrime(p.m)
    && (forall b :: 0 <= b < |p.skip| ==> 1 <= p.skip[b])
    && Sum(p.quota) == p.m
  }

  // ---- permutations ------------------------------------------------------------------------

  /** The j-th slot of a backend's permutation, by additive stepping with one conditional subtract. */
  function Pos(off: nat, skip: nat, m: nat, j: nat): (c: nat)
    requires off < m && skip < m
    ensures c < m
  {
    if j == 0 then off
    else
      var c := Pos(off, skip, m, j - 1) + skip;
      if c >= m then c - m else c
  }

  /** The stepping is the multiplicative permutation (offset + j*skip) mod m. */
  lemma {:induction false} PosClosedForm(off: nat, skip: nat, m: nat, j: nat)
    requires off < m && skip < m
    ensures Pos(off, skip, m, j) == (off + j * skip) % m
  {
    if j == 0 {
      ModUnique(off, m, 0, off);
    } else {
      PosClosedForm(off, skip, m, j - 1);
      assert off + j * skip == off + (j - 1) * skip + skip by { assert j * skip == (j - 1) * skip + skip; }
      ModStep(off + (j - 1) * skip, skip, m);
    }
  }

  lemma ModStep(x: nat, k: nat, m: nat)
    requires k < m
    ensures (x + k) % m == if x % m + k >= m then x % m + k - m else x % m + k
  {
    var q, c := x / m, x % m + k;
    assert x == q * m + x % m;
    if c >= m {
      assert (q + 1) * m == q * m + m;
      ModUnique(x + k, m, q + 1, c - m);
    } else {
      ModUnique(x + k, m, q, c);
    }
  }

  /** For prime m no slot repeats within m steps. */
  lemma PosInjective(off: nat, skip: nat, m: nat, i: nat, j: nat)
    requires IsPrime(m) && off < m && 1 <= skip < m && i < j < m
    ensures Pos(off, skip, m, i) != Pos(off, skip, m, j)
  {
    PosClosedForm(off, skip, m, i);
    PosClosedForm(off, skip, m, j);
    if Pos(off, skip, m, i) == Pos(off, skip, m, j) {
      SameResidue(off + i * skip, off + j * skip, m);
      assert (j - i) * skip == (off + j * skip) - (off + i * skip);
      NoZeroDivisors(m, j - i, skip);
    }
  }

  lemma SameResidue(x: nat, y: nat, m: nat)
    requires 0 < m && x % m == y % m
    ensures (y - x) % m == 0
  {
    var qx, qy := x / m, y / m;
    assert x == qx * m + x % m && y == qy * m + y % m;
    assert y - x == (qy - qx) * m by { assert (qy - qx) * m == qy * m - qx * m; }
    MulMod(qy - qx, m);
  }

  ghost function Visited(off: nat, skip: nat, m: nat, k: nat): (s: set<int>)
    requires off < m && skip < m
  {
    set j | 0 <= j < k :: Pos(off, skip, m, j)
  }

  lemma {:induction false} VisitedSize(off: nat, skip: nat, m: nat, k: nat)
    requires IsPrime(m) && off < m && 1 <= skip < m && k <= m
    ensures |Visited(off, skip, m, k)| == k
  {
    hide Pos;
    if k > 0 {
      VisitedSize(off, skip, m, k - 1);
      var c := Pos(off, skip, m, k - 1);
      forall j | 0 <= j < k - 1
        ensures Pos(off, skip, m, j) != c
      {
        PosInjective(off, skip, m, j, k - 1);
      }
      assert Visited(off, skip, m, k) == Visited(off, skip, m, k - 1) + {c};
    }
  }

  /** Every slot is on every permutation: with m prime, m steps of any skip reach all m slots. */
  lemma PosSurjective(off: nat, skip: nat, m: nat, c: nat) returns (j: nat)
    requires IsPrime(m) && off < m && 1 <= skip < m && c < m
    ensures j < m && Pos(off, skip, m, j) == c
  {
    VisitedSize(off, skip, m, m);
    BelowSize(m);
    SubsetOfSameSize(Visited(off, skip, m, m), Below(m));
    assert c in Visited(off, skip, m, m);
    j :| 0 <= j < m && Pos(off, skip, m, j) == c;
  }

  // ---- the table, turn by turn -------------------------------------------------------------

  /** Slots filled so far (FREE or a backend) and, per backend, how many it took. */
  datatype Fill = Fill(slots: seq<int>, counts: seq<nat>)

  ghost predicate InRange(slots: seq<int>, n: nat) {
    forall c :: 0 <= c < |slots| ==> FREE <= slots[c] < n
  }

  ghost predicate WellFormed(p: Params, f: Fill) {
    && |f.slots| == p.m && |f.counts| == |p.quota|
    && (forall b :: 0 <= b < |p.quota| ==> Count(f.slots, b) == f.counts[b] <= p.quota[b])
    && Sum(f.counts) + Count(f.slots, FREE) == p.m
  }

  /** The least step j' >= j whose slot is free, or m when there is none below m. */
  function FirstFree(off: nat, skip: nat, slots: seq<int>, j: nat): (r: nat)
    requires off < |slots| && skip < |slots|
    decreases |slots| - j
  {
    if j >= |slots| || slots[Pos(off, skip, |slots|, j)] == FREE then j
    else FirstFree(off, skip, slots, j + 1)
  }

  lemma {:induction false} FirstFreeIsFirst(off: nat, skip: nat, slots: seq<int>, j: nat)
    requires off < |slots| && skip < |slots| && j <= |slots|
    ensures var r := FirstFree(off, skip, slots, j);
      && j <= r <= |slots|
      && (r < |slots| ==> slots[Pos(off, skip, |slots|, r)] == FREE)
      && (forall i :: j <= i < r ==> slots[Pos(off, skip, |slots|, i)] != FREE)
    decreases |slots| - j
  {
    if j < |slots| && slots[Pos(off, skip, |slots|, j)] != FREE {
      FirstFreeIsFirst(off, skip, slots, j + 1);
    }
  }

  /** One turn of backend b. */
  function Turn(p: Params, f: Fill, b: nat): (r: Fill)
    requires b < |f.counts| == |p.quota| && p.m == |f.slots|
    ensures |r.slots| == |f.slots| && |r.counts| == |f.counts|
  {
    var j := FirstFree(p.offset[b], p.skip[b], f.slots, 0);
    if f.counts[b] < p.quota[b] && j < p.m
    then Fill(f.slots[Pos(p.offset[b], p.skip[b], p.m, j) := b], f.counts[b := f.counts[b] + 1])
    else f
  }

  function Empty(p: Params): (f: Fill)
    ensures |f.slots| == p.m && |f.counts| == |p.quota|
  {
    Fill(seq(p.m, _ => FREE), Zeros(|p.quota|))
  }

  /** The first b turns of a round that starts from f. */
  function Partial(p: Params, f: Fill, b: nat): (r: Fill)
    requires p.m == |f.slots| && |f.counts| == |p.quota| && b <= |p.quota|
    ensures |r.slots| == |f.slots| && |r.counts| == |f.counts|
  {
    if b == 0 then f else Turn(p, Partial(p, f, b - 1), b - 1)
  }

  /** The fill after k full rounds, in each of which every backend 0, ..., n-1 has one turn. */
  function Rounds(p: Params, k: nat): (f: Fill)
    ensures |f.slots| == p.m && |f.counts| == |p.quota|
  {
    if k == 0 then Empty(p) else Partial(p, Rounds(p, k - 1), |p.quota|)
  }

  /** The finished table: every round fills a slot, so m rounds are enough. */
  function Table(p: Params): (slots: seq<int>)
    ensures |slots| == p.m
  {
    Rounds(p, p.m).slots
  }

  /** A turn keeps the books, and moves no count but its own backend's. */
  lemma TurnWellFormed(p: Params, f: Fill, b: nat)
    requires Sum(p.quota) == p.m && WellFormed(p, f) && b < |p.quota|
    ensures WellFormed(p, Turn(p, f, b))
    ensures forall i :: 0 <= i < |p.quota| && i != b ==> Turn(p, f, b).counts[i] == f.counts[i]
  {
    if Turn(p, f, b) != f {
      FirstFreeIsFirst(p.offset[b], p.skip[b], f.slots, 0);
      SumUpdate(f.counts, b, f.counts[b] + 1);
      var c := Pos(p.offset[b], p.skip[b], p.m, FirstFree(p.offset[b], p.skip[b], f.slots, 0));
      CountUpdate(f.slots, c, b, FREE);
      forall i | 0 <= i < |p.quota|
        ensures Count(Turn(p, f, b).slots, i) == Turn(p, f, b).counts[i]
      {
        CountUpdate(f.slots, c, b, i);
      }
    }
  }

  /** With a free slot left, a backend below its quota always gains a slot. */
  lemma TurnTakes(p: Params, f: Fill, b: nat)
    requires ValidParams(p) && WellFormed(p, f) && b < |p.quota|
    requires f.counts[b] < p.quota[b] && Sum(f.counts) < p.m
    ensures Sum(Turn(p, f, b).counts) == Sum(f.counts) + 1
  {
    CountToZero(f.slots, p.m, FREE);
    var c :| 0 <= c < p.m && f.slots[c] == FREE;
    var j := PosSurjective(p.offset[b], p.skip[b], p.m, c);
    FirstFreeIsFirst(p.offset[b], p.skip[b], f.slots, 0);
    SumUpdate(f.counts, b, f.counts[b] + 1);
  }

  lemma EmptyWellFormed(p: Params)
    requires Sum(p.quota) == p.m
    ensures WellFormed(p, Empty(p)) && Sum(Empty(p).counts) == 0
  {
    SumToZero(Empty(p).counts, |p.quota|);
    CountToAll(Empty(p).slots, p.m, FREE);
    forall b | 0 <= b < |p.quota| ensures Count(Empty(p).slots, b) == 0 { CountToZero(Empty(p).slots, p.m, b); }
  }

  lemma {:induction false} PartialWellFormed(p: Params, f: Fill, b: nat)
    requires Sum(p.quota) == p.m && WellFormed(p, f) && b <= |p.quota|
    ensures WellFormed(p, Partial(p, f, b))
    ensures forall i :: b <= i < |p.quota| ==> Partial(p, f, b).counts[i] == f.counts[i]
  {
    if b > 0 {
      PartialWellFormed(p, f, b - 1);
      TurnWellFormed(p, Partial(p, f, b - 1), b - 1);
    }
  }

  lemma TurnGrows(p: Params, f: Fill, b: nat)
    requires b < |f.counts| == |p.quota| && p.m == |f.slots|
    ensures Sum(f.counts) <= Sum(Turn(p, f, b).counts)
  {
    SumUpdate(f.counts, b, f.counts[b] + 1);
  }

  lemma {:induction false} PartialGrows(p: Params, f: Fill, a: nat, b: nat)
    requires p.m == |f.slots| && |f.counts| == |p.quota| && a <= b <= |p.quota|
    ensures Sum(Partial(p, f, a).counts) <= Sum(Partial(p, f, b).counts)
    decreases b
  {
    if a < b {
      PartialGrows(p, f, a, b - 1);
      TurnGrows(p, Partial(p, f, b - 1), b - 1);
    }
  }

  lemma {:induction false} PartialInRange(p: Params, f: Fill, b: nat)
    requires p.m == |f.slots| && |f.counts| == |p.quota| && b <= |p.quota|
    requires InRange(f.slots, |p.quota|)
    ensures InRange(Partial(p, f, b).slots, |p.quota|)
  {
    if b > 0 { PartialInRange(p, f, b - 1); }
  }

  lemma {:induction false} RoundsInRange(p: Params, k: nat)
    ensures InRange(Rounds(p, k).slots, |p.quota|)
  {
    if k > 0 {
      RoundsInRange(p, k - 1);
      PartialInRange(p, Rounds(p, k - 1), |p.quota|);
    }
  }

  /** A full round fills at least one slot while any is free. */
  lemma RoundTakes(p: Params, f: Fill)
    requires ValidParams(p) && WellFormed(p, f) && Sum(f.counts) < p.m
    ensures Sum(Partial(p, f, |p.quota|).counts) > Sum(f.counts)
  {
    var b := Hungry(p, f);
    PartialWellFormed(p, f, b);
    PartialGrows(p, f, 0, b);
    PartialGrows(p, f, b + 1, |p.quota|);
    var g := Partial(p, f, b);
    assert Partial(p, f, b + 1) == Turn(p, g, b);
    if Sum(g.counts) < p.m {
      TurnTakes(p, g, b);
    } else {
      TurnGrows(p, g, b);
    }
  }

  /** Quotas sum to m, so an unfinished table has a backend below its quota. */
  lemma Hungry(p: Params, f: Fill) returns (b: nat)
    requires Sum(p.quota) == p.m && WellFormed(p, f) && Sum(f.counts) < p.m
    ensures b < |p.quota| && f.counts[b] < p.quota[b]
  {
    assert f.counts != p.quota;
    b :| 0 <= b < |p.quota| && f.counts[b] != p.quota[b];
  }

  lemma {:induction false} RoundsFill(p: Params, k: nat)
    requires ValidParams(p) && k <= p.m
    ensures WellFormed(p, Rounds(p, k)) && Sum(Rounds(p, k).counts) >= k
  {
    if k == 0 {
      EmptyWellFormed(p);
    } else {
      RoundsFill(p, k - 1);
      var f := Rounds(p, k - 1);
      PartialWellFormed(p, f, |p.quota|);
      PartialGrows(p, f, 0, |p.quota|);
      if Sum(f.counts) < p.m { RoundTakes(p, f); }
    }
  }

  lemma FullMeansQuota(p: Params, f: Fill)
    requires Sum(p.quota) == p.m && WellFormed(p, f) && Sum(f.counts) >= p.m
    ensures Sum(f.counts) == p.m && f.counts == p.quota && FREE !in f.slots
  {
    SumToMono(f.counts, p.quota, |p.quota|);
    CountToZero(f.slots, p.m, FREE);
  }

  /** The table is complete and every backend owns exactly its quota of slots. */
  lemma TableMeetsQuotas(p: Params)
    requires ValidParams(p)
    ensures forall c :: 0 <= c < p.m ==> 0 <= Table(p)[c] < |p.quota|
    ensures forall b :: 0 <= b < |p.quota| ==> Count(Table(p), b) == p.quota[b]
  {
    RoundsFill(p, p.m);
    FullMeansQuota(p, Rounds(p, p.m));
    RoundsInRange(p, p.m);
    forall c | 0 <= c < p.m ensures 0 <= Table(p)[c] { assert Table(p)[c] in Table(p); }
  }

  /** A full fill is left alone by every later turn. */
  lemma FullTurn(p: Params, f: Fill, b: nat)
    requires Sum(p.quota) == p.m && WellFormed(p, f) && Sum(f.counts) >= p.m && b < |p.quota|
    ensures Turn(p, f, b) == f
  {
    FullMeansQuota(p, f);
  }

  lemma {:induction false} FullIsFinal(p: Params, f: Fill, b: nat)
    requires Sum(p.quota) == p.m && WellFormed(p, f) && Sum(f.counts) >= p.m && b <= |p.quota|
    ensures Partial(p, f, b) == f
  {
    if b > 0 {
      FullIsFinal(p, f, b - 1);
      FullTurn(p, f, b - 1);
    }
  }

  lemma {:induction false} FullRoundIsFinal(p: Params, j: nat, k: nat)
    requires Sum(p.quota) == p.m && j <= k && WellFormed(p, Rounds(p, j)) && Sum(Rounds(p, j).counts) >= p.m
    ensures Rounds(p, k) == Rounds(p, j)
    decreases k
  {
    if j < k {
      FullRoundIsFinal(p, j, k - 1);
      FullIsFinal(p, Rounds(p, j), |p.quota|);
    }
  }

  /** Finishing the round changes nothing once it is full part-way through. */
  lemma {:induction false} FullPartialIsRound(p: Params, f: Fill, a: nat, b: nat)
    requires Sum(p.quota) == p.m && WellFormed(p, f) && a <= b <= |p.quota|
    requires Sum(Partial(p, f, a).counts) >= p.m
    ensures Partial(p, f, b) == Partial(p, f, a)
    decreases b
  {
    if a < b {
      var g := Partial(p, f, a);
      PartialWellFormed(p, f, a);
      FullPartialIsRound(p, f, a, b - 1);
      FullTurn(p, g, b - 1);
    }
  }

  /** So a build may stop at the first turn that fills the last slot: it has the finished table. */
  lemma FullIsTable(p: Params, k: nat, b: nat)
    requires ValidParams(p) && b <= |p.quota| && WellFormed(p, Rounds(p, k))
    requires Sum(Partial(p, Rounds(p, k), b).counts) >= p.m
    ensures Partial(p, Rounds(p, k), b).slots == Table(p)
  {
    FullPartialIsRound(p, Rounds(p, k), b, |p.quota|);
    PartialWellFormed(p, Rounds(p, k), |p.quota|);
    RoundsFill(p, p.m);
    if k + 1 <= p.m { FullRoundIsFinal(p, k + 1, p.m); } else { FullRoundIsFinal(p, p.m, k + 1); }
  }

  // ---- whose turn it is --------------------------------------------------------------------

  /** A turn is worth one slot to a backend below its quota, and nothing to the others. */
  lemma TurnCounts(p: Params, f: Fill, b: nat)
    requires ValidParams(p) && WellFormed(p, f) && b < |p.quota|
    ensures Turn(p, f, b).counts == f.counts[b := if f.counts[b] < p.quota[b] then f.counts[b] + 1 else f.counts[b]]
  {
    if f.counts[b] < p.quota[b] {
      if Sum(f.counts) >= p.m { FullMeansQuota(p, f); }
      TurnTakes(p, f, b);
    }
  }

  function Least(a: nat, b: nat): (c: nat) {
    if a < b then a else b
  }

  /** The counts after b turns of round k + 1. */
  ghost predicate Dealt(p: Params, f: Fill, k: nat, b: nat) {
    |f.counts| == |p.quota| && forall i :: 0 <= i < |p.quota| ==> f.counts[i] == Least(if i < b then k + 1 else k, p.quota[i])
  }

  lemma {:induction false} PartialDealt(p: Params, f: Fill, k: nat, b: nat)
    requires ValidParams(p) && WellFormed(p, f) && Dealt(p, f, k, 0) && b <= |p.quota|
    ensures Dealt(p, Partial(p, f, b), k, b)
  {
    hide WellFormed, Turn, IsPrime;
    if b > 0 {
      PartialDealt(p, f, k, b - 1);
      PartialWellFormed(p, f, b - 1);
      TurnCounts(p, Partial(p, f, b - 1), b - 1);
    }
  }

  /** The slots are dealt out evenly: after k rounds every backend has k of them, or its quota if that is less. */
  lemma {:induction false} RoundsDealEvenly(p: Params, k: nat, b: nat)
    requires ValidParams(p) && b < |p.quota| && k <= p.m
    ensures WellFormed(p, Rounds(p, k)) && Rounds(p, k).counts[b] == Least(k, p.quota[b])
    ensures Dealt(p, Rounds(p, k), k, 0)
    decreases k
  {
    hide WellFormed, Turn;
    RoundsFill(p, k);
    if k > 0 {
      RoundsDealEvenly(p, k - 1, b);
      PartialDealt(p, Rounds(p, k - 1), k - 1, |p.quota|);
    }
  }

  /** Nobody loses a slot again. */
  ghost predicate Keeps(before: seq<int>, after: seq<int>) {
    |before| == |after| && forall c :: 0 <= c < |before| && before[c] != FREE ==> after[c] == before[c]
  }

  lemma TurnKeeps(p: Params, f: Fill, b: nat)
    requires b < |f.counts| == |p.quota| && p.m == |f.slots|
    ensures Keeps(f.slots, Turn(p, f, b).slots)
  {
    FirstFreeIsFirst(p.offset[b], p.skip[b], f.slots, 0);
  }

  lemma {:induction false} PartialKeeps(p: Params, f: Fill, a: nat, b: nat)
    requires p.m == |f.slots| && |f.counts| == |p.quota| && a <= b <= |p.quota|
    ensures Keeps(Partial(p, f, a).slots, Partial(p, f, b).slots)
    decreases b
  {
    hide Turn;
    if a < b {
      PartialKeeps(p, f, a, b - 1);
      TurnKeeps(p, Partial(p, f, b - 1), b - 1);
    }
  }

  lemma {:induction false} RoundsKeep(p: Params, j: nat, k: nat)
    requires j <= k
    ensures Keeps(Rounds(p, j).slots, Rounds(p, k).slots)
    decreases k
  {
    hide Partial;
    if j < k {
      RoundsKeep(p, j, k - 1);
      StartsFrom(p, Rounds(p, k - 1));
      PartialKeeps(p, Rounds(p, k - 1), 0, |p.quota|);
    }
  }

  lemma StartsFrom(p: Params, f: Fill)
    requires p.m == |f.slots| && |f.counts| == |p.quota|
    ensures Partial(p, f, 0) == f
  {
  }

  /**
   A turn goes to the backend's first choice that is free, so what it passes over is taken already; the first
   backend of the first round owns the head of its own permutation for good.
   */
  lemma FirstChoiceFirst(p: Params)
    requires ValidParams(p) && 0 < p.quota[0]
    ensures Table(p)[p.offset[0]] == 0
  {
    var f := Empty(p);
    EmptyWellFormed(p);
    assert FirstFree(p.offset[0], p.skip[0], f.slots, 0) == 0;
    assert Partial(p, f, 0) == f && Partial(p, f, 1).slots == f.slots[p.offset[0] := 0];
    PartialKeeps(p, f, 1, |p.quota|);
    assert Rounds(p, 1) == Partial(p, Rounds(p, 0), |p.quota|);
    RoundsKeep(p, 1, p.m);
  }
}
