/**
 The in-place table build: per-backend cursors that only move forward by additive stepping, a `taken` byte
 per slot, and an early stop at the m-th slot. Proved to leave exactly `Maglev.Table(p)`, with the search for a
 free slot always ending and both defensive branches dead.
 */
module MaglevBuild {
  import opened Seqs
  import opened Maglev

  /** The slot array and taken bytes show the fill f. */
  ghost predicate Shows(p: Params, f: Fill, lookup: seq<int>, taken: seq<bool>) {
    && |lookup| == |taken| == |f.slots| == p.m
    && (forall c :: 0 <= c < p.m ==> taken[c] == (f.slots[c] != FREE))
    && (forall c :: 0 <= c < p.m && taken[c] ==> lookup[c] == f.slots[c])
  }

  /** Backend b's cursor stands at step j of its permutation, everything before it taken. */
  ghost predicate Passed(p: Params, slots: seq<int>, b: nat, cursor: nat, j: nat)
    requires p.m == |slots| && b < |p.offset|
  {
    && cursor == Pos(p.offset[b], p.skip[b], p.m, j)
    && forall i :: 0 <= i < j ==> slots[Pos(p.offset[b], p.skip[b], p.m, i)] != FREE
  }

  ghost predicate Cursors(p: Params, slots: seq<int>, cur: seq<nat>, steps: seq<nat>)
    requires p.m == |slots|
  {
    && |cur| == |steps| == |p.offset|
    && forall b :: 0 <= b < |cur| ==> Passed(p, slots, b, cur[b], steps[b])
  }

  /** Stepping on by the skip, with wrap-around, while the slot is taken: it stops at the backend's first free slot. */
  method NextFree(ghost p: Params, ghost f: Fill, b: nat, skip: nat, taken: array<bool>, start: nat, ghost at: nat)
    returns (c: nat, ghost j: nat)
    requires ValidParams(p) && WellFormed(p, f) && Sum(f.counts) < p.m && b < |p.quota|
    requires skip == p.skip[b] && taken.Length == p.m
    requires forall c :: 0 <= c < p.m ==> taken[c] == (f.slots[c] != FREE)
    requires Passed(p, f.slots, b, start, at)
    ensures j == FirstFree(p.offset[b], skip, f.slots, 0) && j < p.m
    ensures c == Pos(p.offset[b], skip, p.m, j) && f.slots[c] == FREE
    ensures Passed(p, f.slots, b, c, j)
  {
    CountToZero(f.slots, p.m, FREE);
    ghost var s :| 0 <= s < p.m && f.slots[s] == FREE;
    ghost var goal := PosSurjective(p.offset[b], skip, p.m, s);
    c, j := start, at;
    while taken[c]
      invariant Passed(p, f.slots, b, c, j) && j <= goal
      decreases goal - j
    {
      c := c + skip;
      if c >= taken.Length { c := c - taken.Length; }
      j := j + 1;
    }
    FirstFreeIsFirst(p.offset[b], skip, f.slots, 0);
  }

  /** What the fill loops keep: after k rounds and b turns the arrays show the reference fill. */
  ghost predicate InStep(p: Params, k: nat, b: nat, lookup: seq<int>, taken: seq<bool>, counts: seq<nat>, cur: seq<nat>, steps: seq<nat>)
  {
    && ValidParams(p) && b <= |p.quota| && WellFormed(p, Rounds(p, k))
    && var f := Partial(p, Rounds(p, k), b);
    && WellFormed(p, f) && counts == f.counts
    && Shows(p, f, lookup, taken) && Cursors(p, f.slots, cur, steps)
  }

  lemma ShowsTaken(p: Params, f: Fill, g: Fill, c: nat, b: nat, lookup: seq<int>, taken: seq<bool>)
    requires Shows(p, f, lookup, taken) && c < p.m && g.slots == f.slots[c := b]
    ensures Shows(p, g, lookup[c := b], taken[c := true])
  {
  }

  lemma CursorsAdvance(p: Params, slots: seq<int>, b: nat, j: nat, next: nat, cur: seq<nat>, steps: seq<nat>)
    requires p.m == |slots|
    requires Cursors(p, slots, cur, steps) && b < |cur|
    requires Passed(p, slots, b, Pos(p.offset[b], p.skip[b], p.m, j), j)
    requires next == Pos(p.offset[b], p.skip[b], p.m, j + 1)
    ensures Cursors(p, slots[Pos(p.offset[b], p.skip[b], p.m, j) := b], cur[b := next], steps[b := j + 1])
  {
    var c := Pos(p.offset[b], p.skip[b], p.m, j);
    var after := slots[c := b];
    var cur', steps' := cur[b := next], steps[b := j + 1];
    forall i | 0 <= i < |cur|
      ensures Passed(p, after, i, cur'[i], steps'[i])
    {
      if i != b { assert Passed(p, slots, i, cur[i], steps[i]); }
    }
  }

  lemma StepTaken(p: Params, k: nat, b: nat, lookup: seq<int>, taken: seq<bool>, counts: seq<nat>, cur: seq<nat>, steps: seq<nat>,
                  j: nat, next: nat)
    requires b < |p.quota| && InStep(p, k, b, lookup, taken, counts, cur, steps)
    requires counts[b] < p.quota[b]
    requires var f := Partial(p, Rounds(p, k), b);
      && j == FirstFree(p.offset[b], p.skip[b], f.slots, 0) && j < p.m
      && Passed(p, f.slots, b, Pos(p.offset[b], p.skip[b], p.m, j), j)
    requires next == Pos(p.offset[b], p.skip[b], p.m, j + 1)
    ensures var c := Pos(p.offset[b], p.skip[b], p.m, j);
      InStep(p, k, b + 1, lookup[c := b], taken[c := true], counts[b := counts[b] + 1], cur[b := next], steps[b := j + 1])
  {
    var f := Partial(p, Rounds(p, k), b);
    var c := Pos(p.offset[b], p.skip[b], p.m, j);
    var g := Turn(p, f, b);
    TurnWellFormed(p, f, b);
    ShowsTaken(p, f, g, c, b, lookup, taken);
    CursorsAdvance(p, f.slots, b, j, next, cur, steps);
  }

  lemma StepSkipped(p: Params, k: nat, b: nat, lookup: seq<int>, taken: seq<bool>, counts: seq<nat>, cur: seq<nat>, steps: seq<nat>)
    requires b < |p.quota| && InStep(p, k, b, lookup, taken, counts, cur, steps)
    requires counts[b] >= p.quota[b]
    ensures InStep(p, k, b + 1, lookup, taken, counts, cur, steps)
  {
  }

  /** The four writes of a turn. */
  method Mark(b: nat, c: nat, next: nat, lookup: array<int>, taken: array<bool>, counts: array<nat>, cur: array<nat>)
    requires c < lookup.Length == taken.Length && b < counts.Length == cur.Length && counts != cur
    modifies lookup, taken, counts, cur
    ensures lookup[..] == old(lookup[..])[c := b]
    ensures taken[..] == old(taken[..])[c := true]
    ensures counts[..] == old(counts[..])[b := old(counts[b]) + 1]
    ensures cur[..] == old(cur[..])[b := next]
  {
    lookup[c] := b;
    taken[c] := true;
    cur[b] := next;
    counts[b] := counts[b] + 1;
  }

  /** One backend's turn. */
  method TakeTurn(ghost p: Params, ghost k: nat, b: nat, skip: array<nat>, quota: array<nat>, lookup: array<int>,
                  taken: array<bool>, counts: array<nat>, cur: array<nat>, ghost steps: seq<nat>)
    returns (took: bool, ghost steps': seq<nat>)
    requires skip.Length == quota.Length == counts.Length == cur.Length == |p.quota|
    requires skip[..] == p.skip && quota[..] == p.quota && b < |p.quota|
    requires counts != cur && counts != skip && counts != quota && cur != skip && cur != quota
    requires InStep(p, k, b, lookup[..], taken[..], counts[..], cur[..], steps)
    requires Sum(counts[..]) < p.m
    modifies lookup, taken, counts, cur
    ensures InStep(p, k, b + 1, lookup[..], taken[..], counts[..], cur[..], steps')
    ensures took == (old(counts[b]) < quota[b])
    ensures Sum(counts[..]) == Sum(old(counts[..])) + (if took then 1 else 0)
  {
    hide Rounds, Partial, SumTo, FirstFree;
    ghost var f := Partial(p, Rounds(p, k), b);
    ghost var lk, tk, cs, cr := lookup[..], taken[..], counts[..], cur[..];
    if counts[b] >= quota[b] {
      StepSkipped(p, k, b, lk, tk, cs, cr, steps);
      return false, steps;
    }
    var sk := skip[b];
    var c, j := NextFree(p, f, b, sk, taken, cur[b], steps[b]);
    var next: nat := c + sk;
    if next >= lookup.Length { next := next - lookup.Length; }
    StepTaken(p, k, b, lk, tk, cs, cr, steps, j, next);
    SumUpdate(cs, b, cs[b] + 1);
    Mark(b, c, next, lookup, taken, counts, cur);
    return true, steps[b := j + 1];
  }

  lemma RoundDone(p: Params, k: nat, lookup: seq<int>, taken: seq<bool>, counts: seq<nat>, cur: seq<nat>, steps: seq<nat>)
    requires InStep(p, k, |p.quota|, lookup, taken, counts, cur, steps)
    ensures InStep(p, k + 1, 0, lookup, taken, counts, cur, steps) && counts == Rounds(p, k + 1).counts
    ensures Sum(Rounds(p, k).counts) < p.m ==> Sum(counts) > Sum(Rounds(p, k).counts)
  {
    if Sum(Rounds(p, k).counts) < p.m { RoundTakes(p, Rounds(p, k)); }
  }

  lemma TableReached(p: Params, k: nat, b: nat, lookup: seq<int>, taken: seq<bool>, counts: seq<nat>, cur: seq<nat>, steps: seq<nat>)
    requires InStep(p, k, b, lookup, taken, counts, cur, steps) && Sum(counts) >= p.m
    ensures lookup == Table(p) && forall c :: 0 <= c < p.m ==> taken[c]
  {
    var f := Partial(p, Rounds(p, k), b);
    FullIsTable(p, k, b);
    FullMeansQuota(p, f);
    forall c | 0 <= c < p.m ensures taken[c] { assert f.slots[c] in f.slots; }
  }

  lemma StartInStep(p: Params, lookup: seq<int>, taken: seq<bool>, counts: seq<nat>, cur: seq<nat>, steps: seq<nat>)
    requires ValidParams(p) && |lookup| == |taken| == p.m && |counts| == |cur| == |steps| == |p.quota|
    requires forall c :: 0 <= c < p.m ==> !taken[c]
    requires forall b :: 0 <= b < |p.quota| ==> counts[b] == 0 && cur[b] == p.offset[b] && steps[b] == 0
    ensures InStep(p, 0, 0, lookup, taken, counts, cur, steps)
    ensures Sum(counts) == Sum(Rounds(p, 0).counts) == 0
  {
    EmptyWellFormed(p);
    assert counts == Empty(p).counts;
    forall b | 0 <= b < |p.quota|
      ensures Passed(p, Empty(p).slots, b, cur[b], steps[b])
    {
    }
  }

  /** One round of turns, cut short when the last slot is filled; it always makes progress. */
  method Round(ghost p: Params, ghost k: nat, skip: array<nat>, quota: array<nat>, lookup: array<int>, taken: array<bool>,
               counts: array<nat>, cur: array<nat>, ghost steps: seq<nat>, before: nat)
    returns (filled: nat, ghost turns: nat, ghost steps': seq<nat>)
    requires skip.Length == quota.Length == counts.Length == cur.Length == |p.quota| && lookup.Length == p.m
    requires skip[..] == p.skip && quota[..] == p.quota
    requires counts != cur && counts != skip && counts != quota && cur != skip && cur != quota
    requires InStep(p, k, 0, lookup[..], taken[..], counts[..], cur[..], steps)
    requires before == Sum(counts[..]) == Sum(Rounds(p, k).counts) < p.m
    modifies lookup, taken, counts, cur
    ensures turns <= |p.quota| && InStep(p, k, turns, lookup[..], taken[..], counts[..], cur[..], steps')
    ensures before < filled == Sum(counts[..]) && (filled < p.m ==> turns == |p.quota|)
  {
    hide InStep, Rounds, SumTo;
    var b, progressed := 0, false;
    filled, steps' := before, steps;
    while b < quota.Length
      invariant b <= |p.quota| && InStep(p, k, b, lookup[..], taken[..], counts[..], cur[..], steps')
      invariant before <= filled == Sum(counts[..]) < p.m && progressed == (before < filled)
    {
      var took;
      took, steps' := TakeTurn(p, k, b, skip, quota, lookup, taken, counts, cur, steps');
      b := b + 1;
      if took {
        filled := filled + 1;
        progressed := true;
        if filled >= lookup.Length { return filled, b, steps'; }
      }
    }
    turns := b;
    RoundDone(p, k, lookup[..], taken[..], counts[..], cur[..], steps');
    if !progressed { assert false; }
  }

  /** Rounds until the table is full. */
  method FillAll(ghost p: Params, skip: array<nat>, quota: array<nat>, lookup: array<int>, taken: array<bool>,
                 counts: array<nat>, cur: array<nat>, ghost start: seq<nat>)
    requires skip.Length == quota.Length == counts.Length == cur.Length == |p.quota| && lookup.Length == p.m
    requires skip[..] == p.skip && quota[..] == p.quota
    requires counts != cur && counts != skip && counts != quota && cur != skip && cur != quota
    requires InStep(p, 0, 0, lookup[..], taken[..], counts[..], cur[..], start)
    requires Sum(counts[..]) == Sum(Rounds(p, 0).counts) == 0
    modifies lookup, taken, counts, cur
    ensures lookup[..] == Table(p)
  {
    hide InStep, Rounds, SumTo, Table;
    var filled := 0;
    ghost var k: nat, turns: nat, steps := 0, 0, start;
    while filled < lookup.Length
      invariant turns <= |p.quota| && InStep(p, k, turns, lookup[..], taken[..], counts[..], cur[..], steps)
      invariant filled == Sum(counts[..]) && (filled < p.m ==> turns == 0 && filled == Sum(Rounds(p, k).counts))
    {
      filled, turns, steps := Round(p, k, skip, quota, lookup, taken, counts, cur, steps, filled);
      if filled < lookup.Length {
        RoundDone(p, k, lookup[..], taken[..], counts[..], cur[..], steps);
        k, turns := k + 1, 0;
      }
    }
    TableReached(p, k, turns, lookup[..], taken[..], counts[..], cur[..], steps);
    if filled < lookup.Length { assert false; }
  }

  /** Build the table from the per-backend parameters; whatever `lookup` held before is overwritten. */
  method Populate(ghost p: Params, offset: array<nat>, skip: array<nat>, quota: array<nat>, lookup: array<int>)
    requires ValidParams(p) && lookup.Length == p.m
    requires offset[..] == p.offset && skip[..] == p.skip && quota[..] == p.quota
    modifies lookup
    ensures lookup[..] == Table(p)
  {
    var N := quota.Length;
    var cur := new nat[N];
    for b := 0 to N
      invariant forall i :: 0 <= i < b ==> cur[i] == p.offset[i]
    {
      cur[b] := offset[b];
    }
    var filledCount := new nat[N](_ => 0);
    var taken := new bool[lookup.Length](_ => false);
    StartInStep(p, lookup[..], taken[..], filledCount[..], cur[..], Zeros(N));
    FillAll(p, skip, quota, lookup, taken, filledCount, cur, Zeros(N));
  }
}
