/**
 Power of two choices: two eligible endpoints drawn by rejection over the eligibility view, with an exact
 fallback when 64 draws in a row land on down endpoints.
 */
module TwoChoices {
  import opened FiniteSets
  import opened Words
  import opened Eligibility
  import Prng

  const DRAW_TRIES: nat := 64
  const REDRAWS: nat := 32

  // ---- the k-th eligible endpoint ----------------------------------------------------------

  /** The eligible endpoint at or after i that has k eligible ones before it from i on. */
  function Kth(up: seq<bool>, i: nat, k: nat): (r: int)
    requires i <= |up|
    decreases |up| - i
  {
    if i == |up| then PICK_NONE
    else if !up[i] then Kth(up, i + 1, k)
    else if k == 0 then i
    else Kth(up, i + 1, k - 1)
  }

  lemma {:induction false} KthHasRank(up: seq<bool>, i: nat, k: nat)
    requires i <= |up| && LiveTo(up, i) + k < Live(up)
    ensures var r := Kth(up, i, k); i <= r < |up| && up[r] && LiveTo(up, r) == LiveTo(up, i) + k
    decreases |up| - i
  {
    if !up[i] {
      KthHasRank(up, i + 1, k);
    } else if k > 0 {
      KthHasRank(up, i + 1, k - 1);
    }
  }

  lemma {:induction false} LiveToStrict(up: seq<bool>, i: nat, j: nat)
    requires i <= j <= |up|
    ensures LiveTo(up, i) <= LiveTo(up, j) && (i < j && up[i] ==> LiveTo(up, i) < LiveTo(up, j))
  {
    if i < j { LiveToStrict(up, i, j - 1); }
  }

  /** Ranks 0, ..., live-1 name the eligible endpoints one to one. */
  lemma KthOfRank(up: seq<bool>, i: nat, k: nat)
    requires i < |up| && k < Live(up)
    ensures Kth(up, 0, k) == i <==> up[i] && LiveTo(up, i) == k
  {
    KthHasRank(up, 0, k);
    var r := Kth(up, 0, k);
    if r < i { LiveToStrict(up, r, i); }
    if i < r { LiveToStrict(up, i, r); }
  }

  ghost function StatesFallingBackTo(up: seq<bool>, i: nat): (s: set<int>)
    requires 0 < Live(up)
  {
    set x: nat | x in Below(TWO32) && Kth(up, 0, Prng.Draw(x, Live(up))) == i
  }

  /** So the fallback is fair: over all 2^32 states every eligible endpoint is reached equally often, to within one. */
  lemma FallbackIsFair(up: seq<bool>, i: nat)
    requires i < |up| && up[i] && 0 < Live(up)
    ensures TWO32 / Live(up) <= |StatesFallingBackTo(up, i)| <= TWO32 / Live(up) + 1
  {
    hide Prng.Step, Prng.Scale;
    var live, k := Live(up), LiveTo(up, i);
    LiveToStrict(up, i, |up|);
    assert StatesFallingBackTo(up, i) == Prng.StatesDrawing(live, k) by {
      forall x: nat | x in Below(TWO32)
        ensures Kth(up, 0, Prng.Draw(x, live)) == i <==> Prng.Draw(x, live) == k
      {
        DrawBelow(x, live);
        KthOfRank(up, i, Prng.Draw(x, live));
      }
    }
    Prng.DrawShare(live, k);
  }

  lemma DrawBelow(x: Word, n: nat)
    requires 0 < n
    ensures Prng.Draw(x, n) < n
  {
    Prng.ScaleIsBucket(Prng.Step(x), n, 0);
  }

  // ---- draws -------------------------------------------------------------------------------

  datatype Drawn = Drawn(i: int, next: Word)

  /** Up to `tries` rejection draws from generator state x, then the fallback. */
  function DrawFrom(up: seq<bool>, x: Word, tries: nat): (d: Drawn)
    requires 0 < Live(up)
    ensures 0 <= d.i < |up| && up[d.i]
    decreases |up|, tries
  {
    if tries == 0 then
      DrawBelow(x, Live(up));
      KthHasRank(up, 0, Prng.Draw(x, Live(up)));
      Drawn(Kth(up, 0, Prng.Draw(x, Live(up))), Prng.Step(x))
    else
      DrawBelow(x, |up|);
      if up[Prng.Draw(x, |up|)] then Drawn(Prng.Draw(x, |up|), Prng.Step(x)) else DrawFrom(up, Prng.Step(x), tries - 1)
  }

  /** Draw again, at most t times, while the draw repeats a. */
  function Redraw(up: seq<bool>, a: int, d: Drawn, t: nat): (e: Drawn)
    requires 0 < Live(up) && 0 <= d.i < |up| && up[d.i]
    ensures 0 <= e.i < |up| && up[e.i]
    decreases |up|, t
  {
    if d.i != a || t == 0 then d else Redraw(up, a, DrawFrom(up, d.next, DRAW_TRIES), t - 1)
  }

  /** The two choices, equal when there is only one to be had; none when nobody is live. */
  datatype Choices = Choices(a: int, b: int, next: Word)

  function Choose(up: seq<bool>, x: Word): (c: Choices)
    ensures if Live(up) == 0 then c == Choices(PICK_NONE, PICK_NONE, x) else 0 <= c.a < |up| && 0 <= c.b < |up| && up[c.a] && up[c.b]
  {
    if Live(up) == 0 then Choices(PICK_NONE, PICK_NONE, x)
    else
      var d := DrawFrom(up, x, DRAW_TRIES);
      if Live(up) == 1 then Choices(d.i, d.i, d.next)
      else
        var e := Redraw(up, d.i, DrawFrom(up, d.next, DRAW_TRIES), REDRAWS);
        Choices(d.i, e.i, e.next)
  }

  // ---- what the draws come to --------------------------------------------------------------

  /** The first t of the words after x name endpoints that are down. */
  ghost predicate Missed(up: seq<bool>, x: Word, t: nat) {
    forall s :: 0 <= s < t ==> Prng.Draw(Prng.StateAfter(x, s), |up|) < |up| && !up[Prng.Draw(Prng.StateAfter(x, s), |up|)]
  }

  /** A draw from x ends at i: the first of 64 words to name an eligible endpoint does, else the 65th by rank. */
  ghost predicate IsDraw(up: seq<bool>, x: Word, d: Drawn) {
    && 0 <= d.i < |up| && up[d.i]
    && exists t ::
      && 0 <= t <= 64 && Missed(up, x, t) && d.next == Prng.StateAfter(x, t + 1)
      && if t < 64 then d.i == Prng.Draw(Prng.StateAfter(x, t), |up|) else LiveTo(up, d.i) == Prng.Draw(Prng.StateAfter(x, t), Live(up))
  }

  lemma {:induction false} DrawsUntil(up: seq<bool>, x: Word, tries: nat)
    requires 0 < Live(up) && tries <= 64 && Missed(up, x, 64 - tries)
    ensures IsDraw(up, x, DrawFrom(up, Prng.StateAfter(x, 64 - tries), tries))
    decreases tries
  {
    hide Prng.Step, Prng.Draw;
    var t := 64 - tries;
    var y := Prng.StateAfter(x, t);
    assert Prng.StateAfter(x, t + 1) == Prng.Step(y);
    if tries == 0 {
      DrawBelow(y, Live(up));
      KthHasRank(up, 0, Prng.Draw(y, Live(up)));
    } else {
      DrawBelow(y, |up|);
      if !up[Prng.Draw(y, |up|)] {
        assert Missed(up, x, t + 1);
        DrawsUntil(up, x, tries - 1);
      }
    }
  }

  lemma DrawFromIsDraw(up: seq<bool>, x: Word)
    requires 0 < Live(up)
    ensures IsDraw(up, x, DrawFrom(up, x, DRAW_TRIES))
  {
    DrawsUntil(up, x, 64);
  }

  /** The t-th of a stream of draws from x. */
  ghost function DrawAt(up: seq<bool>, x: Word, t: nat): (d: Drawn)
    requires 0 < Live(up)
    ensures 0 <= d.i < |up| && up[d.i]
  {
    DrawFrom(up, if t == 0 then x else DrawAt(up, x, t - 1).next, DRAW_TRIES)
  }

  /**
   The pair drawn from x: a is the first draw; with two or more live endpoints b is the first of the next 33 that
   differs from it, and repeats it only if all of them do; with one there is nobody else.
   */
  ghost predicate IsPair(up: seq<bool>, x: Word, c: Choices) {
    if Live(up) == 0 then c == Choices(PICK_NONE, PICK_NONE, x)
    else if Live(up) == 1 then c == Choices(DrawAt(up, x, 0).i, DrawAt(up, x, 0).i, DrawAt(up, x, 0).next)
    else
      && c.a == DrawAt(up, x, 0).i
      && exists m ::
        && 1 <= m <= 33 && c.b == DrawAt(up, x, m).i && c.next == DrawAt(up, x, m).next
        && (forall s :: 1 <= s < m ==> DrawAt(up, x, s).i == c.a) && (c.b == c.a ==> m == 33)
  }

  lemma {:induction false} RedrawsUntil(up: seq<bool>, x: Word, a: int, t: nat) returns (m: nat)
    requires 0 < Live(up) && t <= 32 && forall s :: 1 <= s < 33 - t ==> DrawAt(up, x, s).i == a
    ensures 33 - t <= m <= 33 && Redraw(up, a, DrawAt(up, x, 33 - t), t) == DrawAt(up, x, m)
    ensures (forall s :: 1 <= s < m ==> DrawAt(up, x, s).i == a) && (DrawAt(up, x, m).i == a ==> m == 33)
    decreases t
  {
    hide DrawFrom;
    m := 33 - t;
    if DrawAt(up, x, m).i == a && t > 0 {
      assert DrawAt(up, x, m + 1) == DrawFrom(up, DrawAt(up, x, m).next, DRAW_TRIES);
      m := RedrawsUntil(up, x, a, t - 1);
    }
  }

  lemma ChooseIsPair(up: seq<bool>, x: Word)
    ensures IsPair(up, x, Choose(up, x))
  {
    hide DrawFrom;
    if Live(up) > 0 {
      var d := DrawAt(up, x, 0);
      assert d == DrawFrom(up, x, DRAW_TRIES);
      if Live(up) > 1 {
        assert DrawAt(up, x, 1) == DrawFrom(up, d.next, DRAW_TRIES);
        var m := RedrawsUntil(up, x, d.i, 32);
      }
    }
  }

  /** Of the pair the one with the smaller load, the first on a tie. */
  ghost predicate LessLoaded(c: Choices, load: seq<nat>, i: int) {
    if c.a < 0 then i == PICK_NONE
    else
      && c.a < |load| && 0 <= c.b < |load| && (i == c.a || i == c.b)
      && load[i] <= load[c.a] && load[i] <= load[c.b] && (load[c.a] == load[c.b] ==> i == c.a)
  }

  /** So of two live endpoints, both drawn, the less loaded one of the whole pool is picked. */
  lemma LeastLoadedOfTwo(up: seq<bool>, x: Word, c: Choices, load: seq<nat>, i: int)
    requires IsPair(up, x, c) && Live(up) == 2 && c.a != c.b && |up| <= |load| && LessLoaded(c, load, i)
    ensures 0 <= i < |up| && up[i] && forall j :: 0 <= j < |up| && up[j] ==> load[i] <= load[j]
  {
    hide DrawAt, LiveTo;
    var rest := up[c.a := false];
    LiveToUpdate(up, |up|, c.a, false);
    LiveToUpdate(rest, |up|, c.b, false);
    LiveToPositive(rest[c.b := false], |up|);
    forall j | 0 <= j < |up| && up[j]
      ensures j == c.a || j == c.b
    {
      assert rest[c.b := false][j] ==> j == c.a || j == c.b;
    }
  }

  method KthEligible(base: BalancerBase, rng: Prng.Generator) returns (i: int)
    requires base.Valid() && rng.Valid() && 0 < base.live
    modifies rng
    ensures rng.Valid() && DrawFrom(base.Up(), old(rng.s), 0) == Drawn(i, rng.s)
  {
    hide Prng.Step, Prng.Draw;
    ghost var up := base.Up();
    var k := rng.NextBelow(base.live);
    ghost var k0 := k;
    KthHasRank(up, 0, k);
    for j := 0 to base.cap
      invariant Kth(up, 0, k0) == Kth(up, j, k)
    {
      if base.eligible[j] {
        if k == 0 { return j; }
        k := k - 1;
      }
    }
    assert false;
    i := PICK_NONE;
  }

  /** A random eligible endpoint, or none when nobody is live. */
  method Draw(base: BalancerBase, rng: Prng.Generator) returns (i: int)
    requires base.Valid() && rng.Valid()
    modifies rng
    ensures rng.Valid()
    ensures if base.live == 0 then i == PICK_NONE && rng.s == old(rng.s)
            else DrawFrom(base.Up(), old(rng.s), DRAW_TRIES) == Drawn(i, rng.s)
  {
    hide Prng.Step, Prng.Draw;
    if base.live == 0 { return PICK_NONE; }
    ghost var up, x := base.Up(), rng.s;
    for tries := 0 to DRAW_TRIES
      invariant rng.Valid() && DrawFrom(up, x, DRAW_TRIES) == DrawFrom(up, rng.s, DRAW_TRIES - tries)
    {
      i := rng.NextBelow(base.cap);
      if base.eligible[i] { return; }
    }
    i := KthEligible(base, rng);
  }

  /** Two draws, the second repeated while it collides with the first. */
  method Pair(base: BalancerBase, rng: Prng.Generator) returns (a: int, b: int)
    requires base.Valid() && rng.Valid()
    modifies rng
    ensures rng.Valid() && Choose(base.Up(), old(rng.s)) == Choices(a, b, rng.s)
    ensures IsPair(base.Up(), old(rng.s), Choices(a, b, rng.s))
  {
    ChooseIsPair(base.Up(), rng.s);
    hide DrawFrom, IsPair;
    a := Draw(base, rng);
    if a < 0 { return a, a; }
    if base.live == 1 { return a, a; }
    b := Draw(base, rng);
    ghost var d := Drawn(b, rng.s);
    var t := 0;
    while b == a && t < REDRAWS
      invariant t <= REDRAWS && rng.Valid() && 0 <= b < base.cap && base.Up()[b]
      invariant Redraw(base.Up(), a, d, REDRAWS) == Redraw(base.Up(), a, Drawn(b, rng.s), REDRAWS - t)
    {
      b := Draw(base, rng);
      t := t + 1;
    }
  }

  /** The less loaded of the two choices; a tie keeps the first. */
  class P2cBalancer {
    const base: BalancerBase
    const inflight: array<nat>
    const rng: Prng.Generator

    ghost predicate Valid()
      reads this, base, base.eligible, rng
    {
      base.Valid() && rng.Valid() && base.cap <= inflight.Length
    }

    constructor (capacity: nat, view: array<bool>, load: array<nat>, seed: Word)
      requires 1 <= capacity <= view.Length && capacity <= load.Length
      ensures Valid() && fresh(base) && fresh(rng)
      ensures base.eligible == view && base.cap == capacity && inflight == load
    {
      base := new BalancerBase(capacity, view);
      inflight := load;
      rng := new Prng.Generator(seed);
    }

    method Pick() returns (i: int)
      requires Valid()
      modifies rng
      ensures Valid()
      ensures if base.live == 0 then i == PICK_NONE && rng.s == old(rng.s) else 0 <= i < base.cap && base.Up()[i]
      ensures base.live > 0 ==>
        exists a, b :: IsPair(base.Up(), old(rng.s), Choices(a, b, rng.s)) && LessLoaded(Choices(a, b, rng.s), inflight[..], i)
    {
      hide Choose, DrawAt;
      var a, b := Pair(base, rng);
      if a < 0 || b == a { return a; }
      i := if inflight[b] < inflight[a] then b else a;
    }
  }
}
