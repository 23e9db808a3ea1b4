/**
 Consistent hashing with bounded loads: a key stays on its home unless the home is over its occupancy cap,
 in which case it overflows to the next eligible, under-cap backend of the probe window.
 */
module BoundedLoad {
  import opened Seqs
  import opened Arith
  import opened Words
  import opened Primes
  import opened Eligibility
  import opened ConsistentHash

  /** Home plus the bounded probe. */
  const WINDOW: nat := CH_PROBE_LIMIT + 1

  /** What a pick reads besides the loads: table, eligibility, slack and cap floor. */
  datatype Ring = Ring(t: seq<int>, up: seq<bool>, eps: real, minCap: nat)

  ghost predicate ValidRing(r: Ring) {
    Owned(r.t, |r.up|) && r.eps > 0.0 && 0 < Live(r.up)
  }

  /** (1+eps) * count / live: `count` spread evenly over the live backends, plus the slack. */
  function Share(eps: real, count: nat, live: nat): (x: real)
    requires 0 < live
  {
    (1.0 + eps) * count as real / live as real
  }

  /** The cap on a backend's load before the incoming request is added. */
  function Cap(eps: real, minCap: nat, total: nat, live: nat): (x: real)
    requires 0 < live
    ensures x >= minCap as real
  {
    var x := if total > 0 then Share(eps, total + 1, live) else 0.0;
    if x < minCap as real then minCap as real else x
  }

  /** Eligible, and under the cap when the cap is active. */
  function UnderCap(r: Ring, load: seq<nat>, total: nat): (ok: seq<bool>)
    requires |r.up| <= |load| && 0 < Live(r.up)
    ensures |ok| == |r.up|
  {
    seq(|r.up|, i requires 0 <= i < |r.up| => r.up[i] && (total == 0 || load[i] as real < Cap(r.eps, r.minCap, total, Live(r.up))))
  }

  /** The first under-cap backend of the window, else the first eligible of the window, else of the table. */
  function Route(r: Ring, load: seq<nat>, total: nat, slot: nat): (i: int)
    requires ValidRing(r) && |r.up| <= |load| && slot < |r.t|
    ensures i == PICK_NONE || (0 <= i < |r.up| && r.up[i])
  {
    var i := First(r.t, UnderCap(r, load, total), slot, 0, WINDOW);
    if i != PICK_NONE then i
    else
      var j := First(r.t, r.up, slot, 0, WINDOW);
      if j != PICK_NONE then j else First(r.t, r.up, slot, 0, |r.t|)
  }

  /** The first under-cap backend of the 65-slot window takes the key, whatever the others carry: an under-cap home keeps it. */
  lemma RouteTakesFirst(r: Ring, load: seq<nat>, total: nat, slot: nat, d: nat)
    requires ValidRing(r) && |r.up| <= |load| && slot < |r.t| && d < 65
    requires var ok := UnderCap(r, load, total); NoneIn(r.t, ok, slot, 0, d) && ok[r.t[Wrap(slot, d, |r.t|)]]
    ensures Route(r, load, total, slot) == r.t[Wrap(slot, d, |r.t|)]
  {
    NoneExtend(r.t, UnderCap(r, load, total), slot, 0, d, WINDOW);
  }

  /** An over-full window costs nothing but the cap: the answer is then ConsistentHash's own. */
  lemma OverflowIsSticky(r: Ring, load: seq<nat>, total: nat, slot: nat)
    requires ValidRing(r) && |r.up| <= |load| && slot < |r.t|
    requires NoneIn(r.t, UnderCap(r, load, total), slot, 0, WINDOW)
    ensures Route(r, load, total, slot) == First(r.t, r.up, slot, 0, |r.t|)
  {
    var e := FirstIsFirst(r.t, UnderCap(r, load, total), slot, 0, WINDOW);
    if First(r.t, r.up, slot, 0, WINDOW) != PICK_NONE { WindowFinds(r.t, r.up, slot, WINDOW); }
  }

  /** With nothing in flight the cap is inactive and every key goes where ConsistentHash sends it. */
  lemma EmptyIsConsistentHash(r: Ring, load: seq<nat>, slot: nat)
    requires ValidRing(r) && |r.up| <= |load| && slot < |r.t|
    ensures Route(r, load, 0, slot) == First(r.t, r.up, slot, 0, |r.t|)
  {
    assert UnderCap(r, load, 0) == r.up;
    if First(r.t, r.up, slot, 0, WINDOW) != PICK_NONE { WindowFinds(r.t, r.up, slot, WINDOW); }
  }

  /** Caps never cost availability: no answer exactly when no eligible backend owns a slot. */
  lemma NoneIffUnowned(r: Ring, load: seq<nat>, total: nat, slot: nat)
    requires ValidRing(r) && |r.up| <= |load| && slot < |r.t|
    ensures Route(r, load, total, slot) == PICK_NONE <==> forall c :: 0 <= c < |r.t| ==> !r.up[r.t[c]]
  {
    NoneIffUnreachable(r.t, r.up, slot);
    var e := FirstIsFirst(r.t, UnderCap(r, load, total), slot, 0, WINDOW);
    var g := FirstIsFirst(r.t, r.up, slot, 0, WINDOW);
  }

  // ---- the pigeonhole ----------------------------------------------------------------------

  /** A full share on each live backend is more than the total, which leaves room for one more request. */
  lemma FullSharesExceed(eps: real, total: nat, live: nat)
    requires 0 < live && eps > 0.0
    ensures Share(eps, total + 1, live) * live as real > total as real
  {
    var n := (total + 1) as real;
    assert Share(eps, total + 1, live) * live as real == (1.0 + eps) * n;
    assert (1.0 + eps) * n == n + eps * n;
  }

  /** If every live backend carries at least x, the loads sum to at least x per live backend. */
  lemma {:induction false} LoadsAtLeast(up: seq<bool>, load: seq<nat>, x: real, n: nat)
    requires n <= |up| <= |load|
    requires forall i :: 0 <= i < n && up[i] ==> load[i] as real >= x
    ensures SumTo(load, n) as real >= x * LiveTo(up, n) as real
  {
    if n > 0 { LoadsAtLeast(up, load, x, n - 1); }
  }

  /** The loads cannot all reach a full share. */
  lemma SomeoneBelowShare(up: seq<bool>, load: seq<nat>, eps: real, total: nat) returns (i: nat)
    requires 0 < Live(up) && eps > 0.0 && |load| == |up| && total == Sum(load)
    ensures i < |up| && up[i] && (load[i] as real) < Share(eps, total + 1, Live(up))
  {
    hide Share;
    var x := Share(eps, total + 1, Live(up));
    if forall k :: 0 <= k < |up| && up[k] ==> load[k] as real >= x {
      LoadsAtLeast(up, load, x, |up|);
      FullSharesExceed(eps, total, Live(up));
      assert false;
    }
    i :| 0 <= i < |up| && up[i] && (load[i] as real) < x;
  }

  /** While the total is the sum of the loads and somebody is live, some eligible backend is under the cap. */
  lemma SomeoneIsUnderCap(r: Ring, load: seq<nat>, total: nat)
    requires 0 < Live(r.up) && r.eps > 0.0 && |load| == |r.up| && total == Sum(load)
    ensures exists i :: 0 <= i < |r.up| && UnderCap(r, load, total)[i]
  {
    hide Share;
    var i := SomeoneBelowShare(r.up, load, r.eps, total);
    assert UnderCap(r, load, total)[i];
  }

  function Total(load: seq<nat>): (r: nat)
    ensures r == Sum(load)
  {
    SumToNonNegative(load, |load|);
    Sum(load)
  }

  // ---- the load bound ----------------------------------------------------------------------

  function Ceil(x: real): (c: int)
    ensures c as real >= x > c as real - 1.0
  {
    -(-x).Floor
  }

  lemma CeilMonotone(x: real, y: real)
    requires x <= y
    ensures Ceil(x) <= Ceil(y) && (0.0 < y ==> 1 <= Ceil(y))
  {
  }

  /** max(minCap, ceil((1+eps) * total / live)) */
  function Bound(r: Ring, total: nat): (b: int)
    requires 0 < Live(r.up)
    ensures b >= r.minCap && b as real >= Share(r.eps, total, Live(r.up))
  {
    var c := Ceil(Share(r.eps, total, Live(r.up)));
    if c < r.minCap then r.minCap else c
  }

  lemma ShareMeans(eps: real, count: nat, live: nat, n: int)
    requires 0 < live
    ensures n as real < Share(eps, count, live) <==> n as real * live as real < (1.0 + eps) * count as real
  {
    var x, d := (1.0 + eps) * count as real, live as real;
    var q := x / d;
    assert q * d == x;
    if n as real < q { RealScales(n as real, q, d); } else if q < n as real { RealScales(q, n as real, d); }
  }

  lemma RealScales(x: real, y: real, d: real)
    requires x < y && d > 0.0
    ensures x * d < y * d
  {
  }

  /**
   What the bound says without a division: n requests on a backend are within it if the cap floor allows them, or
   n-1 of them on every live backend would still be less than the slack over the total allows.
   */
  lemma BoundMeans(r: Ring, total: nat, n: int)
    requires 0 < Live(r.up)
    ensures n <= Bound(r, total) <==> n <= r.minCap || (n - 1) as real * Live(r.up) as real < (1.0 + r.eps) * total as real
  {
    var x := Share(r.eps, total, Live(r.up));
    ShareMeans(r.eps, total, Live(r.up), n - 1);
    hide Share;
    assert n <= Ceil(x) <==> (n - 1) as real < x;
  }

  /** And what being under the cap says: below the cap floor, or below an even share of the slack over the new total. */
  lemma UnderCapMeans(r: Ring, load: seq<nat>, total: nat, i: nat)
    requires 0 < Live(r.up) && i < |r.up| <= |load|
    ensures UnderCap(r, load, total)[i] <==>
      && r.up[i]
      && (total == 0 || load[i] < r.minCap || load[i] as real * Live(r.up) as real < (1.0 + r.eps) * (total + 1) as real)
  {
    ShareMeans(r.eps, total + 1, Live(r.up), load[i]);
    hide Share;
  }

  lemma BoundMonotone(r: Ring, total: nat)
    requires 0 < Live(r.up) && r.eps > 0.0
    ensures Bound(r, total) <= Bound(r, total + 1) && 1 <= Bound(r, total + 1)
  {
    var live := Live(r.up) as real;
    assert (1.0 + r.eps) * (total + 1) as real == (1.0 + r.eps) * total as real + (1.0 + r.eps);
    assert 0.0 <= (1.0 + r.eps) * total as real;
    QuotientGrows((1.0 + r.eps) * total as real, (1.0 + r.eps), live);
    CeilMonotone(Share(r.eps, total, Live(r.up)), Share(r.eps, total + 1, Live(r.up)));
  }

  lemma QuotientGrows(a: real, b: real, d: real)
    requires a >= 0.0 && b > 0.0 && d > 0.0
    ensures a / d < (a + b) / d && 0.0 < (a + b) / d
  {
  }

  lemma IntBelow(n: int, b: int, x: real)
    requires n as real < x <= b as real
    ensures n + 1 <= b
  {
  }

  /** A dispatch leaves its backend within the bound at the new total exactly when the backend was under the cap. */
  lemma DispatchWithinBound(r: Ring, load: seq<nat>, i: nat)
    requires ValidRing(r) && |load| == |r.up| && i < |r.up| && r.up[i]
    ensures load[i] + 1 <= Bound(r, Total(load) + 1) <==> UnderCap(r, load, Total(load))[i]
  {
    var total, live := Total(load), Live(r.up);
    BoundMonotone(r, total);
    if total == 0 {
      SumToNonNegative(load, |load|);
    } else if UnderCap(r, load, total)[i] {
      IntBelow(load[i], Bound(r, total + 1), Cap(r.eps, r.minCap, total, live));
    } else {
      CeilAtMost(Share(r.eps, total + 1, live), load[i]);
    }
  }

  lemma CeilAtMost(x: real, n: int)
    requires x <= n as real
    ensures Ceil(x) <= n
  {
  }

  /** A settle-free run of dispatches, each landing where the pick sends it. */
  ghost predicate DispatchRun(r: Ring, loads: seq<seq<nat>>, slots: seq<nat>) {
    && ValidRing(r) && |loads| == |slots| + 1
    && (forall t :: 0 <= t < |loads| ==> |loads[t]| == |r.up|)
    && (forall t :: 0 <= t < |slots| ==> slots[t] < |r.t| && Dispatched(r, loads[t], slots[t], loads[t + 1]))
  }

  ghost predicate Dispatched(r: Ring, load: seq<nat>, slot: nat, next: seq<nat>)
    requires ValidRing(r) && |load| == |r.up| && slot < |r.t|
  {
    var i := Route(r, load, Total(load), slot);
    0 <= i && next == load[i := load[i] + 1]
  }

  /** Some slot of the window belongs to an eligible, under-cap backend. */
  ghost predicate WindowHasRoom(r: Ring, load: seq<nat>, slot: nat)
    requires ValidRing(r) && |load| == |r.up| && slot < |r.t|
  {
    !NoneIn(r.t, UnderCap(r, load, Total(load)), slot, 0, WINDOW)
  }

  ghost predicate WithinBound(r: Ring, load: seq<nat>)
    requires ValidRing(r)
  {
    forall i :: 0 <= i < |load| ==> load[i] <= Bound(r, Total(load))
  }

  /** Somebody under the cap takes the request: in the window, or failing that the table's first eligible backend. */
  ghost predicate HasTaker(r: Ring, load: seq<nat>, slot: nat)
    requires ValidRing(r) && |load| == |r.up| && slot < |r.t|
  {
    || WindowHasRoom(r, load, slot)
    || var f := First(r.t, r.up, slot, 0, |r.t|); f != PICK_NONE && UnderCap(r, load, Total(load))[f]
  }

  /**
   A pick that finds anybody keeps the bound exactly when it has a taker. While the window holds an eligible
   backend that means room in the window; if it holds none the sweep's find decides.
   */
  lemma BoundNeedsRoom(r: Ring, load: seq<nat>, slot: nat)
    requires ValidRing(r) && |load| == |r.up| && slot < |r.t| && 0 <= Route(r, load, Total(load), slot)
    ensures load[Route(r, load, Total(load), slot)] + 1 <= Bound(r, Total(load) + 1) <==> HasTaker(r, load, slot)
    ensures First(r.t, r.up, slot, 0, WINDOW) != PICK_NONE ==> (HasTaker(r, load, slot) <==> WindowHasRoom(r, load, slot))
  {
    hide Bound;
    var ok := UnderCap(r, load, Total(load));
    var e := FirstIsFirst(r.t, ok, slot, 0, WINDOW);
    DispatchWithinBound(r, load, Route(r, load, Total(load), slot));
    if !WindowHasRoom(r, load, slot) {
      OverflowIsSticky(r, load, Total(load), slot);
      if First(r.t, r.up, slot, 0, WINDOW) != PICK_NONE {
        WindowFinds(r.t, r.up, slot, WINDOW);
        var f := FirstIsFirst(r.t, r.up, slot, 0, WINDOW);
      }
    }
  }

  lemma StepKeepsBound(r: Ring, load: seq<nat>, slot: nat, next: seq<nat>)
    requires ValidRing(r) && |load| == |r.up| && |next| == |load| && slot < |r.t| && Dispatched(r, load, slot, next)
    requires WithinBound(r, load)
    ensures Total(next) == Total(load) + 1 && (WithinBound(r, next) <==> HasTaker(r, load, slot))
  {
    hide Bound, HasTaker, Route;
    var i := Route(r, load, Total(load), slot);
    BoundNeedsRoom(r, load, slot);
    SumUpdate(load, i, load[i] + 1);
    BoundMonotone(r, Total(load));
    assert next[i] == load[i] + 1;
  }

  /** While no request settles and every pick has a taker, no backend ever exceeds the bound. */
  lemma {:induction false} LoadsStayBounded(r: Ring, loads: seq<seq<nat>>, slots: seq<nat>, t: nat)
    requires DispatchRun(r, loads, slots) && t < |loads|
    requires forall k :: 0 <= k < t ==> HasTaker(r, loads[k], slots[k])
    requires WithinBound(r, loads[0])
    ensures Total(loads[t]) == Total(loads[0]) + t && WithinBound(r, loads[t])
  {
    if t > 0 {
      LoadsStayBounded(r, loads, slots, t - 1);
      StepKeepsBound(r, loads[t - 1], slots[t - 1], loads[t]);
    }
  }

  /** And only then: a settle-free run keeps the bound throughout if and only if every one of its picks has a taker. */
  lemma BoundedRunsExactly(r: Ring, loads: seq<seq<nat>>, slots: seq<nat>)
    requires DispatchRun(r, loads, slots) && WithinBound(r, loads[0])
    ensures (forall t :: 0 <= t < |loads| ==> WithinBound(r, loads[t]))
      <==> forall k :: 0 <= k < |slots| ==> slots[k] < |r.t| && HasTaker(r, loads[k], slots[k])
  {
    hide WithinBound, HasTaker;
    if forall k :: 0 <= k < |slots| ==> HasTaker(r, loads[k], slots[k]) {
      forall t | 0 <= t < |loads| ensures WithinBound(r, loads[t]) {
        LoadsStayBounded(r, loads, slots, t);
      }
    } else {
      var k :| 0 <= k < |slots| && !HasTaker(r, loads[k], slots[k]);
      if WithinBound(r, loads[k]) { StepKeepsBound(r, loads[k], slots[k], loads[k + 1]); }
    }
  }

  /** A window that spans the table always has room if every eligible backend owns a slot ... */
  lemma SmallTableHasRoom(r: Ring, load: seq<nat>, slot: nat)
    requires ValidRing(r) && |load| == |r.up| && slot < |r.t| <= WINDOW
    requires forall i :: 0 <= i < |r.up| && r.up[i] ==> exists c :: 0 <= c < |r.t| && r.t[c] == i
    ensures WindowHasRoom(r, load, slot)
  {
    SomeoneIsUnderCap(r, load, Total(load));
    var i :| 0 <= i < |r.up| && UnderCap(r, load, Total(load))[i];
    var c :| 0 <= c < |r.t| && r.t[c] == i;
    var d := DistanceTo(slot, c, |r.t|);
    assert r.t[Wrap(slot, d, |r.t|)] == i;
  }

  /** ... so there the bound holds throughout every settle-free run. */
  lemma SmallTableStaysBounded(r: Ring, loads: seq<seq<nat>>, slots: seq<nat>, t: nat)
    requires DispatchRun(r, loads, slots) && t < |loads| && |r.t| <= WINDOW
    requires forall i :: 0 <= i < |r.up| && r.up[i] ==> exists c :: 0 <= c < |r.t| && r.t[c] == i
    requires WithinBound(r, loads[0])
    ensures WithinBound(r, loads[t])
  {
    forall k | 0 <= k < |slots| ensures HasTaker(r, loads[k], slots[k]) {
      assert Dispatched(r, loads[k], slots[k], loads[k + 1]);
      SmallTableHasRoom(r, loads[k], slots[k]);
    }
    LoadsStayBounded(r, loads, slots, t);
  }

  // ---- a table whose window has no room ----------------------------------------------------

  lemma {:induction false} TwoBackends(t: seq<int>, n: nat)
    requires n <= |t| && forall c :: 0 <= c < n ==> t[c] == 0 || t[c] == 1
    ensures CountTo(t, n, 0) + CountTo(t, n, 1) == n
  {
    if n > 0 { TwoBackends(t, n - 1); }
  }

  /** With weights m-1 and 1 backend 1 owns one slot at most. */
  lemma LightBackend(m: nat, seed: Word)
    requires IsPrime(m) && 2 <= m <= MAX_TABLE_SIZE
    ensures var w := [m - 1, 1]; ValidConfig(w, m) && Sum(w) == m
    ensures var t := TableFor([m - 1, 1], m, seed); Owned(t, 2) && Count(t, 1) <= 1
  {
    var w := [m - 1, 1];
    assert Sum(w) == m by { assert SumTo(w, 1) == m - 1; }
    TableIsProportional(w, m, seed);
    var t := TableFor(w, m, seed);
    MulDistribute(m - 1, 1, m);
    MulCancelStrict(m - 2, Count(t, 0), m);
    TwoBackends(t, m);
  }

  /** Slots that avoid the only slot of backend 1 for a whole window. */
  lemma WindowAvoids(t: seq<int>) returns (slot: nat)
    requires WINDOW < |t| && Owned(t, 2) && Count(t, 1) <= 1
    ensures slot < |t| && forall e :: 0 <= e < WINDOW ==> t[Wrap(slot, e, |t|)] == 0
  {
    var m := |t|;
    if c :| 0 <= c < m && t[c] == 1 {
      CountUpdate(t, c, 0, 1);
      CountToZero(t[c := 0], m, 1);
      slot := if c + 1 < m then c + 1 else 0;
      forall e | 0 <= e < WINDOW ensures t[Wrap(slot, e, m)] == 0 {
        WrapWithinTurn(slot, e, m);
        assert t[c := 0][Wrap(slot, e, m)] != 1;
      }
    } else {
      slot := 0;
    }
  }

  /** Two live backends loaded k and 0 with k >= 2, slack 1/4 and no floor: backend 0 is at its cap. */
  lemma FullAndIdle(t: seq<int>, k: nat)
    requires Owned(t, 2) && 2 <= k
    ensures var r := Ring(t, [true, true], 0.25, 0); ValidRing(r) && Total([k, 0]) == k && !UnderCap(r, [k, 0], k)[0]
  {
    var up: seq<bool>, load: seq<nat> := [true, true], [k, 0];
    assert LiveTo(up, 1) == 1;
    assert Live(up) == 2;
    assert SumTo(load, 1) == k;
    assert Share(0.25, k + 1, 2) <= k as real;
  }

  /**
   The bound can fail although somebody idle is eligible: in every built table of more than 65 slots for the
   weights m-1 and 1 there is a key whose window lies on backend 0 alone, and its request goes there over the cap.
   */
  lemma WindowCanLackRoom(m: nat, seed: Word, k: nat) returns (slot: nat)
    requires IsPrime(m) && WINDOW < m <= MAX_TABLE_SIZE && 2 <= k
    ensures ValidConfig([m - 1, 1], m)
    ensures var r := Ring(TableFor([m - 1, 1], m, seed), [true, true], 0.25, 0);
      && ValidRing(r) && slot < m && Total([k, 0]) == k && UnderCap(r, [k, 0], k)[1]
      && !WindowHasRoom(r, [k, 0], slot) && Route(r, [k, 0], k, slot) == 0 && k + 1 > Bound(r, k + 1)
  {
    LightBackend(m, seed);
    hide TableFor;
    var t, up: seq<bool>, load: seq<nat> := TableFor([m - 1, 1], m, seed), [true, true], [k, 0];
    var r := Ring(t, up, 0.25, 0);
    slot := WindowAvoids(t);
    FullAndIdle(t, k);
    hide Share, Cap;
    var ok := UnderCap(r, load, k);
    assert NoneIn(t, ok, slot, 0, WINDOW);
    OverflowIsSticky(r, load, k, slot);
    assert t[Wrap(slot, 0, m)] == 0;
    DispatchWithinBound(r, load, 0);
    var i := SomeoneBelowCap(r, load);
  }

  lemma SomeoneBelowCap(r: Ring, load: seq<nat>) returns (i: nat)
    requires ValidRing(r) && |load| == |r.up|
    ensures i < |r.up| && UnderCap(r, load, Total(load))[i]
  {
    SomeoneIsUnderCap(r, load, Total(load));
    i :| 0 <= i < |r.up| && UnderCap(r, load, Total(load))[i];
  }

  lemma {:induction false} FirstExtend(t: seq<int>, ok: seq<bool>, slot: nat, d: nat, lim: nat)
    requires slot < |t| && Owned(t, |ok|) && d <= lim
    ensures First(t, ok, slot, d, lim + 1) ==
      if First(t, ok, slot, d, lim) != PICK_NONE then First(t, ok, slot, d, lim)
      else if ok[t[Wrap(slot, lim, |t|)]] then t[Wrap(slot, lim, |t|)] else PICK_NONE
    decreases lim - d
  {
    if d < lim { FirstExtend(t, ok, slot, d + 1, lim); }
  }

  // ---- the balancer ------------------------------------------------------------------------

  class BoundedLoadBalancer {
    const ring: ConsistentHashBalancer
    /** The caller's occupancy, read live. */
    const inflight: array<nat>
    const eps: real
    const minCap: nat
    /** The running sum of in-flight requests; `Note` is its only writer. */
    var total: nat

    ghost predicate Valid()
      reads this, ring, ring.base, ring.base.eligible, ring.weights, ring.lookup
    {
      ring.Valid() && ring.base.cap <= inflight.Length && eps > 0.0
    }

    ghost function AsRing(): (r: Ring)
      requires Valid()
      reads this, ring, ring.base, ring.base.eligible, ring.weights, ring.lookup
    {
      Ring(ring.lookup[..], ring.base.Up(), eps, minCap)
    }

    /** Some backend has weight and some backend is eligible. */
    ghost predicate Serving()
      requires Valid()
      reads this, ring, ring.base, ring.base.eligible, ring.weights, ring.lookup
    {
      Sum(ring.weights[..]) > 0 && 0 < ring.base.live
    }

    lemma ServingRing()
      requires Valid() && Serving()
      ensures ValidRing(AsRing()) && 0 < ring.m
    {
      TableIsProportional(ring.weights[..], ring.m, ring.seed);
    }

    constructor (capacity: nat, view: array<bool>, load: array<nat>, slack: real, initial: seq<nat>, tableSize: nat, salt: Word,
                 floor: nat)
      requires 1 <= capacity <= view.Length && |initial| == capacity <= load.Length && slack > 0.0
      requires tableSize <= MAX_TABLE_SIZE && IsPrime(tableSize) && capacity <= tableSize
      ensures Valid() && fresh(ring) && fresh(ring.base) && fresh(ring.weights) && fresh(ring.lookup)
      ensures inflight == load && eps == slack && minCap == floor && total == 0 && ring.base.cap == capacity && ring.base.eligible == view
      ensures ring.m == tableSize && ring.weights[..] == initial
    {
      ring := new ConsistentHashBalancer(capacity, view, initial, tableSize, salt);
      inflight, eps, minCap, total := load, slack, floor, 0;
    }

    /** Dispatch is note(i, +1), settle note(i, -1); clamped so the mean is never negative. */
    method Note(i: nat, delta: int)
      requires Valid() && i < ring.base.cap
      modifies this`total
      ensures Valid() && total == Clamped(old(total) + delta)
    {
      total := Clamped(total + delta);
    }

    /** The cap of this pick; 0 (or the floor) while nothing is in flight. */
    function CapNow(): (x: real)
      requires Valid() && 0 < ring.base.live
      reads this, ring, ring.base, ring.base.eligible, ring.weights, ring.lookup
    {
      Cap(eps, minCap, total, ring.base.live)
    }

    method Pick(keyHash: Word) returns (i: int)
      requires Valid()
      ensures 0 < ring.m
      ensures !Serving() ==> i == PICK_NONE
      ensures Serving() ==> ValidRing(AsRing()) && i == Route(AsRing(), inflight[..], total, keyHash % ring.m)
    {
      i := PickSlot(keyHash % ring.m);
    }

    method PickSlot(home: nat) returns (i: int)
      requires Valid() && home < ring.m
      ensures !Serving() ==> i == PICK_NONE
      ensures Serving() ==> ValidRing(AsRing()) && i == Route(AsRing(), inflight[..], total, home)
    {
      if ring.Guard() == 0 { return PICK_NONE; }
      ServingRing();
      var cap := CapNow();
      i := Search(AsRing(), ring.lookup, ring.base.eligible, inflight, total, cap, home);
    }
  }

  /** The search sees the arrays the ring stands for. */
  ghost predicate Sees(r: Ring, lookup: array<int>, eligible: array<bool>, inflight: array<nat>)
    reads lookup, eligible, inflight
  {
    && r.t == lookup[..] && |r.up| <= eligible.Length && r.up == eligible[..|r.up|] && |r.up| <= inflight.Length
  }

  /** Home, cap-aware probe, and the cap-blind sweep when nothing in the window is eligible. */
  method Search(ghost r: Ring, lookup: array<int>, eligible: array<bool>, inflight: array<nat>, total: nat, cap: real, home: nat)
    returns (i: int)
    requires ValidRing(r) && Sees(r, lookup, eligible, inflight) && home < lookup.Length
    requires cap == Cap(r.eps, r.minCap, total, Live(r.up))
    ensures i == Route(r, inflight[..], total, home)
  {
    ghost var ok := UnderCap(r, inflight[..], total);
    i := lookup[home];
    var first := -1;
    if eligible[i] {
      if total == 0 || inflight[i] as real < cap { return; }
      first := i;
    }
    var slot;
    i, first, slot := Probe(r, lookup, eligible, inflight, total, cap, home, first, ok);
    if i != PICK_NONE { return; }
    if first >= 0 { return first; }
    FirstIsNone(r.t, r.up, home, WINDOW);
    SweepFinds(r.t, r.up, home, WINDOW);
    i, slot := Walk(lookup, eligible, r.up, home, CH_PROBE_LIMIT, slot, lookup.Length);
  }

  /** The probe past the home slot; `first` remembers the first eligible backend. */
  method Probe(ghost r: Ring, lookup: array<int>, eligible: array<bool>, inflight: array<nat>, total: nat, cap: real, home: nat,
               start: int, ghost ok: seq<bool>)
    returns (i: int, first: int, slot: nat)
    requires ValidRing(r) && Sees(r, lookup, eligible, inflight) && home < lookup.Length
    requires cap == Cap(r.eps, r.minCap, total, Live(r.up)) && ok == UnderCap(r, inflight[..], total)
    requires start == First(r.t, r.up, home, 0, 1) && NoneIn(r.t, ok, home, 0, 1)
    ensures i == First(r.t, ok, home, 0, WINDOW)
    ensures i == PICK_NONE ==> slot == Wrap(home, CH_PROBE_LIMIT, |r.t|) && first == First(r.t, r.up, home, 0, WINDOW)
  {
    hide First, Cap;
    slot, first := home, start;
    for p := 0 to CH_PROBE_LIMIT
      invariant slot == Wrap(home, p, |r.t|) && first == First(r.t, r.up, home, 0, p + 1)
      invariant NoneIn(r.t, ok, home, 0, p + 1)
    {
      slot := slot + 1;
      if slot >= lookup.Length { slot := 0; }
      i := lookup[slot];
      FirstExtend(r.t, r.up, home, 0, p + 1);
      NoneExtend(r.t, ok, home, 0, p + 1, WINDOW);
      if eligible[i] {
        if total == 0 || inflight[i] as real < cap { return; }
        if first < 0 { first := i; }
      }
    }
    NoneMeansNone(r.t, ok, home, 0, WINDOW);
    i := PICK_NONE;
  }

  lemma FirstIsNone(t: seq<int>, ok: seq<bool>, slot: nat, lim: nat)
    requires slot < |t| && Owned(t, |ok|) && First(t, ok, slot, 0, lim) == PICK_NONE
    ensures NoneIn(t, ok, slot, 0, lim)
  {
    var e := FirstIsFirst(t, ok, slot, 0, lim);
  }
}
