/** The eligibility seam every strategy shares: a byte per endpoint and an O(1) live count. */
module Eligibility {

  /** Fail-closed sentinel: no endpoint. */
  const PICK_NONE := -1

  /** How many of up[0], ..., up[n-1] are up. */
  function LiveTo(up: seq<bool>, n: nat): (r: nat)
    requires n <= |up|
    ensures r <= n
  {
    if n == 0 then 0 else LiveTo(up, n - 1) + (if up[n - 1] then 1 else 0)
  }

  function Live(up: seq<bool>): (r: nat)
    ensures r <= |up|
  {
    LiveTo(up, |up|)
  }

  lemma {:induction false} LiveToUpdate(up: seq<bool>, n: nat, i: nat, v: bool)
    requires n <= |up| && i < |up|
    ensures LiveTo(up[i := v], n) ==
      LiveTo(up, n) + (if i < n && v then 1 else 0) - (if i < n && up[i] then 1 else 0)
  {
    if n > 0 { LiveToUpdate(up, n - 1, i, v); }
  }

  lemma {:induction false} LiveToPositive(up: seq<bool>, n: nat)
    requires n <= |up|
    ensures LiveTo(up, n) > 0 <==> exists i :: 0 <= i < n && up[i]
  {
    if n > 0 {
      LiveToPositive(up, n - 1);
      if up[n - 1] { assert 0 <= n - 1 < n && up[n - 1]; }
    }
  }

  /** The weight an endpoint competes with: its own while eligible, else 0. */
  function EligibleWeights(up: seq<bool>, w: seq<nat>): (ew: seq<nat>)
    requires |up| <= |w|
    ensures |ew| == |up|
  {
    seq(|up|, i requires 0 <= i < |up| => if up[i] then w[i] else 0)
  }

  lemma EligibleWeightsFlip(up: seq<bool>, w: seq<nat>, i: nat, v: bool)
    requires |up| <= |w| && i < |up|
    ensures EligibleWeights(up[i := v], w) == EligibleWeights(up, w)[i := if v then w[i] else 0]
  {
  }

  class BalancerBase {
    const cap: nat
    const eligible: array<bool>
    var live: nat

    ghost predicate Valid()
      reads this, eligible
    {
      && 1 <= cap <= eligible.Length
      && live == Live(Up())
    }

    /** The eligibility of endpoints 0, ..., cap-1. */
    ghost function Up(): (up: seq<bool>)
      requires cap <= eligible.Length
      reads eligible
      ensures |up| == cap
    {
      eligible[..cap]
    }

    constructor (capacity: nat, view: array<bool>)
      requires 1 <= capacity <= view.Length
      ensures Valid() && cap == capacity && eligible == view
    {
      cap := capacity;
      eligible := view;
      var count := 0;
      for i := 0 to capacity
        invariant count == LiveTo(view[..capacity], i)
      {
        if view[i] { count := count + 1; }
      }
      live := count;
    }

    function IsEligible(i: int): (r: bool)
      requires Valid()
      reads this, eligible
      ensures r <==> 0 <= i < cap && Up()[i]
    {
      0 <= i < cap && eligible[i]
    }

    /** The only writer of the view: flips a byte and keeps the live count in step. */
    method SetEligible(i: nat, up: bool)
      requires Valid() && i < cap
      modifies this, eligible
      ensures Valid() && Up() == old(Up())[i := up]
      ensures eligible[cap..] == old(eligible[cap..])
    {
      ghost var was := Up();
      LiveToUpdate(was, cap, i, up);
      if eligible[i] != up {
        LiveToPositive(was, cap);
        eligible[i] := up;
        live := if up then live + 1 else live - 1;
      }
      assert Up() == was[i := up];
    }
  }
}
