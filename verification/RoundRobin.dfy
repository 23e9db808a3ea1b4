/** The baseline strategy: a wrapping cursor over the live endpoints. */
module RoundRobin {
  import opened Eligibility
  import opened CircularScan

  /** Every live endpoint bids the same, so the first minimum from the cursor is the next live endpoint. */
  function LiveBids(up: seq<bool>): (bids: seq<Bid>)
    ensures |bids| == |up|
  {
    seq(|up|, i requires 0 <= i < |up| => if up[i] then Bid(0.0) else Out)
  }

  lemma LiveIsMin(up: seq<bool>, i: nat)
    requires i < |up|
    ensures IsMin(LiveBids(up), i) <==> up[i]
  {
  }

  /** Any `live` consecutive picks over a fixed pool visit each live endpoint exactly once. */
  lemma RoundIsFair(up: seq<bool>, cur: nat, start: nat)
    requires cur <= |up| && 0 < Ties(LiveBids(up))
    ensures Ties(LiveBids(up)) == Live(up)
    ensures forall s, t :: start <= s < t < start + Live(up) ==> PickAt(LiveBids(up), cur, s) != PickAt(LiveBids(up), cur, t)
    ensures forall i :: 0 <= i < |up| && up[i] ==> exists t :: start <= t < start + Live(up) && PickAt(LiveBids(up), cur, t) == i
  {
    RankIsLive(up, |up|);
    RotationIsFair(LiveBids(up), cur, start);
    forall i | 0 <= i < |up| && up[i]
      ensures IsMin(LiveBids(up), i)
    {
      LiveIsMin(up, i);
    }
  }

  lemma {:induction false} RankIsLive(up: seq<bool>, x: nat)
    requires x <= |up|
    ensures Rank(LiveBids(up), x) == LiveTo(up, x)
  {
    if x > 0 {
      RankIsLive(up, x - 1);
      LiveIsMin(up, x - 1);
    }
  }

  class RoundRobinBalancer {
    const base: BalancerBase
    /** Last index returned; -1 so the first scan starts at 0. */
    var cursor: int

    ghost predicate Valid()
      reads this, base, base.eligible
    {
      base.Valid() && -1 <= cursor < base.cap
    }

    constructor (capacity: nat, view: array<bool>)
      requires 1 <= capacity <= view.Length
      ensures Valid() && fresh(base) && base.eligible == view && base.cap == capacity && cursor == -1
    {
      base := new BalancerBase(capacity, view);
      cursor := -1;
    }

    method Pick() returns (pick: int)
      requires Valid()
      modifies this
      ensures Valid()
      ensures pick == CircularScan.Pick(LiveBids(base.Up()), old(cursor) + 1)
      ensures cursor == if pick < 0 then old(cursor) else pick
    {
      ghost var up, from, n := base.Up(), cursor + 1, base.cap;
      ghost var bids := LiveBids(up);
      PickIsFirstMin(bids, from);
      LiveToPositive(up, n);
      if base.live == 0 { return PICK_NONE; }
      var i := cursor;
      for steps := 0 to base.cap
        invariant -1 <= i < n && (i + 1 == from + steps || (steps > 0 && i + 1 == from + steps - n))
        invariant forall k :: 0 <= k < n && Distance(from, k, n) < steps ==> !up[k]
      {
        i := i + 1;
        if i >= base.cap { i := 0; }
        if base.eligible[i] {
          LiveIsMin(up, i);
          FirstMinUnique(bids, from, i, CircularScan.Pick(bids, from));
          cursor := i;
          return i;
        }
      }
      assert false;
      return PICK_NONE;
    }
  }
}
