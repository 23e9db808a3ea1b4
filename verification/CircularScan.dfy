/**
 One notion behind RoundRobin, LeastConn, SED and NQ: the first minimum in circular order from a cursor.
 The split scan [cursor, n) then [0, cursor) computes it, and with standing bids any k consecutive picks
 among k tied minima visit each of them exactly once.
 */
module CircularScan {
  import opened Arith
  import opened Eligibility

  /** What an endpoint offers a scan: nothing (down, or weight 0), or a score to minimise. */
  datatype Bid = Out | Bid(score: real)

  // ---- the split scan ----------------------------------------------------------------------

  predicate Better(bids: seq<Bid>, i: nat, best: int)
    requires i < |bids| && -1 <= best < |bids| && (best >= 0 ==> bids[best].Bid?)
  {
    bids[i].Bid? && (best < 0 || bids[i].score < bids[best].score)
  }

  /** One ascending loop over [i, hi), keeping the first strictly better bid. */
  function Scan(bids: seq<Bid>, i: nat, hi: nat, best: int): (b: int)
    requires i <= hi <= |bids| && -1 <= best < |bids| && (best >= 0 ==> bids[best].Bid?)
    ensures -1 <= b < |bids| && (b >= 0 ==> bids[b].Bid?)
    decreases hi - i
  {
    if i == hi then best else Scan(bids, i + 1, hi, if Better(bids, i, best) then i else best)
  }

  /** The two loops of a pick. */
  function Pick(bids: seq<Bid>, cur: nat): (b: int)
    requires cur <= |bids|
    ensures -1 <= b < |bids| && (b >= 0 ==> bids[b].Bid?)
  {
    Scan(bids, 0, cur, Scan(bids, cur, |bids|, -1))
  }

  // ---- what it means -----------------------------------------------------------------------

  ghost predicate IsMin(bids: seq<Bid>, b: int) {
    && 0 <= b < |bids| && bids[b].Bid?
    && forall i :: 0 <= i < |bids| && bids[i].Bid? ==> bids[b].score <= bids[i].score
  }

  /** Steps from the cursor to i going up and around. */
  function Distance(cur: nat, i: nat, n: nat): (d: nat)
    requires i < n && cur <= n
  {
    if i >= cur then i - cur else i + n - cur
  }

  /** b is the first minimum met from the cursor, or none when nobody bids. */
  ghost predicate IsFirstMin(bids: seq<Bid>, cur: nat, b: int)
    requires cur <= |bids|
  {
    if b < 0 then b == PICK_NONE && forall i :: 0 <= i < |bids| ==> bids[i].Out?
    else
      && IsMin(bids, b)
      && forall i :: 0 <= i < |bids| && IsMin(bids, i) ==> Distance(cur, b, |bids|) <= Distance(cur, i, |bids|)
  }

  /** After a loop over [lo, hi) the winner is the first best of the seed and the range. */
  lemma {:induction false} ScanIsFirstBest(bids: seq<Bid>, lo: nat, hi: nat, best: int)
    requires lo <= hi <= |bids| && -1 <= best < |bids| && (best >= 0 ==> bids[best].Bid?)
    ensures var b := Scan(bids, lo, hi, best);
      && (b == best || lo <= b < hi)
      && (b < 0 <==> best < 0 && forall i :: lo <= i < hi ==> bids[i].Out?)
      && (b >= 0 && best >= 0 ==> bids[b].score <= bids[best].score && (b != best ==> bids[b].score < bids[best].score))
      && (b >= 0 ==> forall i :: lo <= i < hi && bids[i].Bid? ==>
            bids[b].score <= bids[i].score && (i < b && b != best ==> bids[b].score < bids[i].score))
    decreases hi - lo
  {
    if lo < hi { ScanIsFirstBest(bids, lo + 1, hi, if Better(bids, lo, best) then lo else best); }
  }

  /** The split scan returns the first minimum in circular order from the cursor. */
  lemma PickIsFirstMin(bids: seq<Bid>, cur: nat)
    requires cur <= |bids|
    ensures IsFirstMin(bids, cur, Pick(bids, cur))
  {
    ScanIsFirstBest(bids, cur, |bids|, -1);
    ScanIsFirstBest(bids, 0, cur, Scan(bids, cur, |bids|, -1));
  }

  /** A cursor past the end starts over. */
  lemma CursorWraps(bids: seq<Bid>)
    ensures Pick(bids, |bids|) == Pick(bids, 0)
  {
  }

  lemma FirstMinUnique(bids: seq<Bid>, cur: nat, a: int, b: int)
    requires cur <= |bids| && IsFirstMin(bids, cur, a) && IsFirstMin(bids, cur, b)
    ensures a == b
  {
  }

  // ---- rotation ----------------------------------------------------------------------------

  /** How many minima lie below index x. */
  ghost function Rank(bids: seq<Bid>, x: nat): (r: nat)
    requires x <= |bids|
  {
    if x == 0 then 0 else Rank(bids, x - 1) + (if IsMin(bids, x - 1) then 1 else 0)
  }

  /** k, the number of tied minima. */
  ghost function Ties(bids: seq<Bid>): (k: nat) {
    Rank(bids, |bids|)
  }

  lemma {:induction false} RankMonotone(bids: seq<Bid>, x: nat, y: nat)
    requires x <= y <= |bids|
    ensures Rank(bids, x) <= Rank(bids, y)
    ensures Rank(bids, x) == Rank(bids, y) <==> forall i :: x <= i < y ==> !IsMin(bids, i)
    decreases y
  {
    if x < y { RankMonotone(bids, x, y - 1); }
  }

  lemma RankInjective(bids: seq<Bid>, i: nat, j: nat)
    requires IsMin(bids, i) && IsMin(bids, j) && Rank(bids, i) == Rank(bids, j)
    ensures i == j
  {
    if i < j { RankMonotone(bids, i, j); }
    if j < i { RankMonotone(bids, j, i); }
  }

  /** From a cursor with r minima below it the pick is minimum number r, or number 0 once r has reached k. */
  lemma PickRank(bids: seq<Bid>, cur: nat)
    requires cur <= |bids| && 0 < Ties(bids)
    ensures var p := Pick(bids, cur);
      0 <= p && IsMin(bids, p) && Rank(bids, p) == (if Rank(bids, cur) == Ties(bids) then 0 else Rank(bids, cur))
  {
    var n, p := |bids|, Pick(bids, cur);
    PickIsFirstMin(bids, cur);
    RankMonotone(bids, 0, n);
    RankMonotone(bids, cur, n);
    if Rank(bids, cur) == Ties(bids) {
      RankMonotone(bids, 0, p);
    } else {
      RankMonotone(bids, cur, p);
    }
  }

  /** The cursor before pick number t: it moves just past each pick. */
  ghost function CursorAt(bids: seq<Bid>, cur: nat, t: nat): (c: nat)
    requires cur <= |bids|
    ensures c <= |bids|
  {
    if t == 0 then cur else Pick(bids, CursorAt(bids, cur, t - 1)) + 1
  }

  ghost function PickAt(bids: seq<Bid>, cur: nat, t: nat): (b: int)
    requires cur <= |bids|
  {
    Pick(bids, CursorAt(bids, cur, t))
  }

  /** Standing bids are served round-robin: pick t is minimum number (r0 + t) mod k. */
  lemma {:induction false} PickAtRank(bids: seq<Bid>, cur: nat, t: nat)
    requires cur <= |bids| && 0 < Ties(bids)
    ensures var p := PickAt(bids, cur, t);
      && 0 <= p && IsMin(bids, p)
      && Rank(bids, p) == (Rank(bids, cur) + t) % Ties(bids)
      && Rank(bids, p + 1) == Rank(bids, p) + 1
  {
    var k, r := Ties(bids), Rank(bids, cur);
    RankMonotone(bids, cur, |bids|);
    PickRank(bids, CursorAt(bids, cur, t));
    if t == 0 {
      Residue(r, k);
    } else {
      PickAtRank(bids, cur, t - 1);
      Residue(Rank(bids, CursorAt(bids, cur, t)), k);
      NextResidue(r + t - 1, k);
    }
  }

  lemma Residue(r: nat, k: nat)
    requires 0 < k && r <= k
    ensures r % k == if r == k then 0 else r
  {
  }

  lemma NextResidue(x: nat, k: nat)
    requires 0 < k
    ensures (x + 1) % k == if x % k + 1 == k then 0 else x % k + 1
  {
    var q := x / k;
    assert x == q * k + x % k;
    if x % k + 1 == k {
      assert (q + 1) * k == q * k + k;
      ModUnique(x + 1, k, q + 1, 0);
    } else {
      ModUnique(x + 1, k, q, x % k + 1);
    }
  }

  lemma ResiduesDiffer(x: nat, i: nat, j: nat, k: nat)
    requires i < j < i + k
    ensures (x + i) % k != (x + j) % k
  {
    if (x + i) % k == (x + j) % k {
      var r, p, q := (x + i) % k, (x + i) / k, (x + j) / k;
      assert x + i == p * k + r && x + j == q * k + r;
      assert (q - p) * k == j - i by { MulDistribute(q, p, k); }
      if q != p { StepAtLeast(q - p, k); }
    }
  }

  /** Some step of any window of k hits a given residue. */
  lemma ResidueHit(x: nat, r: nat, k: nat) returns (j: nat)
    requires r < k
    ensures j < k && (x + j) % k == r
  {
    var s, q := x % k, x / k;
    assert x == q * k + s;
    if r >= s {
      j := r - s;
      ModUnique(x + j, k, q, r);
    } else {
      j := r + k - s;
      assert (q + 1) * k == q * k + k;
      ModUnique(x + j, k, q + 1, r);
    }
  }

  /** Fair rotation: any k consecutive picks among k tied minima are a permutation of the tied set. */
  lemma RotationIsFair(bids: seq<Bid>, cur: nat, start: nat)
    requires cur <= |bids| && 0 < Ties(bids)
    ensures forall t :: start <= t < start + Ties(bids) ==> IsMin(bids, PickAt(bids, cur, t))
    ensures forall s, t :: start <= s < t < start + Ties(bids) ==> PickAt(bids, cur, s) != PickAt(bids, cur, t)
    ensures forall i :: IsMin(bids, i) ==> exists t :: start <= t < start + Ties(bids) && PickAt(bids, cur, t) == i
  {
    var k, r := Ties(bids), Rank(bids, cur);
    forall t | start <= t < start + k
      ensures IsMin(bids, PickAt(bids, cur, t))
    {
      PickAtRank(bids, cur, t);
    }
    forall s, t | start <= s < t < start + k
      ensures PickAt(bids, cur, s) != PickAt(bids, cur, t)
    {
      PickAtRank(bids, cur, s);
      PickAtRank(bids, cur, t);
      ResiduesDiffer(r, s, t, k);
    }
    forall i | IsMin(bids, i)
      ensures exists t :: start <= t < start + k && PickAt(bids, cur, t) == i
    {
      RankMonotone(bids, i + 1, |bids|);
      var j := ResidueHit(r + start, Rank(bids, i), k);
      PickAtRank(bids, cur, start + j);
      RankInjective(bids, i, PickAt(bids, cur, start + j));
    }
  }

  /** Order-isomorphic bids are picked alike. */
  lemma {:induction false} SameOrderSameScan(a: seq<Bid>, b: seq<Bid>, lo: nat, hi: nat, best: int)
    requires |a| == |b| && lo <= hi <= |a| && -1 <= best < |a|
    requires forall i :: 0 <= i < |a| ==> a[i].Bid? == b[i].Bid?
    requires forall i, j :: 0 <= i < |a| && 0 <= j < |a| && a[i].Bid? && a[j].Bid? ==>
      (a[i].score < a[j].score <==> b[i].score < b[j].score)
    requires best >= 0 ==> a[best].Bid?
    ensures Scan(a, lo, hi, best) == Scan(b, lo, hi, best)
    decreases hi - lo
  {
    if lo < hi { SameOrderSameScan(a, b, lo + 1, hi, if Better(a, lo, best) then lo else best); }
  }
}
