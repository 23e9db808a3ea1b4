/**
 Failover choice: one weighted pick among the endpoints not tried yet, aimed by a hash of the routing key and
 the attempt number. It fails exactly when nothing suitable is left, and over all 32-bit keys every candidate
 is chosen in proportion to its weight, to within one key.
 */
module Failover {
  import opened Seqs
  import opened FiniteSets
  import opened Words
  import opened Buckets
  import opened Eligibility

  /** MurmurHash3's 32-bit finaliser. */
  function Fmix32(k: Word): (h: Word) {
    var a := Xor(k, Shr(k, 16));
    var b := Imul(a, 0x85ebca6b);
    var c := Xor(b, Shr(b, 13));
    var d := Imul(c, 0xc2b2ae35);
    XorShrInRange(d, 16);
    Xor(d, Shr(d, 16))
  }

  /** The target word: the key (or the unkeyed sequence number) mixed with the attempt. */
  function Target(key: Word, attempt: nat): (h: Word) {
    XorInRange(key, Imul(attempt, 0x9e3779b9));
    Fmix32(Xor(key, Imul(attempt, 0x9e3779b9)))
  }

  lemma FmixInjective(x: Word, y: Word)
    requires Fmix32(x) == Fmix32(y)
    ensures x == y
  {
    var a, a' := Xor(x, Shr(x, 16)), Xor(y, Shr(y, 16));
    var b, b' := Imul(a, 0x85ebca6b), Imul(a', 0x85ebca6b);
    var c, c' := Xor(b, Shr(b, 13)), Xor(b', Shr(b', 13));
    var d, d' := Imul(c, 0xc2b2ae35), Imul(c', 0xc2b2ae35);
    XorShrInRange(x, 16);
    XorShrInRange(y, 16);
    XorShrInRange(b, 13);
    XorShrInRange(b', 13);
    XorShrInjective(d, d', 16);
    ImulInjective(c, c', 0xc2b2ae35);
    XorShrInjective(b, b', 13);
    ImulInjective(a, a', 0x85ebca6b);
    XorShrInjective(x, y, 16);
  }

  /** For a fixed attempt, distinct keys aim at distinct targets. */
  lemma TargetInjective(x: Word, y: Word, attempt: nat)
    requires Target(x, attempt) == Target(y, attempt)
    ensures x == y
  {
    var c := Imul(attempt, 0x9e3779b9);
    XorInRange(x, c);
    XorInRange(y, c);
    FmixInjective(Xor(x, c), Xor(y, c));
    XorInjective(x, y, c);
  }

  /** Eligible, untried, and of positive weight: what an endpoint weighs in the choice. */
  function Spill(up: seq<bool>, weights: seq<nat>, held: seq<int>): (cw: seq<nat>)
    requires |up| == |weights|
    ensures |cw| == |up|
  {
    seq(|up|, i requires 0 <= i < |up| => if up[i] && i !in held then weights[i] else 0)
  }

  /** Two passes: sum the candidates' weights, then walk the same order to the target. */
  method ChooseUntried(up: seq<bool>, weights: seq<nat>, held: seq<int>, key: Word, attempt: nat) returns (i: int)
    requires |up| == |weights|
    ensures var cw := Spill(up, weights, held);
      if i < 0 then i == PICK_NONE && forall k :: 0 <= k < |cw| ==> cw[k] == 0
      else Hits(cw, Target(key, attempt), i) && up[i] && i !in held && weights[i] > 0
  {
    ghost var cw := Spill(up, weights, held);
    SumToNonNegative(cw, |cw|);
    var W := 0;
    for k := 0 to |up|
      invariant W == SumTo(cw, k)
    {
      if up[k] && k !in held { W := W + weights[k]; }
    }
    if W <= 0 { return PICK_NONE; }
    var h := Target(key, attempt);
    ScaledBelow(h, W);
    i := WalkTo(up, weights, held, h * W, h);
  }

  /** The first candidate whose running sum exceeds the target, compared exactly at 2^-32. */
  method WalkTo(up: seq<bool>, weights: seq<nat>, held: seq<int>, target: nat, ghost h: Word) returns (i: int)
    requires |up| == |weights| && target == h * Sum(Spill(up, weights, held)) < Sum(Spill(up, weights, held)) * 0x1_0000_0000
    ensures Hits(Spill(up, weights, held), h, i)
  {
    ghost var cw := Spill(up, weights, held);
    var run := 0;
    i := PICK_NONE;
    for k := 0 to |up|
      invariant run == SumTo(cw, k) && run * 0x1_0000_0000 <= target
    {
      if up[k] && k !in held && weights[k] > 0 {
        run := run + weights[k];
        i := k;
        if target < run * 0x1_0000_0000 { return k; }
      }
    }
    assert false;
  }

  // ---- proportionality over keys -----------------------------------------------------------

  ghost predicate SpillsOnto(cw: seq<nat>, attempt: nat, i: nat, k: nat) {
    k < TWO32 && Hits(cw, Target(k, attempt), i)
  }

  /** The keys whose attempt spills onto i. */
  ghost function KeysSpilling(cw: seq<nat>, attempt: nat, i: nat): (s: set<int>) {
    set k: nat | k in Below(TWO32) && SpillsOnto(cw, attempt, i, k)
  }

  lemma TargetAsFunction(attempt: nat) returns (f: nat -> nat)
    ensures Injective(TWO32, f) && forall k: nat :: k < TWO32 ==> f(k) == Target(k, attempt)
  {
    f := (k: nat) => if k < TWO32 then Target(k, attempt) else k;
    forall x: nat, y: nat | x < TWO32 && y < TWO32 && f(x) == f(y)
      ensures x == y
    {
      TargetInjective(x, y, attempt);
    }
  }

  /** As many keys spill onto i as there are targets that hit it. */
  lemma SpillCount(cw: seq<nat>, attempt: nat, i: nat)
    ensures |KeysSpilling(cw, attempt, i)| == |Hitters(cw, i)|
  {
    hide Target;
    var f := TargetAsFunction(attempt);
    forall k: nat | k < TWO32 ensures f(k) in Hitters(cw, i) <==> SpillsOnto(cw, attempt, i, k) {
    }
    assert KeysSpilling(cw, attempt, i) == Preimage(TWO32, f, Hitters(cw, i));
    PreimageSize(TWO32, f, Hitters(cw, i));
  }

  /** Over all 2^32 keys, candidate i is the failover target of cw[i] / W of them, to within one key. */
  lemma SpillIsProportional(cw: seq<nat>, attempt: nat, i: nat)
    requires i < |cw| && cw[i] > 0
    ensures NearShare(|KeysSpilling(cw, attempt, i)|, cw[i], Sum(cw))
  {
    SpillCount(cw, attempt, i);
    HitCount(cw, i);
  }
}
