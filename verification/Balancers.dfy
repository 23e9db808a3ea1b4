/**
 The live balancer slot: a strategy can be switched while requests are in flight. The new balancer starts from
 a copy of the recorded eligibility, and one that keeps an occupancy total is seeded from the counts in flight.
 */
module Balancers {
  import opened Seqs
  import opened Arith
  import opened Eligibility

  datatype Strategy =
    | RoundRobin | SmoothWrr | P2c | LeastConn | Sed | Nq | PeakEwma | ConsistentHash | BoundedLoad | WeightedRandom

  class BalancerSlot {
    const n: nat
    /** The recorded eligibility, shared with the fleet. */
    const up: array<bool>
    /** The caller's in-flight counts. */
    const inflight: array<nat>
    /** The current balancer's eligibility seam; each balancer owns its view. */
    var base: BalancerBase
    var name: Strategy
    var keyed: bool
    var latency: bool
    var hasNote: bool
    /** The current balancer's own occupancy total, if it keeps one. */
    var total: nat
    var switches: nat

    ghost predicate Valid()
      reads this, up, base, base.eligible
    {
      && n == up.Length == inflight.Length && 1 <= n
      && base.Valid() && base.cap == n && base.eligible != up && base.Up() == up[..]
      && keyed == (name.ConsistentHash? || name.BoundedLoad?) && latency == name.PeakEwma? && hasNote == name.BoundedLoad?
    }

    /** A note-taking balancer knows the true occupancy. */
    ghost predicate Synced()
      reads this, inflight
    {
      hasNote ==> total == Sum(inflight[..])
    }

    constructor (view: array<bool>, loads: array<nat>, s: Strategy)
      requires 1 <= view.Length == loads.Length
      ensures Valid() && Synced() && up == view && inflight == loads && name == s && fresh(base) && fresh(base.eligible)
    {
      n, up, inflight, switches, name, total := view.Length, view, loads, 0, s, 0;
      keyed, latency, hasNote := false, false, false;
      var el := new bool[view.Length](i requires 0 <= i < view.Length reads view => view[i]);
      base := new BalancerBase(view.Length, el);
      new;
      assert el[..] == view[..];
      Seed(s);
    }

    /** Put the flags and the occupancy of a fresh balancer in place. */
    method Seed(s: Strategy)
      requires n == inflight.Length
      modifies this`name, this`keyed, this`latency, this`hasNote, this`total
      ensures name == s && keyed == (s.ConsistentHash? || s.BoundedLoad?) && latency == s.PeakEwma? && hasNote == s.BoundedLoad? && Synced()
    {
      total := 0;
      if s.BoundedLoad? {
        for i := 0 to inflight.Length
          invariant total == SumTo(inflight[..], i)
        {
          SumToNonNegative(inflight[..], i);
          if inflight[i] > 0 { total := Clamped(total + inflight[i]); }
        }
        assert inflight[..] == inflight[..inflight.Length];
      }
      name, keyed, latency, hasNote := s, s.ConsistentHash? || s.BoundedLoad?, s.PeakEwma?, s.BoundedLoad?;
    }

    /** Switch strategy: same eligibility, same counts in flight, nothing of the old balancer survives. */
    method Set(s: Strategy)
      requires Valid()
      modifies this
      ensures Valid() && Synced() && name == s && switches == old(switches) + 1
      ensures fresh(base) && fresh(base.eligible) && base.live == old(base.live)
    {
      var view := up;
      var el := new bool[view.Length](i requires 0 <= i < view.Length reads view => view[i]);
      assert el[..n] == up[..];
      base := new BalancerBase(n, el);
      Seed(s);
      switches := switches + 1;
    }

    /** The only eligibility writer: record, then apply to the current balancer. */
    method SetEligible(i: nat, v: bool)
      requires Valid() && i < n
      modifies up, base, base.eligible
      ensures Valid() && up[..] == old(up[..])[i := v] && base.Up() == old(base.Up())[i := v]
    {
      up[i] := v;
      base.SetEligible(i, v);
    }
  }
}
