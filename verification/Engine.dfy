/**
 Engine A: a preallocated request table driven by arrivals and settlements, over a balancer that can be
 switched and a fleet whose breakers take workers out of the rotation meanwhile.
 */
module Engine {
  import opened Seqs
  import opened Arith
  import opened Eligibility
  import opened Balancers
  import opened Fleet
  import opened RequestTable

  /** The settle codes the engine and the breakers tell apart. */
  datatype Code = Success | JobFailed | WorkerDown | NotReady | QueueFull | SetDisposed

  function AnswerOf(code: Code): (a: Answer) {
    if code.Success? then Done else if code.SetDisposed? then Disposed else FailedAttempt
  }

  function VerdictOf(code: Code): (v: Fleet.Verdict) {
    if code.Success? then Ok else if code.JobFailed? then Failure else NoVerdict
  }

  // ---- what the breakers hear --------------------------------------------------------------

  /** One post answered: worker i's answer, and the worker the request is posted on again in the same event, or -1. */
  datatype Answered = Answered(i: nat, code: Code, now: real, next: int)

  /** The settle codes that say nothing about the worker's transform. */
  predicate Placement(code: Code) {
    code == WorkerDown || code == NotReady || code == QueueFull || code == SetDisposed
  }

  /** The answering worker's breaker: what each code does to each state. */
  ghost predicate Hears(w: Worker, code: Code, now: real, limit: nat, after: Worker) {
    && (Placement(code) ==> after.breaker == w.breaker && after.fails == w.fails && after.openedAt == w.openedAt)
    && (w.breaker.Open? ==> after.breaker.Open? && after.openedAt == w.openedAt)
    && (code == Success && !w.breaker.Open? ==> after.breaker.Closed? && after.fails == 0)
    && (code == JobFailed && w.breaker.HalfOpen? ==> after.breaker.Open? && after.openedAt == now)
    && (code == JobFailed && w.breaker.Closed? ==>
          && after.fails == w.fails + 1
          && if after.fails < limit then after.breaker.Closed? else after.breaker.Open? && after.openedAt == now)
  }

  /** All workers: only the answering one's breaker moves; its probe is back, and only a half-open worker posted on takes one. */
  ghost predicate AllHear(before: seq<Worker>, e: Answered, limit: nat, after: seq<Worker>) {
    && |after| == |before| && e.i < |before| && Hears(before[e.i], e.code, e.now, limit, after[e.i])
    && (forall j :: 0 <= j < |before| && j != e.i ==>
          after[j].breaker == before[j].breaker && after[j].fails == before[j].fails && after[j].openedAt == before[j].openedAt)
    && (forall j :: 0 <= j < |before| ==>
          (after[j].probeOut <==> (j == e.next && after[j].breaker.HalfOpen?) || (j != e.i && before[j].probeOut)))
  }

  /** Any sequence of settles, of any requests on any workers. */
  ghost predicate SettleRun(ws: seq<seq<Worker>>, es: seq<Answered>, limit: nat) {
    && 1 <= limit && |ws| == |es| + 1 && |ws[0]| > 0
    && forall k :: 0 <= k < |es| ==> AllHear(ws[k], es[k], limit, ws[k + 1])
  }

  /** Worker i's failures in a row after the first n answers, counting from `start`: only its own successes end a row. */
  function FailedInARow(es: seq<Answered>, i: nat, n: nat, start: nat): (k: nat)
    requires n <= |es|
  {
    if n == 0 then start else AfterAnswer(es[n - 1], i, FailedInARow(es, i, n - 1, start))
  }

  function AfterAnswer(e: Answered, i: nat, row: nat): (k: nat) {
    if e.i != i || Placement(e.code) then row else if e.code == Success then 0 else row + 1
  }

  lemma RowStep(before: seq<Worker>, e: Answered, limit: nat, after: seq<Worker>, i: nat)
    requires AllHear(before, e, limit, after) && i < |before| && !before[i].breaker.HalfOpen?
    ensures |after| == |before| && !after[i].breaker.HalfOpen?
    ensures var row := AfterAnswer(e, i, before[i].fails);
      if before[i].breaker.Open? then after[i].breaker.Open?
      else
        && (after[i].breaker.Closed? ==> after[i].fails == row)
        && (before[i].fails < limit ==> (after[i].breaker.Closed? <==> row < limit))
  {
  }

  ghost predicate RowsBelow(es: seq<Answered>, i: nat, n: nat, start: nat, limit: nat)
    requires n <= |es|
  {
    forall m :: 0 <= m <= n ==> FailedInARow(es, i, m, start) < limit
  }

  /** Over any run of settles a closed breaker stays closed exactly as long as no row of failures has reached the limit. */
  lemma {:induction false} OpensOnFailures(ws: seq<seq<Worker>>, es: seq<Answered>, limit: nat, i: nat, n: nat)
    requires SettleRun(ws, es, limit) && n <= |es| && i < |ws[0]| && ws[0][i].breaker.Closed? && ws[0][i].fails < limit
    ensures |ws[n]| == |ws[0]| && !ws[n][i].breaker.HalfOpen?
    ensures ws[n][i].breaker.Closed? <==> RowsBelow(es, i, n, ws[0][i].fails, limit)
    ensures ws[n][i].breaker.Closed? ==> ws[n][i].fails == FailedInARow(es, i, n, ws[0][i].fails)
  {
    var start := ws[0][i].fails;
    if n > 0 {
      OpensOnFailures(ws, es, limit, i, n - 1);
      RowStep(ws[n - 1], es[n - 1], limit, ws[n], i);
      hide AllHear, AfterAnswer;
      if RowsBelow(es, i, n - 1, start, limit) && FailedInARow(es, i, n, start) < limit {
        assert RowsBelow(es, i, n, start, limit);
      }
    }
  }

  /** How many of the answers m, ..., n-1 are failed jobs of worker i. */
  function Failures(es: seq<Answered>, i: nat, m: nat, n: nat): (k: nat)
    requires m <= n <= |es|
  {
    if n == m then 0 else Failures(es, i, m, n - 1) + (if es[n - 1].i == i && es[n - 1].code == JobFailed then 1 else 0)
  }

  /** So a worker that has lately failed `limit` jobs and served none has an open breaker. */
  lemma LastFailuresOpen(ws: seq<seq<Worker>>, es: seq<Answered>, limit: nat, i: nat, m: nat, n: nat)
    requires SettleRun(ws, es, limit) && i < |ws[0]| && ws[0][i].breaker.Closed? && ws[0][i].fails < limit
    requires m <= n <= |es| && Failures(es, i, m, n) >= limit
    requires forall k :: m <= k < n && es[k].i == i ==> es[k].code != Success
    ensures |ws[n]| == |ws[0]| && ws[n][i].breaker.Open?
  {
    RowGrows(es, i, m, n, ws[0][i].fails);
    OpensOnFailures(ws, es, limit, i, n);
  }

  lemma {:induction false} RowGrows(es: seq<Answered>, i: nat, m: nat, n: nat, start: nat)
    requires m <= n <= |es| && forall k :: m <= k < n && es[k].i == i ==> es[k].code != Success
    ensures FailedInARow(es, i, n, start) >= Failures(es, i, m, n)
  {
    if m < n { RowGrows(es, i, m, n - 1, start); }
  }

  /** A stretch of settles in which worker i answers nothing, or only placement codes, leaves its breaker as it was. */
  lemma {:induction false} PlacementKeeps(ws: seq<seq<Worker>>, es: seq<Answered>, limit: nat, i: nat, m: nat, n: nat)
    requires SettleRun(ws, es, limit) && m <= n <= |es| && i < |ws[m]|
    requires forall k :: m <= k < n && es[k].i == i ==> Placement(es[k].code)
    ensures |ws[n]| == |ws[m]| && ws[n][i].breaker == ws[m][i].breaker && ws[n][i].fails == ws[m][i].fails
  {
    if m < n {
      PlacementKeeps(ws, es, limit, i, m, n - 1);
      assert AllHear(ws[n - 1], es[n - 1], limit, ws[n]);
    }
  }

  /** Worker i, if half-open, takes its probe. */
  function ProbeTaken(ws: seq<Worker>, i: int): (after: seq<Worker>)
    ensures |after| == |ws|
  {
    if 0 <= i < |ws| && ws[i].breaker.HalfOpen? then ws[i := ws[i].(probeOut := true)] else ws
  }

  /** Reporting worker i's verdict and then taking a probe at `next` is what `AllHear` says. */
  lemma ReportedAndProbed(before: seq<Worker>, e: Answered, limit: nat, after: seq<Worker>)
    requires e.i < |before|
    requires before[e.i].breaker.Closed? ==> before[e.i].fails < limit
    requires before[e.i].probeOut ==> before[e.i].breaker.HalfOpen?
    requires after == ProbeTaken(before[e.i := Resulted(before[e.i], VerdictOf(e.code), e.now, limit)], e.next)
    ensures AllHear(before, e, limit, after)
  {
  }

  class RequestEngine {
    const g: Config
    const bal: BalancerSlot
    const fleet: WorkerFleet
    /** Executing plus queued, per worker. */
    const slotCap: nat
    const free: array<nat>
    var freeTop: nat
    const rTries: array<nat>
    const rFirst: array<int>
    /** The request was accepted by a worker at least once. */
    const rRan: array<bool>
    /** Every obstacle so far was a full queue. */
    const rCap: array<bool>
    var c: Counters
    var pendingB: nat
    ghost var at: seq<int>
    ghost var id: seq<int>
    ghost var tickets: seq<Ticket>
    ghost var others: seq<nat>
    ghost var elsewhere: Counters

    ghost predicate Shape()
      reads this, bal, bal.base, fleet
    {
      && fleet.bal == bal && fleet.n == bal.n == g.n == bal.inflight.Length && freeTop <= g.R
      && free.Length == rTries.Length == rFirst.Length == rRan.Length == rCap.Length == g.R == |at| == |id| && |others| == g.n
      && free != rTries && free != bal.inflight && free != fleet.fails && rTries != bal.inflight && rTries != fleet.fails
      && bal.inflight != fleet.fails
      && (rFirst as object) !in {free, rTries, bal.inflight, fleet.fails}
      && rRan != rCap && rRan !in {bal.up, bal.base.eligible, fleet.probeOut, fleet.supervised}
      && rCap !in {bal.up, bal.base.eligible, fleet.probeOut, fleet.supervised}
    }

    ghost function Snap(): (t: Table)
      requires Shape()
      reads this, bal, bal.base, fleet, free, rTries, rFirst, rRan, rCap, bal.inflight
    {
      Table(free[..freeTop], rTries[..], rFirst[..], rRan[..], rCap[..], bal.inflight[..], c, pendingB, at, id, tickets, others, elsewhere)
    }

    /** The neighbours are sound at every step of an event. */
    ghost predicate Mid()
      reads this, bal, bal.base, fleet, bal.up, bal.base.eligible, bal.inflight,
        fleet.fails, fleet.bState, fleet.openedAt, fleet.probeOut, fleet.supervised
    {
      Shape() && fleet.Valid() && bal.Synced()
    }

    ghost predicate Valid()
      reads this, bal, bal.base, fleet, bal.up, bal.base.eligible, bal.inflight, free, rTries, rFirst, rRan, rCap,
        fleet.fails, fleet.bState, fleet.openedAt, fleet.probeOut, fleet.supervised
    {
      Mid() && Inv(Snap(), g, -1)
    }

    constructor (slot: BalancerSlot, workers: WorkerFleet, table: nat, tries: nat, capacity: nat)
      requires slot.Valid() && slot.Synced() && workers.Valid() && workers.bal == slot && slot.inflight != workers.fails
      ensures Valid() && bal == slot && fleet == workers && g == Config(table, slot.n, tries) && slotCap == capacity
      ensures fresh(free) && fresh(rTries) && fresh(rFirst) && fresh(rRan) && fresh(rCap)
      ensures tickets == [] && c == Counters(0, 0, 0, 0, 0, 0, 0, 0) && others == slot.inflight[..]
    {
      bal, fleet, slotCap, g := slot, workers, capacity, Config(table, slot.n, tries);
      var slots := AllFree(table);
      var times, firsts := Counts(table);
      var ran, cap := Marks(table);
      free, freeTop, rTries, rFirst, rRan, rCap := slots, table, times, firsts, ran, cap;
      c, pendingB := Counters(0, 0, 0, 0, 0, 0, 0, 0), 0;
      at, id, tickets, others := seq(table, _ => -1), seq(table, _ => -1), [], slot.inflight[..];
      elsewhere := Counters(0, 0, 0, 0, 0, 0, 0, 0);
      new;
      hide Inv, WorkerFleet.Valid, BalancerSlot.Synced, BalancerSlot.Valid;
      EmptyTable(Snap(), g);
    }

    /** The free list in its first order: slot 0 on top. */
    static method AllFree(table: nat) returns (slots: array<nat>)
      ensures fresh(slots) && slots.Length == table && forall r :: 0 <= r < table ==> slots[r] == table - 1 - r
    {
      slots := new nat[table](r requires 0 <= r < table => table - 1 - r);
    }

    /** Columns of a table in which nothing has been admitted: an admission clears its slot's. */
    static method Counts(table: nat) returns (times: array<nat>, firsts: array<int>)
      ensures fresh(times) && fresh(firsts) && times.Length == firsts.Length == table
    {
      times, firsts := new nat[table](_ => 0), new int[table](_ => 0);
    }

    static method Marks(table: nat) returns (ran: array<bool>, cap: array<bool>)
      ensures fresh(ran) && fresh(cap) && ran != cap && ran.Length == cap.Length == table
    {
      ran, cap := new bool[table](_ => false), new bool[table](_ => false);
    }

    /** Of the fleet only worker i has moved: if half-open, it has taken its probe and left the rotation. */
    twostate predicate Probed(i: int)
      reads fleet.bState, fleet.probeOut, bal.up
    {
      if 0 <= i < fleet.bState.Length == fleet.probeOut.Length == bal.up.Length && fleet.bState[i].HalfOpen? then
        fleet.probeOut[..] == old(fleet.probeOut[..])[i := true] && bal.up[..] == old(bal.up[..])[i := false]
      else
        fleet.probeOut[..] == old(fleet.probeOut[..]) && bal.up[..] == old(bal.up[..])
    }

    twostate lemma ProbedAll(i: int)
      requires fleet.fails.Length == fleet.bState.Length == fleet.openedAt.Length == fleet.probeOut.Length == bal.up.Length
      requires Probed(i) && unchanged(fleet.fails, fleet.bState, fleet.openedAt)
      ensures fleet.All() == ProbeTaken(old(fleet.All()), i)
      ensures forall j :: 0 <= j < bal.up.Length ==> bal.up[j] == (old(bal.up[j]) && !(j == i && fleet.bState[j].HalfOpen?))
    {
      assert forall j :: 0 <= j < bal.up.Length ==> bal.up[j] == bal.up[..][j] && old(bal.up[j]) == old(bal.up[..])[j];

      forall j | 0 <= j < fleet.fails.Length
        ensures fleet.All()[j] == ProbeTaken(old(fleet.All()), i)[j]
      {
        assert fleet.All()[j] == fleet.At(j) && old(fleet.All())[j] == old(fleet.At(j));
        assert fleet.probeOut[..][j] == fleet.probeOut[j] && old(fleet.probeOut[..])[j] == old(fleet.probeOut[j]);
      }
    }

    // ---- the leaf steps --------------------------------------------------------------------

    method Try(r: nat, i: nat)
      requires Mid() && InHand(Snap(), g, r)
      modifies this, rTries, rFirst
      ensures Mid() && Snap() == Tried(old(Snap()), g, r, i) && at == old(at)
    {
      hide Sound, LiveTo, SumTo, BalancerBase.Valid, BalancerBase.Up;
      rTries[r] := rTries[r] + 1;
      if rFirst[r] < 0 { rFirst[r] := i; }
      tickets := tickets[id[r] := tickets[id[r]].(posts := tickets[id[r]].posts + 1)];
    }

    method Refuse(r: nat, ready: bool)
      requires Mid() && InHand(Snap(), g, r)
      modifies this, rCap
      ensures Mid() && Snap() == Refused(old(Snap()), g, r, ready) && at == old(at)
    {
      hide Sound, LiveTo, SumTo, BalancerBase.Valid, BalancerBase.Up;
      c := c.(refused := c.refused + 1);
      if !ready { Obstruct(r); }
    }

    method Obstruct(r: nat)
      requires Mid() && InHand(Snap(), g, r)
      modifies this, rCap
      ensures Mid() && Snap() == Obstructed(old(Snap()), g, r) && at == old(at)
    {
      hide Sound, LiveTo, SumTo, BalancerBase.Valid, BalancerBase.Up;
      rCap[r] := false;
      tickets := tickets[id[r] := tickets[id[r]].(obstructed := true)];
    }

    /** Move one count and, in step with it, the current balancer's total; no clamp fires. */
    method Move(i: nat, delta: int)
      requires Mid() && i < g.n && (delta == 1 || (delta == -1 && 0 < bal.inflight[i]))
      modifies bal.inflight, bal`total
      ensures Mid() && Snap() == old(Snap()).(inflight := old(bal.inflight[..])[i := old(bal.inflight[i]) + delta])
    {
      hide Sound, Live, LiveTo, BalancerBase.Up;
      ghost var was := bal.inflight[..];
      SumUpdate(was, i, was[i] + delta);
      SumToNonNegative(was, |was|);
      bal.inflight[i] := bal.inflight[i] + delta;
      assert bal.inflight[..] == was[i := was[i] + delta];
      if bal.hasNote { bal.total := Clamped(bal.total + delta); }
    }

    /** Slot r has run. */
    method Ran(r: nat)
      requires Mid() && InHand(Snap(), g, r)
      modifies this, rRan
      ensures Mid() && Snap() == HasRun(old(Snap()), g, r) && at == old(at)
    {
      hide Sound, LiveTo, SumTo;
      rRan[r] := true;
      tickets := tickets[id[r] := tickets[id[r]].(accepted := tickets[id[r]].accepted + 1)];
    }

    method Accept(r: nat, i: nat)
      requires Mid() && InHand(Snap(), g, r) && i < g.n
      modifies this, rRan, bal.inflight, bal`total
      ensures Mid() && Snap() == Accepted(old(Snap()), g, r, i) && r < |old(at)| && at == old(at)[r := i]
    {
      hide WorkerFleet.Valid, BalancerSlot.Valid, BalancerSlot.Synced;
      Ran(r);
      Move(i, 1);
      at := at[r := i];
    }

    /** The breaker's hook: it takes a half-open worker out of the rotation, nothing else. */
    method Dispatching(i: nat)
      requires Mid() && i < g.n
      modifies fleet.probeOut, bal.up, bal.base, bal.base.eligible
      ensures Mid() && Snap() == old(Snap()) && Probed(i)
    {
      hide LiveTo, SumTo;
      ghost var marks, up := fleet.probeOut[..], bal.up[..];
      fleet.OnDispatch(i);
      forall j | 0 <= j < g.n && j != i ensures fleet.probeOut[j] == marks[j] && bal.up[j] == up[j] {
        assert fleet.At(j) == old(fleet.At(j));
      }
      assert fleet.At(i) == Dispatched(old(fleet.At(i)));
    }

    method Unpost(i: nat, r: nat)
      requires Mid() && r < g.R && i < g.n && 0 < bal.inflight[i]
      modifies this, bal.inflight, bal`total
      ensures Mid() && Snap() == Unposted(old(Snap()), g, r, i)
    {
      Move(i, -1);
      at := at[r := -1];
    }

    /** Hand slot r back. */
    method Push(r: nat)
      requires Mid() && r < g.R && freeTop < g.R
      modifies this, free
      ensures Mid() && Snap() == old(Snap()).(free := old(Snap()).free + [r])
    {
      hide Sound, LiveTo, SumTo, BalancerBase.Valid, BalancerBase.Up;
      free[freeTop] := r;
      freeTop := freeTop + 1;
      assert free[..freeTop] == old(free[..freeTop]) + [r];
    }

    method Finish(r: nat, ok: bool)
      requires Mid() && InHand(Snap(), g, r) && freeTop < g.R
      modifies this, free
      ensures Mid() && Snap() == Finished(old(Snap()), g, r, ok) && at == old(at)
    {
      hide WorkerFleet.Valid, BalancerSlot.Synced, BalancerSlot.Valid;
      ghost var o := RequestTable.Verdict(Snap(), r, ok);
      c := if ok then c.(ok := c.ok + 1)
           else if !rRan[r] && rCap[r] then c.(shed := c.shed + 1) else c.(failed := c.failed + 1);
      Push(r);
      tickets := tickets[id[r] := tickets[id[r]].(end := Ended(o))];
      id := id[r := -1];
    }

    // ---- one request -----------------------------------------------------------------------

    /** The environment of one event, at the eligibility the balancer has now. */
    ghost predicate Sees(w: Scene)
      requires Shape()
      reads this, bal, bal.base, fleet, bal.up
    {
      ValidScene(w, g) && bal.up.Length == g.n && w.up == bal.up[..]
    }

    /** The next eligible worker after `avoid` that still has room, or none. */
    method NextWithRoom(avoid: nat, w: Scene) returns (j: int)
      requires ValidScene(w, g) && avoid < g.n
      ensures j == Other(w, g.n, avoid, 1)
    {
      for k := 1 to g.n
        invariant Other(w, g.n, avoid, 1) == Other(w, g.n, avoid, k)
      {
        j := After(avoid, k, g.n);
        if w.up[j] && w.room[j] { return; }
      }
      j := PICK_NONE;
    }

    method CountFailover()
      requires Mid()
      modifies this
      ensures Mid() && Snap() == Failover(old(Snap())) && at == old(at)
    {
      c := c.(failover := c.failover + 1);
    }

    /** A dispatch that reaches nobody: for want of an eligible worker, or of room at the others. */
    method CountMiss(nobody: bool)
      requires Mid()
      modifies this
      ensures Mid() && freeTop == old(freeTop) && at == old(at)
      ensures var t := old(Snap());
        Snap() == t.(c := if nobody then t.c.(none := t.c.none + 1) else t.c.(refused := t.c.refused + 1))
    {
      hide WorkerFleet.Valid, BalancerSlot.Synced, BalancerSlot.Valid;
      c := if nobody then c.(none := c.none + 1) else c.(refused := c.refused + 1);
    }

    /** One post: counted, then taken or refused. */
    method TryPost(r: nat, i: nat, w: Scene) returns (taken: bool)
      requires Mid() && InHand(Snap(), g, r) && i < g.n && Sees(w)
      modifies this, rTries, rFirst, rRan, rCap, bal.inflight, bal`total, fleet.probeOut, bal.up, bal.base, bal.base.eligible
      ensures Mid() && taken == w.accepts[i]
      ensures taken ==> Snap() == Accepted(Tried(old(Snap()), g, r, i), g, r, i)
      ensures !taken ==> Sees(w) && Snap() == Refused(Tried(old(Snap()), g, r, i), g, r, w.ready[i])
      ensures Probed(if taken then i else PICK_NONE) && r < |at| && at[r] == if taken then i else old(at)[r]
    {
      hide Tried, Accepted, Refused, WorkerFleet.Valid, BalancerSlot.Synced, LiveTo, SumTo;
      ghost var t := Snap();
      TriedInHand(t, g, r, i);
      Try(r, i);
      taken := w.accepts[i];
      if taken {
        Accept(r, i);
        Dispatching(i);
      } else {
        Refuse(r, w.ready[i]);
      }
    }

    /** Where a refused post goes next; with nowhere to go the request is finished. */
    method Reroute(r: nat, avoid: nat, w: Scene) returns (next: int)
      requires Mid() && InHand(Snap(), g, r) && freeTop < g.R && avoid < g.n && Sees(w)
      modifies this, free
      ensures Mid() && Sees(w) && at == old(at)
      ensures next == if old(rTries[r]) < g.tries then Other(w, g.n, avoid, 1) else PICK_NONE
      ensures Snap() == if next >= 0 then Failover(old(Snap())) else Finished(old(Snap()), g, r, false)
    {
      hide Finished, Failover, WorkerFleet.Valid, BalancerSlot.Synced, LiveTo, SumTo;
      next := PICK_NONE;
      if rTries[r] < g.tries { next := NextWithRoom(avoid, w); }
      if next >= 0 { CountFailover(); } else { Finish(r, false); }
    }

    /** A post that is not taken either names the worker to try next, or finishes the request. */
    method PostOnce(r: nat, i: nat, w: Scene) returns (next: int)
      requires Mid() && Inv(Snap(), g, r) && i < g.n && Sees(w) && rTries[r] < MaxPosts(g)
      modifies this, free, rTries, rFirst, rRan, rCap, bal.inflight, bal`total, fleet.probeOut, bal.up, bal.base, bal.base.eligible
      ensures Mid() && next < g.n
      ensures next < 0 ==> Snap() == Post(old(Snap()), g, r, i, w)
      ensures r < |at| && Probed(at[r]) && (next >= 0 ==> at[r] == -1)
      ensures next >= 0 ==>
        && Sees(w) && rTries[r] == old(rTries[r]) + 1 < g.tries && Inv(Snap(), g, r)
        && Post(old(Snap()), g, r, i, w) == Post(Snap(), g, r, next, w)
    {
      hide Inv, Post, Failover, Tried, Accepted, Refused, Finished, Other, Probed, WorkerFleet.Valid, BalancerSlot.Synced, LiveTo, SumTo;
      HandIsOff(Snap(), g, r);
      PostStep(Snap(), g, r, i, w);
      var taken := TryPost(r, i, w);
      if taken { return PICK_NONE; }
      next := Reroute(r, i, w);
    }

    /** Post, rerouting a refusal to another worker with room while tries remain. */
    method PostA(r: nat, i: nat, w: Scene)
      requires Mid() && Inv(Snap(), g, r) && i < g.n && Sees(w) && rTries[r] < MaxPosts(g)
      modifies this, free, rTries, rFirst, rRan, rCap, bal.inflight, bal`total, fleet.probeOut, bal.up, bal.base, bal.base.eligible
      ensures Mid() && Snap() == Post(old(Snap()), g, r, i, w) && r < |at| && Probed(at[r])
      decreases g.tries - rTries[r]
    {
      hide Inv, Post, WorkerFleet.Valid, BalancerSlot.Synced;
      var next := PostOnce(r, i, w);
      if next >= 0 { PostA(r, next, w); }
    }
  
    /** Where slot r goes when the balancer picks worker `picked`: a retry may not return to its first worker. */
    method Target(r: nat, picked: nat, w: Scene) returns (i: int)
      requires Shape() && r < g.R && ValidScene(w, g) && picked < g.n
      ensures i == if rTries[r] > 0 && picked == rFirst[r] then Other(w, g.n, picked, 1) else picked
    {
      if rTries[r] > 0 && picked == rFirst[r] { i := NextWithRoom(picked, w); } else { i := picked; }
    }

    /** Pick a worker for slot r and post there. */
    method DispatchA(r: nat, w: Scene)
      requires Mid() && Inv(Snap(), g, r) && Sees(w) && rTries[r] < MaxPosts(g)
      modifies this, free, rTries, rFirst, rRan, rCap, bal.inflight, bal`total, fleet.probeOut, bal.up, bal.base, bal.base.eligible
      ensures Mid() && Snap() == Dispatch(old(Snap()), g, r, w) && r < |at| && Probed(at[r])
    {
      hide Inv, Post, Obstructed, Finished, Other, MaxPosts, WorkerFleet.Valid, BalancerSlot.Synced, BalancerSlot.Valid;
      RoomToFree(Snap(), g, r);
      HandIsOff(Snap(), g, r);
      if w.pick < 0 {
        NoWorker(r);
      } else {
        DispatchTo(r, w);
      }
    }

    method DispatchTo(r: nat, w: Scene)
      requires Mid() && Inv(Snap(), g, r) && Sees(w) && rTries[r] < MaxPosts(g) && freeTop < g.R && 0 <= w.pick
      modifies this, free, rTries, rFirst, rRan, rCap, bal.inflight, bal`total, fleet.probeOut, bal.up, bal.base, bal.base.eligible
      ensures Mid() && Snap() == Dispatch(old(Snap()), g, r, w) && r < |at| && Probed(at[r])
    {
      hide Inv, Post, Obstructed, Finished, Other, MaxPosts, WorkerFleet.Valid, BalancerSlot.Synced, BalancerSlot.Valid;
      HandIsOff(Snap(), g, r);
      var i := Target(r, w.pick, w);
      if i < 0 { NoOtherWorker(r); } else { PostA(r, i, w); }
    }

    /** Nobody eligible: on a first attempt that is not a question of capacity. */
    method NoWorker(r: nat)
      requires Mid() && InHand(Snap(), g, r) && freeTop < g.R
      modifies this, free, rCap
      ensures Mid() && at == old(at)
      ensures var t := old(Snap());
        var t1 := if t.tries[r] == 0 then Obstructed(t, g, r) else t;
        InHand(t1, g, r) && Snap() == Finished(t1.(c := t1.c.(none := t1.c.none + 1)), g, r, false)
    {
      hide Finished, WorkerFleet.Valid, BalancerSlot.Synced, LiveTo, SumTo;
      if rTries[r] == 0 { Obstruct(r); }
      CountMiss(true);
      Finish(r, false);
    }

    /** Every other eligible worker is full: a refused failover, not an empty pool. */
    method NoOtherWorker(r: nat)
      requires Mid() && InHand(Snap(), g, r) && freeTop < g.R
      modifies this, free
      ensures Mid() && at == old(at)
      ensures var t := old(Snap()); Snap() == Finished(t.(c := t.c.(refused := t.c.refused + 1)), g, r, false)
    {
      hide Finished, WorkerFleet.Valid, BalancerSlot.Synced, LiveTo, SumTo;
      CountMiss(false);
      Finish(r, false);
    }

    /** The breakers learn the result; eligibility and the table are untouched. */
    method Reporting(i: nat, v: Fleet.Verdict, now: real)
      requires Mid() && i < g.n
      modifies fleet.fails, fleet.bState, fleet.openedAt, fleet.probeOut
      ensures Mid() && Snap() == old(Snap()) && bal.up[..] == old(bal.up[..])
      ensures fleet.All() == old(fleet.All())[i := Resulted(old(fleet.All())[i], v, now, fleet.breakerFailures)]
    {
      hide Sound, Resulted, LiveTo, SumTo;
      ghost var ws := fleet.All();
      fleet.OnResult(i, v, now);
      forall j | 0 <= j < g.n && j != i ensures fleet.All()[j] == ws[j] {
        assert fleet.At(j) == old(fleet.At(j));
      }
    }

    /** A failed attempt is dispatched again while tries remain. */
    method AttemptFailed(r: nat, w: Scene)
      requires Mid() && Inv(Snap(), g, r) && Sees(w) && 0 < rTries[r]
      modifies this, free, rTries, rFirst, rRan, rCap, bal.inflight, bal`total, fleet.probeOut, bal.up, bal.base, bal.base.eligible
      ensures Mid() && r < |at| && Probed(at[r])
      ensures var t := old(Snap()); Snap() == if t.tries[r] < g.tries then Dispatch(Failover(t), g, r, w) else Finished(t, g, r, false)
    {
      hide Inv, Dispatch, Finished, WorkerFleet.Valid, BalancerSlot.Synced, LiveTo, SumTo;
      FailoverKeeps(Snap(), Failover(Snap()), g, r);
      RoomToFree(Snap(), g, r);
      HandIsOff(Snap(), g, r);
      if rTries[r] < g.tries {
        CountFailover();
        DispatchA(r, w);
      } else {
        Finish(r, false);
      }
    }

    /** The request in slot r, whose attempt has been answered, ends, or fails over while tries remain. */
    method Conclude(r: nat, code: Code, w: Scene)
      requires Mid() && Inv(Snap(), g, r) && Sees(w) && 0 < rTries[r]
      modifies this, free, rTries, rFirst, rRan, rCap, bal.inflight, bal`total, fleet.probeOut, bal.up, bal.base, bal.base.eligible
      ensures Mid() && r < |at| && Probed(at[r]) && Snap() == Concluded(old(Snap()), g, r, AnswerOf(code), w)
    {
      hide Inv, Dispatch, Finished, Failover, WorkerFleet.Valid, WorkerFleet.All, BalancerSlot.Synced, LiveTo, SumTo;
      RoomToFree(Snap(), g, r);
      HandIsOff(Snap(), g, r);
      if code == Success {
        Finish(r, true);
      } else if code == SetDisposed {
        Finish(r, false);
      } else {
        AttemptFailed(r, w);
      }
    }

    lemma BreakerSound(i: nat)
      requires Mid() && i < g.n
      ensures fleet.fails.Length == fleet.bState.Length == fleet.openedAt.Length == fleet.probeOut.Length == g.n == bal.up.Length
      ensures |fleet.All()| == g.n
      ensures var w := fleet.All()[i];
        (w.breaker.Closed? ==> w.fails < fleet.breakerFailures) && (w.probeOut ==> w.breaker.HalfOpen?)
    {
      assert Sound(fleet.At(i), bal.up[i], fleet.breakerFailures);
    }

    /** Worker i's breaker hears the answer, and the request ends or fails over. */
    method Answer(i: nat, r: nat, code: Code, now: real, w: Scene)
      requires Mid() && Inv(Snap(), g, r) && Sees(w) && 0 < rTries[r] && i < g.n
      modifies this, free, rTries, rFirst, rRan, rCap, bal.inflight, bal`total, fleet.fails, fleet.bState, fleet.openedAt,
        fleet.probeOut, bal.up, bal.base, bal.base.eligible
      ensures Mid() && r < |at| && Snap() == Concluded(old(Snap()), g, r, AnswerOf(code), w)
      ensures AllHear(old(fleet.All()), Answered(i, code, now, at[r]), fleet.breakerFailures, fleet.All())
      ensures forall j :: 0 <= j < g.n ==> bal.up[j] == (old(bal.up[j]) && !(j == at[r] && fleet.At(j).breaker.HalfOpen?))
    {
      hide Inv, Concluded, Probed, ProbeTaken, WorkerFleet.Valid, WorkerFleet.All, BalancerSlot.Synced, LiveTo, SumTo, AllHear, Resulted;
      HandIsOff(Snap(), g, r);
      BreakerSound(i);
      ghost var ws := fleet.All();
      Reporting(i, VerdictOf(code), now);
      label Reported:
      Conclude(r, code, w);
      ProbedAll@Reported(at[r]);
      ReportedAndProbed(ws, Answered(i, code, now, at[r]), fleet.breakerFailures, fleet.All());
    }

    /**
     Worker i answers the post of slot r. A success serves the request; a disposed set or a last try loses it; anything
     else fails over.
     */
    method SettleA(i: nat, r: nat, code: Code, now: real, w: Scene)
      requires Valid() && r < g.R && i < g.n && at[r] == i && Sees(w)
      modifies this, free, rTries, rFirst, rRan, rCap, bal.inflight, bal`total, fleet.fails, fleet.bState, fleet.openedAt,
        fleet.probeOut, bal.up, bal.base, bal.base.eligible
      ensures Valid() && InHand(old(Snap()), g, r) && 0 < old(bal.inflight[i])
      ensures Snap() == Settled(old(Snap()), g, r, i, AnswerOf(code), w)
      ensures OnlyTicket(old(tickets), tickets, old(id[r]))
      ensures code == Success ==> tickets[old(id[r])].end == Ended(Served)
      ensures code == SetDisposed || (code != Success && old(rTries[r]) >= g.tries) ==> tickets[old(id[r])].end == Ended(Lost)
      ensures code != Success && code != SetDisposed && old(rTries[r]) < g.tries ==> c.failover > old(c.failover)
      ensures AllHear(old(fleet.All()), Answered(i, code, now, at[r]), fleet.breakerFailures, fleet.All())
      ensures forall j :: 0 <= j < g.n ==> bal.up[j] == (old(bal.up[j]) && !(j == at[r] && fleet.At(j).breaker.HalfOpen?))
    {
      hide Inv, Concluded, OnlyTicket, WorkerFleet.Valid, WorkerFleet.All, BalancerSlot.Valid, BalancerSlot.Synced, LiveTo, SumTo, AllHear;
      ghost var t := Snap();
      SettledKeeps(t, g, r, i, AnswerOf(code), w);
      UnpostedKeeps(t, g, r, i);
      PostedHasTried(t, g, r);
      Unpost(i, r);
      Answer(i, r, code, now, w);
    }

    // ---- arrivals --------------------------------------------------------------------------

    /** As many requests as the live workers can execute and queue; an outage is not a question of capacity. */
    function Full(): (full: bool)
      requires freeTop <= g.R
      reads this, bal, bal.base
    {
      bal.base.live != 0 && (g.R - freeTop) + pendingB >= bal.base.live * slotCap
    }

    /** One arrival: drained, shed at the door, handed to the other engine, or admitted and dispatched. */
    method Request(draining: bool, engineB: bool, w: Scene) returns (admitted: bool)
      requires Valid() && Sees(w)
      modifies this, free, rTries, rFirst, rRan, rCap, bal.inflight, bal`total, fleet.probeOut, bal.up, bal.base, bal.base.eligible
      ensures Valid() && Snap() == Arrived(old(Snap()), g, draining, old(Full()), engineB, w)
      ensures admitted <==>
        && !draining && (engineB || Active(old(tickets), |old(tickets)|) < g.R)
        && (old(bal.base.live) == 0 || Active(old(tickets), |old(tickets)|) + old(pendingB) < old(bal.base.live) * slotCap)
      ensures admitted && !engineB ==> 0 < old(freeTop) && old(free[freeTop - 1]) < |at|
      ensures Probed(if admitted && !engineB then at[old(free[freeTop - 1])] else PICK_NONE)
    {
      hide Inv, Dispatch, Admit, AtDoor, WorkerFleet.Valid, BalancerSlot.Synced;
      ghost var t := Snap();
      ActiveHoldSlots(t, g);
      ArrivedKeeps(t, g, draining, Full(), engineB, w);
      if draining || Full() || engineB || freeTop == 0 {
        admitted := AtTheDoor(draining, engineB);
      } else {
        AdmitAndDispatch(w);
        admitted := true;
      }
    }

    /** An arrival that does not enter this engine's table. */
    method AtTheDoor(draining: bool, engineB: bool) returns (admitted: bool)
      requires Mid() && (draining || Full() || engineB || freeTop == 0)
      modifies this
      ensures Mid() && admitted == (!draining && !old(Full()) && engineB) && Snap() == AtDoor(old(Snap()), draining, admitted)
    {
      hide WorkerFleet.Valid, BalancerSlot.Synced, BalancerSlot.Valid;
      admitted := false;
      if draining {
        c := c.(arrived := c.arrived + 1, drained := c.drained + 1);
      } else if Full() || !engineB {
        c := c.(arrived := c.arrived + 1, shed := c.shed + 1);
        elsewhere := elsewhere.(shed := elsewhere.shed + 1);
      } else {
        c, pendingB := c.(arrived := c.arrived + 1), pendingB + 1;
        admitted := true;
      }
    }

    method AdmitAndDispatch(w: Scene)
      requires Mid() && Inv(Snap(), g, -1) && Sees(w) && 0 < freeTop
      modifies this, free, rTries, rFirst, rRan, rCap, bal.inflight, bal`total, fleet.probeOut, bal.up, bal.base, bal.base.eligible
      ensures Mid() && old(free[freeTop - 1]) < |at| && Probed(at[old(free[freeTop - 1])])
      ensures Snap() == Entered(old(Snap()), g, w)
    {
      hide Inv, Dispatch, WorkerFleet.Valid, BalancerSlot.Synced, LiveTo, SumTo;
      AdmitKeeps(Snap(), g);
      AdmitCounts(Snap(), g);
      var r := Pop();
      DispatchA(r, w);
    }

    /** Take the top free slot, clear its columns, and open a ticket for it. */
    method Pop() returns (r: nat)
      requires Mid() && 0 < freeTop && free[freeTop - 1] < g.R
      modifies this, rTries, rFirst, rRan, rCap
      ensures Mid() && r == old(free[freeTop - 1]) && Snap() == Admit(old(Snap()), g)
    {
      hide WorkerFleet.Valid, BalancerSlot.Synced, BalancerSlot.Valid;
      r := Top();
      Clear(r);
      c := c.(arrived := c.arrived + 1);
      id := id[r := |tickets|];
      tickets := tickets + [Ticket(0, 0, false, Running(r))];
    }

    method Top() returns (r: nat)
      requires Mid() && 0 < freeTop
      modifies this
      ensures Mid() && r == old(free[freeTop - 1])
      ensures var t := old(Snap()); Snap() == t.(free := t.free[..|t.free| - 1])
    {
      hide WorkerFleet.Valid, BalancerSlot.Synced, BalancerSlot.Valid;
      freeTop := freeTop - 1;
      r := free[freeTop];
      assert free[..freeTop] == old(free[..freeTop])[..freeTop];
    }

    method Clear(r: nat)
      requires Mid() && r < g.R
      modifies rTries, rFirst, rRan, rCap
      ensures Mid()
      ensures var t := old(Snap());
        Snap() == t.(tries := t.tries[r := 0], first := t.first[r := -1], ran := t.ran[r := false], capOnly := t.capOnly[r := true])
    {
      hide Sound, LiveTo, SumTo, BalancerBase.Valid, BalancerBase.Up;
      rTries[r] := 0;
      rFirst[r] := -1;
      rRan[r] := false;
      rCap[r] := true;
    }

    // ---- what else moves the shared state --------------------------------------------------

    /** A request of the other engine settles. */
    method SettleB(o: Outcome)
      requires Valid() && 0 < pendingB
      modifies this
      ensures Valid() && Snap() == SettledB(old(Snap()), o)
    {
      hide Inv, WorkerFleet.Valid, BalancerSlot.Synced;
      SettledBKeeps(Snap(), g, o);
      pendingB := pendingB - 1;
      c := CountOutcome(c, o);
      elsewhere := CountOutcome(elsewhere, o);
    }

    /** The other engine's pool moves a count; its forwarder notes the move to the balancer in use now. */
    method MoveB(i: nat, delta: int)
      requires Valid() && i < g.n && (delta == 1 || (delta == -1 && 0 < others[i]))
      modifies this, bal.inflight, bal`total
      ensures Valid() && MovedB(old(Snap()), Snap(), g, i, delta)
    {
      hide Inv, WorkerFleet.Valid, BalancerSlot.Valid, BalancerSlot.Synced;
      ghost var t := Snap();
      OthersCounted(t, g, i);
      Move(i, delta);
      Credit(i, delta);
      MovedBKeeps(t, Snap(), g, i, delta);
    }

    ghost method Credit(i: nat, delta: int)
      requires Mid() && i < g.n && others[i] + delta >= 0
      modifies this
      ensures Mid() && Snap() == old(Snap()).(others := old(others)[i := old(others)[i] + delta])
    {
      hide WorkerFleet.Valid, BalancerSlot.Valid, BalancerSlot.Synced;
      others := others[i := others[i] + delta];
    }

    /** A live strategy switch under load: the table is untouched and the new balancer knows the occupancy. */
    method Switch(s: Strategy)
      requires Valid()
      modifies bal
      ensures Valid() && Snap() == old(Snap()) && bal.name == s && bal.switches == old(bal.switches) + 1
    {
      hide Inv, LiveTo, SumTo, Sound;
      bal.Set(s);
    }

    /** A tick between events. */
    method Tick(now: real, ready: seq<bool>)
      requires Valid() && |ready| == g.n
      modifies fleet.bState, fleet.probeOut, bal.up, bal.base, bal.base.eligible
      ensures Valid() && Snap() == old(Snap()) && forall i :: 0 <= i < g.n ==> fleet.Ticked(i, now, ready[i])
    {
      hide Inv, LiveTo, SumTo, Sound;
      fleet.Tick(now, ready);
    }
  }
}
