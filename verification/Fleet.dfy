/**
 The worker fleet: a circuit breaker per worker, coupled to the eligibility the balancers see. Dispatches,
 results, ticks, respawns, rebuilds and strategy switches may come in any order.
 */
module Fleet {
  import opened Eligibility
  import opened Balancers

  datatype Breaker = Closed | Open | HalfOpen

  datatype Signal = Trip | Cool | ProbeOk | ProbeFail

  /** The statechart: a signal the state does not handle changes nothing. */
  function Next(b: Breaker, s: Signal): (after: Breaker) {
    match (b, s)
    case (Closed, Trip) => Open
    case (Open, Cool) => HalfOpen
    case (HalfOpen, ProbeOk) => Closed
    case (HalfOpen, ProbeFail) => Open
    case _ => b
  }

  /** How an attempt ended; a placement or worker-death code is no verdict on the worker's transform. */
  datatype Verdict = Ok | Failure | NoVerdict

  datatype Worker = Worker(fails: nat, breaker: Breaker, openedAt: real, probeOut: bool)

  /** What holds of every worker between any two events. */
  ghost predicate Sound(w: Worker, up: bool, limit: nat) {
    && (w.breaker.Closed? ==> w.fails < limit)
    && (w.probeOut ==> w.breaker.HalfOpen? && !up)
  }

  /** The breaker lets a request through. */
  predicate Allows(w: Worker) {
    w.breaker.Closed? || (w.breaker.HalfOpen? && !w.probeOut)
  }

  function Dispatched(w: Worker): (after: Worker) {
    if w.breaker.HalfOpen? then w.(probeOut := true) else w
  }

  function Resulted(w: Worker, v: Verdict, now: real, limit: nat): (after: Worker) {
    if v.NoVerdict? then (if w.breaker.HalfOpen? then w.(probeOut := false) else w)
    else match w.breaker
      case Closed =>
        if v.Ok? then w.(fails := 0)
        else if w.fails + 1 >= limit then w.(fails := w.fails + 1, openedAt := now, breaker := Next(Closed, Trip))
        else w.(fails := w.fails + 1)
      case Open => w
      case HalfOpen =>
        if v.Ok? then w.(fails := 0, probeOut := false, breaker := Next(HalfOpen, ProbeOk))
        else w.(openedAt := now, probeOut := false, breaker := Next(HalfOpen, ProbeFail))
  }

  function Cooled(w: Worker, now: real, coolMs: real): (after: Worker) {
    if w.breaker.Open? && now - w.openedAt >= coolMs then w.(probeOut := false, breaker := Next(Open, Cool)) else w
  }

  function Respawned(w: Worker): (after: Worker) {
    w.(fails := 0, probeOut := false)
  }

  // ---- one breaker over runs of results ----------------------------------------------------

  /** Consecutive failures at the end of the first n verdicts. */
  function Streak(vs: seq<Verdict>, n: nat): (k: nat)
    requires n <= |vs|
  {
    if n == 0 || vs[n - 1].Ok? then 0
    else Streak(vs, n - 1) + (if vs[n - 1].Failure? then 1 else 0)
  }

  function Fresh(): Worker {
    Worker(0, Closed, 0.0, false)
  }

  function AfterResults(vs: seq<Verdict>, at: seq<real>, n: nat, limit: nat): (w: Worker)
    requires n <= |vs| == |at|
  {
    if n == 0 then Fresh() else Resulted(AfterResults(vs, at, n - 1, limit), vs[n - 1], at[n - 1], limit)
  }

  ghost predicate NeverReached(vs: seq<Verdict>, n: nat, limit: nat)
    requires n <= |vs|
  {
    forall m :: 0 <= m <= n ==> Streak(vs, m) < limit
  }

  /** The breaker trips exactly when some streak of consecutive failures reaches the limit, and then stays open. */
  lemma {:induction false} TripsExactlyOnStreak(vs: seq<Verdict>, at: seq<real>, n: nat, limit: nat)
    requires n <= |vs| == |at| && 1 <= limit
    ensures var w := AfterResults(vs, at, n, limit);
      && (w.breaker.Closed? <==> NeverReached(vs, n, limit)) && !w.breaker.HalfOpen?
      && (w.breaker.Closed? ==> w.fails == Streak(vs, n))
  {
    if n > 0 {
      TripsExactlyOnStreak(vs, at, n - 1, limit);
      if NeverReached(vs, n - 1, limit) && Streak(vs, n) < limit {
        assert NeverReached(vs, n, limit);
      }
    }
  }

  /**
   A half-open breaker does not tell its probe's result from a late result of a request sent before the
   cool-down: here it closes although no probe was ever sent.
   */
  lemma LateResultCloses(limit: nat, w: Worker, t: real, coolMs: real)
    requires 1 <= limit && w.breaker.Closed? && w.fails + 1 == limit && !w.probeOut
    ensures var tripped := Resulted(w, Failure, t, limit);
      var half := Cooled(tripped, t + coolMs, coolMs);
      tripped.breaker.Open? && half.breaker.HalfOpen? && !half.probeOut && Resulted(half, Ok, t + coolMs, limit).breaker.Closed?
  {
  }

  // ---- one half-open period ----------------------------------------------------------------

  /** A half-open worker with its outstanding requests: `late` ones sent before the cool-down, and probes. */
  datatype Half = Half(w: Worker, late: nat, probes: nat)

  datatype Act = Send | ProbeReply(v: Verdict) | LateReply(v: Verdict) | Respawn

  predicate Can(h: Half, a: Act) {
    h.w.breaker.HalfOpen? &&
    match a
    case Send => Allows(h.w)
    case ProbeReply(v) => 0 < h.probes
    case LateReply(v) => 0 < h.late
    case Respawn => true
  }

  function Do(h: Half, a: Act, now: real, limit: nat): (after: Half)
    requires Can(h, a)
  {
    match a
    case Send => h.(w := Dispatched(h.w), probes := h.probes + 1)
    case ProbeReply(v) => h.(w := Resulted(h.w, v, now, limit), probes := h.probes - 1)
    case LateReply(v) => h.(w := Resulted(h.w, v, now, limit), late := h.late - 1)
    case Respawn => h.(w := Respawned(h.w))
  }

  /** hs follows the acts through one half-open period. */
  ghost predicate HalfOpenRun(hs: seq<Half>, acts: seq<Act>, at: seq<real>, limit: nat) {
    && |hs| == |acts| + 1 && |at| == |acts| && !hs[0].w.probeOut && hs[0].probes == 0
    && forall k :: 0 <= k < |acts| ==> Can(hs[k], acts[k]) && hs[k + 1] == Do(hs[k], acts[k], at[k], limit)
  }

  /** One probe is out while the mark is set, and none while it is not. */
  ghost predicate MarkTells(h: Half) {
    h.probes == if h.w.probeOut then 1 else 0
  }

  /** What clears the mark without being the probe's own reply. */
  predicate Disturbs(a: Act) {
    a.LateReply? || a.Respawn?
  }

  lemma {:induction false} Undisturbed(hs: seq<Half>, acts: seq<Act>, at: seq<real>, limit: nat, n: nat)
    requires HalfOpenRun(hs, acts, at, limit) && n < |hs|
    requires forall k :: 0 <= k < |acts| && Disturbs(acts[k]) ==> hs[k].probes == 0
    ensures MarkTells(hs[n])
  {
    if n > 0 {
      Undisturbed(hs, acts, at, limit, n - 1);
      assert Can(hs[n - 1], acts[n - 1]);
    }
  }

  /**
   The mark tells the truth throughout a half-open period, so that one probe at most is out at a time, if and
   only if no late reply and no respawn arrives while a probe is out.
   */
  lemma OneProbeAtATime(hs: seq<Half>, acts: seq<Act>, at: seq<real>, limit: nat)
    requires HalfOpenRun(hs, acts, at, limit)
    ensures (forall n :: 0 <= n < |hs| ==> MarkTells(hs[n]))
      <==> forall k :: 0 <= k < |acts| && Disturbs(acts[k]) ==> hs[k].probes == 0
  {
    if forall k :: 0 <= k < |acts| && Disturbs(acts[k]) ==> hs[k].probes == 0 {
      forall n | 0 <= n < |hs| ensures MarkTells(hs[n]) {
        Undisturbed(hs, acts, at, limit, n);
      }
    } else {
      var k :| 0 <= k < |acts| && Disturbs(acts[k]) && hs[k].probes != 0;
      assert Can(hs[k], acts[k]) && hs[k + 1] == Do(hs[k], acts[k], at[k], limit);
      assert !MarkTells(hs[k + 1]);
    }
  }

  /** What can be known when the period begins: with no request outstanding then, only a respawn can disturb it. */
  lemma {:induction false} NoneLate(hs: seq<Half>, acts: seq<Act>, at: seq<real>, limit: nat, n: nat)
    requires HalfOpenRun(hs, acts, at, limit) && n < |hs| && hs[0].late == 0
    ensures hs[n].late == 0 && (n < |acts| ==> !acts[n].LateReply?)
  {
    if n > 0 { NoneLate(hs, acts, at, limit, n - 1); }
    if n < |acts| { assert Can(hs[n], acts[n]); }
  }

  lemma QuietPeriod(hs: seq<Half>, acts: seq<Act>, at: seq<real>, limit: nat, n: nat)
    requires HalfOpenRun(hs, acts, at, limit) && n < |hs| && hs[0].late == 0
    requires forall k :: 0 <= k < |acts| && acts[k].Respawn? ==> hs[k].probes == 0
    ensures MarkTells(hs[n])
  {
    forall k | 0 <= k < |acts| && Disturbs(acts[k]) ensures hs[k].probes == 0 {
      NoneLate(hs, acts, at, limit, k);
    }
    Undisturbed(hs, acts, at, limit, n);
  }

  /** Neither half of that can be dropped: a disturbance while the probe is out lets a second one go beside it. */
  lemma TwoProbesAtOnce(h: Half, a: Act, now: real, limit: nat) returns (hs: seq<Half>, acts: seq<Act>, at: seq<real>)
    requires h.w.breaker.HalfOpen? && !h.w.probeOut && h.probes == 0
    requires a == Respawn || (a == LateReply(NoVerdict) && 0 < h.late)
    ensures HalfOpenRun(hs, acts, at, limit) && hs[0] == h && acts == [Send, a, Send] && hs[3].probes == 2 && hs[3].w.breaker.HalfOpen?
  {
    var h1 := Do(h, Send, now, limit);
    var h2 := Do(h1, a, now, limit);
    var h3 := Do(h2, Send, now, limit);
    hs, acts, at := [h, h1, h2, h3], [Send, a, Send], [now, now, now];
  }

  // ---- what decides a half-open period -----------------------------------------------------

  /** The last act took the breaker out of half-open. */
  ghost predicate Decided(hs: seq<Half>, acts: seq<Act>) {
    |hs| == |acts| + 1 && 0 < |acts| && !hs[|acts|].w.breaker.HalfOpen?
  }

  /** A whole half-open period from h. */
  ghost predicate Period(h: Half, hs: seq<Half>, acts: seq<Act>, at: seq<real>, limit: nat) {
    HalfOpenRun(hs, acts, at, limit) && hs[0] == h && Decided(hs, acts)
  }

  /** A period is decided by a reply with a verdict, its own probe's or a late one: closed on success, open on failure. */
  lemma DecidedByVerdict(hs: seq<Half>, acts: seq<Act>, at: seq<real>, limit: nat)
    requires HalfOpenRun(hs, acts, at, limit) && Decided(hs, acts)
    ensures var a, after := acts[|acts| - 1], hs[|acts|].w.breaker;
      && (a.ProbeReply? || a.LateReply?) && !a.v.NoVerdict?
      && (after.Closed? <==> a.v.Ok?) && (after.Open? <==> a.v.Failure?)
  {
    var k := |acts| - 1;
    assert Can(hs[k], acts[k]) && hs[k + 1] == Do(hs[k], acts[k], at[k], limit);
  }

  /** One late verdict, and the period is over although no probe was ever sent. */
  lemma DecidedByLate(h: Half, now: real, limit: nat) returns (hs: seq<Half>, acts: seq<Act>, at: seq<real>)
    requires h.w.breaker.HalfOpen? && !h.w.probeOut && h.probes == 0 && 0 < h.late
    ensures Period(h, hs, acts, at, limit) && acts == [LateReply(Ok)]
  {
    hs, acts, at := [h, Do(h, LateReply(Ok), now, limit)], [LateReply(Ok)], [now];
  }

  /** One probe and its verdict, and the period is over as intended. */
  lemma ProbeDecides(h: Half, v: Verdict, now: real, limit: nat) returns (hs: seq<Half>, acts: seq<Act>, at: seq<real>)
    requires h.w.breaker.HalfOpen? && !h.w.probeOut && h.probes == 0 && !v.NoVerdict?
    ensures Period(h, hs, acts, at, limit) && acts == [Send, ProbeReply(v)]
    ensures hs[2].w.breaker.Closed? <==> v.Ok?
  {
    var h1 := Do(h, Send, now, limit);
    hs, acts, at := [h, h1, Do(h1, ProbeReply(v), now, limit)], [Send, ProbeReply(v)], [now, now];
  }

  /**
   Every way a half-open period can go is decided by the reply of a probe it sent, if and only if no request sent
   before the cool-down is outstanding when it begins.
   */
  lemma DecidedByProbe(h: Half, limit: nat)
    requires h.w.breaker.HalfOpen? && !h.w.probeOut && h.probes == 0
    ensures (forall hs: seq<Half>, acts: seq<Act>, at: seq<real> ::
        Period(h, hs, acts, at, limit) ==> acts[|acts| - 1].ProbeReply?)
      <==> h.late == 0
  {
    if h.late == 0 {
      forall hs: seq<Half>, acts: seq<Act>, at: seq<real> | Period(h, hs, acts, at, limit)
        ensures acts[|acts| - 1].ProbeReply?
      {
        DecidedByVerdict(hs, acts, at, limit);
        NoneLate(hs, acts, at, limit, |acts| - 1);
      }
    } else {
      var hs, acts, at := DecidedByLate(h, 0.0, limit);
    }
  }

  /** The worker is not respawned while a probe is out. */
  ghost predicate NoRespawnUnderProbe(hs: seq<Half>, acts: seq<Act>) {
    |hs| == |acts| + 1 && forall k :: 0 <= k < |acts| && acts[k].Respawn? ==> hs[k].probes == 0
  }

  /** And that probe is then the only one out, as long as the worker is not respawned under it: the same condition. */
  lemma DecidedByOnlyProbe(h: Half, limit: nat)
    requires h.w.breaker.HalfOpen? && !h.w.probeOut && h.probes == 0
    ensures (forall hs: seq<Half>, acts: seq<Act>, at: seq<real> ::
        Period(h, hs, acts, at, limit) && NoRespawnUnderProbe(hs, acts) ==>
          acts[|acts| - 1].ProbeReply? && hs[|acts| - 1].probes == 1)
      <==> h.late == 0
  {
    if h.late == 0 {
      forall hs: seq<Half>, acts: seq<Act>, at: seq<real> | Period(h, hs, acts, at, limit) && NoRespawnUnderProbe(hs, acts)
        ensures acts[|acts| - 1].ProbeReply? && hs[|acts| - 1].probes == 1
      {
        DecidedByVerdict(hs, acts, at, limit);
        NoneLate(hs, acts, at, limit, |acts| - 1);
        QuietPeriod(hs, acts, at, limit, |acts| - 1);
        assert Can(hs[|acts| - 1], acts[|acts| - 1]);
      }
    } else {
      var hs, acts, at := DecidedByLate(h, 0.0, limit);
    }
  }

  /** With a respawn under the probe either of two probes can decide, whatever is late. */
  lemma DecidedByOneOfTwo(h: Half, now: real, limit: nat) returns (hs: seq<Half>, acts: seq<Act>, at: seq<real>)
    requires h.w.breaker.HalfOpen? && !h.w.probeOut && h.probes == 0
    ensures Period(h, hs, acts, at, limit) && acts == [Send, Respawn, Send, ProbeReply(Ok)] && hs[3].probes == 2
  {
    hs, acts, at := TwoProbesAtOnce(h, Respawn, now, limit);
    var last := Do(hs[3], ProbeReply(Ok), now, limit);
    hs, acts, at := hs + [last], acts + [ProbeReply(Ok)], at + [now];
  }

  // ---- a supervised worker over whole runs -------------------------------------------------

  /** A worker and its place in the rotation. */
  datatype Seat = Seat(w: Worker, up: bool)

  datatype WorkerEvent = Heard(v: Verdict, at: real) | Beat(now: real, ready: bool) | Posted | Restart

  /** What `OnResult`, `Tick`, `OnDispatch` and `BringUp` leave of it. */
  function Stepped(s: Seat, e: WorkerEvent, limit: nat, coolMs: real): (after: Seat) {
    match e
    case Heard(v, at) => s.(w := Resulted(s.w, v, at, limit))
    case Beat(now, ready) => var w := Cooled(s.w, now, coolMs); Seat(w, ready && Allows(w))
    case Posted => var w := Dispatched(s.w); Seat(w, s.up && !w.probeOut)
    case Restart => s.(w := Respawned(s.w))
  }

  ghost predicate WorkerRun(ss: seq<Seat>, es: seq<WorkerEvent>, limit: nat, coolMs: real) {
    && 1 <= limit && |ss| == |es| + 1
    && forall k :: 0 <= k < |es| ==> ss[k + 1] == Stepped(ss[k], es[k], limit, coolMs)
  }

  /** Failures in a row at the end of the first n events; a success or a respawn ends the row, nothing else does. */
  function Row(es: seq<WorkerEvent>, n: nat): (k: nat)
    requires n <= |es|
  {
    if n == 0 then 0
    else match es[n - 1]
      case Heard(v, at) => if v.Ok? then 0 else Row(es, n - 1) + (if v.Failure? then 1 else 0)
      case Restart => 0
      case _ => Row(es, n - 1)
  }

  /** Over any run a closed breaker opens on the failure that makes the row as long as the limit, and only then. */
  lemma {:induction false} OpensOnRow(ss: seq<Seat>, es: seq<WorkerEvent>, limit: nat, coolMs: real, n: nat)
    requires WorkerRun(ss, es, limit, coolMs) && n <= |es| && ss[0].w.breaker.Closed? && ss[0].w.fails == 0
    ensures ss[n].w.breaker.Closed? ==> ss[n].w.fails == Row(es, n) < limit
    ensures 0 < n && ss[n - 1].w.breaker.Closed? ==> !ss[n].w.breaker.HalfOpen? && (ss[n].w.breaker.Open? <==> Row(es, n) >= limit)
  {
    if n > 0 {
      OpensOnRow(ss, es, limit, coolMs, n - 1);
      assert ss[n] == Stepped(ss[n - 1], es[n - 1], limit, coolMs);
    }
  }

  /** After a tick the worker is in rotation if and only if it is healthy and its breaker closed, or half-open with no probe out. */
  lemma InRotation(ss: seq<Seat>, es: seq<WorkerEvent>, limit: nat, coolMs: real, n: nat)
    requires WorkerRun(ss, es, limit, coolMs) && n < |es| && es[n].Beat?
    ensures var w := ss[n + 1].w;
      ss[n + 1].up <==> es[n].ready && !w.breaker.Open? && (w.breaker.HalfOpen? ==> !w.probeOut)
  {
    assert ss[n + 1] == Stepped(ss[n], es[n], limit, coolMs);
  }

  /** The failure that opens a breaker: the last of a row, or a probe's. */
  ghost predicate Opening(s: Seat, e: WorkerEvent, limit: nat) {
    e.Heard? && e.v.Failure? && (s.w.breaker.HalfOpen? || (s.w.breaker.Closed? && s.w.fails + 1 >= limit))
  }

  /**
   The cool-down is waited for: opened at time t, the breaker stays open, and from the first tick on the worker is
   out, as long as no tick reads t + coolMs or later. The first that does makes it half-open.
   */
  lemma {:induction false} CoolDownIsWaited(ss: seq<Seat>, es: seq<WorkerEvent>, limit: nat, coolMs: real, n: nat)
    requires WorkerRun(ss, es, limit, coolMs) && 1 <= n <= |es| && Opening(ss[0], es[0], limit)
    requires forall k :: 1 <= k < n && es[k].Beat? ==> es[k].now < es[0].at + coolMs
    ensures ss[n].w.breaker.Open? && ss[n].w.openedAt == es[0].at
    ensures (exists k :: 1 <= k < n && es[k].Beat?) ==> !ss[n].up
    ensures n < |es| && es[n].Beat? && es[n].now >= es[0].at + coolMs ==>
      ss[n + 1].w.breaker.HalfOpen? && !ss[n + 1].w.probeOut && ss[n + 1].up == es[n].ready
  {
    assert ss[n] == Stepped(ss[n - 1], es[n - 1], limit, coolMs);
    if n > 1 { CoolDownIsWaited(ss, es, limit, coolMs, n - 1); }
    if n < |es| { assert ss[n + 1] == Stepped(ss[n], es[n], limit, coolMs); }
  }

  // ---- the fleet ---------------------------------------------------------------------------

  class WorkerFleet {
    const bal: BalancerSlot
    const n: nat
    const breakerFailures: nat
    const breakerCoolMs: real
    const fails: array<nat>
    const bState: array<Breaker>
    const openedAt: array<real>
    const probeOut: array<bool>
    /** Worker i has a supervisor: false before its build and between teardown and rebuild. */
    const supervised: array<bool>

    ghost predicate Shape()
      reads this, bal
    {
      && fails.Length == bState.Length == openedAt.Length == probeOut.Length == supervised.Length == n == bal.n && 1 <= breakerFailures
      && probeOut != supervised && bal.up != probeOut && bal.up != supervised
    }

    function At(i: nat): (w: Worker)
      requires i < fails.Length == bState.Length == openedAt.Length == probeOut.Length
      reads fails, bState, openedAt, probeOut
    {
      Worker(fails[i], bState[i], openedAt[i], probeOut[i])
    }

    ghost function All(): (ws: seq<Worker>)
      requires fails.Length == bState.Length == openedAt.Length == probeOut.Length
      reads fails, bState, openedAt, probeOut
    {
      seq(fails.Length, j requires 0 <= j < fails.Length reads fails, bState, openedAt, probeOut => At(j))
    }

    ghost predicate Valid()
      reads this, bal, bal.up, bal.base, bal.base.eligible, fails, bState, openedAt, probeOut, supervised
    {
      && Shape() && bal.Valid() && bal.base.eligible != probeOut && bal.base.eligible != supervised
      && forall i :: 0 <= i < n ==> Sound(At(i), bal.up[i], breakerFailures)
    }

    constructor (slot: BalancerSlot, limit: nat, coolMs: real)
      requires slot.Valid() && 1 <= limit
      ensures Valid() && bal == slot && breakerFailures == limit && breakerCoolMs == coolMs
      ensures fresh(fails) && fresh(bState) && fresh(openedAt) && fresh(probeOut) && fresh(supervised)
      ensures forall i :: 0 <= i < n ==> !supervised[i]
    {
      bal, n, breakerFailures, breakerCoolMs := slot, slot.n, limit, coolMs;
      fails := new nat[slot.n](_ => 0);
      bState := new Breaker[slot.n](_ => Closed);
      openedAt := new real[slot.n](_ => 0.0);
      probeOut := new bool[slot.n](_ => false);
      supervised := new bool[slot.n](_ => false);
    }

    /** Every other worker and its place in the rotation are as before. */
    twostate predicate OthersKept(i: nat)
      requires old(Shape()) && Shape() && n == bal.up.Length
      reads this, bal, bal.up, fails, bState, openedAt, probeOut, supervised
    {
      forall j :: 0 <= j < n && j != i ==> At(j) == old(At(j)) && bal.up[j] == old(bal.up[j]) && supervised[j] == old(supervised[j])
    }

    /** A half-open worker takes one probe and leaves the rotation with it. */
    method OnDispatch(i: nat)
      requires Valid() && i < n
      modifies probeOut, bal.up, bal.base, bal.base.eligible
      ensures Valid() && OthersKept(i) && At(i) == Dispatched(old(At(i)))
      ensures bal.up[i] == (old(bal.up[i]) && !At(i).probeOut)
    {
      if bState[i] == HalfOpen && !probeOut[i] {
        probeOut[i] := true;
        if bal.up[i] { bal.SetEligible(i, false); }
      }
    }

    /** A verdict moves the breaker; anything else only releases the probe. Eligibility is left to the next tick. */
    method OnResult(i: nat, v: Verdict, now: real)
      requires Valid() && i < n
      modifies fails, bState, openedAt, probeOut
      ensures Valid() && OthersKept(i) && At(i) == Resulted(old(At(i)), v, now, breakerFailures) && bal.up[i] == old(bal.up[i])
    {
      hide LiveTo, Live, BalancerBase.Valid, BalancerBase.Up;
      if v == NoVerdict {
        if bState[i] == HalfOpen { probeOut[i] := false; }
      } else if bState[i] == Closed {
        ClosedResult(i, v, now);
      } else if bState[i] == HalfOpen {
        ProbeResult(i, v, now);
      }
    }

    method ClosedResult(i: nat, v: Verdict, now: real)
      requires Valid() && i < n && bState[i] == Closed && v != NoVerdict
      modifies fails, bState, openedAt
      ensures Valid() && OthersKept(i) && At(i) == Resulted(old(At(i)), v, now, breakerFailures) && bal.up[i] == old(bal.up[i])
    {
      hide LiveTo, Live, BalancerBase.Valid, BalancerBase.Up;
      if v == Ok {
        fails[i] := 0;
        return;
      }
      fails[i] := fails[i] + 1;
      if fails[i] >= breakerFailures {
        openedAt[i] := now;
        bState[i] := Next(bState[i], Trip);
      }
    }

    method ProbeResult(i: nat, v: Verdict, now: real)
      requires Valid() && i < n && bState[i] == HalfOpen && v != NoVerdict
      modifies fails, bState, openedAt, probeOut
      ensures Valid() && OthersKept(i) && At(i) == Resulted(old(At(i)), v, now, breakerFailures) && bal.up[i] == old(bal.up[i])
    {
      hide LiveTo, Live, BalancerBase.Valid, BalancerBase.Up;
      probeOut[i] := false;
      if v == Ok {
        fails[i] := 0;
        bState[i] := Next(bState[i], ProbeOk);
      } else {
        openedAt[i] := now;
        bState[i] := Next(bState[i], ProbeFail);
      }
    }

    /** What a tick leaves of worker i: cooled if due, and in rotation exactly when healthy and allowed. */
    twostate predicate Ticked(i: nat, now: real, ready: bool)
      requires old(Shape()) && Shape() && n == bal.up.Length && i < n
      reads this, bal, bal.up, fails, bState, openedAt, probeOut, supervised
    {
      if old(supervised[i]) then At(i) == Cooled(old(At(i)), now, breakerCoolMs) && bal.up[i] == (ready && Allows(At(i)))
      else At(i) == old(At(i)) && bal.up[i] == old(bal.up[i])
    }

    /** `ready[i]`: worker i's health at this tick. */
    method Tick(now: real, ready: seq<bool>)
      requires Valid() && |ready| == n
      modifies bState, probeOut, bal.up, bal.base, bal.base.eligible
      ensures Valid() && forall i :: 0 <= i < n ==> Ticked(i, now, ready[i])
    {
      for i := 0 to n
        invariant Valid()
        invariant forall j :: 0 <= j < i ==> Ticked(j, now, ready[j])
        invariant forall j :: i <= j < n ==> At(j) == old(At(j)) && bal.up[j] == old(bal.up[j])
      {
        if supervised[i] { TickOne(i, now, ready[i]); }
      }
    }

    method TickOne(i: nat, now: real, ready: bool)
      requires Valid() && i < n
      modifies bState, probeOut, bal.up, bal.base, bal.base.eligible
      ensures Valid() && OthersKept(i) && At(i) == Cooled(old(At(i)), now, breakerCoolMs)
      ensures bal.up[i] == (ready && Allows(At(i)))
    {
      hide LiveTo, Live;
      if bState[i] == Open && now - openedAt[i] >= breakerCoolMs {
        probeOut[i] := false;
        bState[i] := Next(bState[i], Cool);
      }
      var want := ready && (bState[i] == Closed || (bState[i] == HalfOpen && !probeOut[i]));
      if want != bal.up[i] { bal.SetEligible(i, want); }
    }

    /** A respawned worker starts without failures and without a probe. */
    method BringUp(i: nat)
      requires Valid() && i < n
      modifies fails, probeOut
      ensures Valid() && OthersKept(i) && At(i) == Respawned(old(At(i))) && bal.up[i] == old(bal.up[i])
    {
      fails[i] := 0;
      probeOut[i] := false;
    }

    /** A fresh scope, supervisor and breaker. */
    method Build(i: nat)
      requires Valid() && i < n
      modifies fails, bState, probeOut, supervised
      ensures Valid() && OthersKept(i) && supervised[i] && bal.up[i] == old(bal.up[i])
      ensures At(i) == old(At(i)).(fails := 0, breaker := Closed, probeOut := false)
    {
      supervised[i] := true;
      bState[i] := Closed;
      fails[i] := 0;
      probeOut[i] := false;
    }

    method Teardown(i: nat)
      requires Valid() && i < n
      modifies supervised
      ensures Valid() && OthersKept(i) && !supervised[i] && At(i) == old(At(i)) && bal.up[i] == old(bal.up[i])
    {
      supervised[i] := false;
    }

    /** A live strategy switch leaves every breaker and the rotation alone. */
    method Switch(s: Strategy)
      requires Valid()
      modifies bal
      ensures Valid() && bal.name == s && bal.Synced() && forall i :: 0 <= i < n ==> At(i) == old(At(i)) && bal.up[i] == old(bal.up[i])
    {
      bal.Set(s);
    }
  }
}
