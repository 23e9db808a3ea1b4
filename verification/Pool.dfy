/**
 The request layer: many runs of `Pool.run` interleave at their awaits over one shared in-flight array. Each
 method below is one uninterrupted stretch of a run, from one await to the next or to its end; whatever the
 schedule, the balancer and the callbacks do, the counters are conserved.
 */
module Pool {
  import opened Seqs
  import opened Arith
  import opened Words
  import opened Buckets
  import opened Eligibility
  import opened Failover

  const REPICK_LIMIT := 8

  datatype Outcome = Resolved | FeedbackFailed | Aborted | ClockInvalid | NoEndpoint | LastError | NoteFailed

  datatype Phase = Awaiting | Ended(outcome: Outcome)

  /** One run: the endpoints it dispatched to, in order, and for each whether its note(+1) landed. */
  datatype Run = Run(tries: nat, key: Key, held: seq<nat>, landed: seq<bool>, phase: Phase)

  datatype Key = Unkeyed | Keyed(word: Word)

  /** What the outside world answers during one attempt. */
  datatype World = World(aborted: bool, clockValid: bool, picks: seq<int>, up: seq<bool>, weights: seq<nat>, noteThrows: bool)

  ghost predicate ValidWorld(w: World, cap: nat) {
    && |w.picks| == REPICK_LIMIT + 1 && |w.up| == |w.weights| == cap
    && forall g :: 0 <= g < |w.picks| ==> w.picks[g] == PICK_NONE || 0 <= w.picks[g] < cap
  }

  // ---- one run -----------------------------------------------------------------------------

  /** Distinct endpoints, at most `tries` of them. */
  ghost predicate Sound(r: Run, cap: nat) {
    && 1 <= r.tries && |r.held| == |r.landed| <= r.tries && Distinct(r.held)
    && (forall k :: 0 <= k < |r.held| ==> r.held[k] < cap)
  }

  /** At an await the run has dispatched, and every dispatch is noted if the balancer takes notes. */
  ghost predicate WellFormed(r: Run, cap: nat, notes: bool) {
    && Sound(r, cap)
    && (r.phase.Awaiting? ==> 0 < |r.held| && forall k :: 0 <= k < |r.landed| ==> r.landed[k] == notes)
  }

  // ---- counting over runs ------------------------------------------------------------------

  /** 1 while run r holds endpoint i up. */
  function Holds(r: Run, i: nat): nat {
    if r.phase.Awaiting? && i in r.held then 1 else 0
  }

  /** Active runs among the first n that hold endpoint i. */
  function Holding(runs: seq<Run>, n: nat, i: nat): (h: nat)
    requires n <= |runs|
  {
    if n == 0 then 0 else Holding(runs, n - 1, i) + Holds(runs[n - 1], i)
  }

  function Trues(s: seq<bool>): nat {
    if s == [] then 0 else Trues(s[..|s| - 1]) + (if s[|s| - 1] then 1 else 0)
  }

  /** Notes standing for run r. */
  function Noted(r: Run): nat {
    if r.phase.Awaiting? then Trues(r.landed) else 0
  }

  function Notes(runs: seq<Run>, n: nat): (h: nat)
    requires n <= |runs|
  {
    if n == 0 then 0 else Notes(runs, n - 1) + Noted(runs[n - 1])
  }

  lemma {:induction false} HoldingUpdate(runs: seq<Run>, n: nat, id: nat, r: Run, i: nat)
    requires n <= |runs| && id < |runs|
    ensures Holding(runs[id := r], n, i) == Holding(runs, n, i) + (if id < n then Holds(r, i) - Holds(runs[id], i) else 0)
  {
    if n > 0 { HoldingUpdate(runs, n - 1, id, r, i); }
  }

  lemma {:induction false} NotesUpdate(runs: seq<Run>, n: nat, id: nat, r: Run)
    requires n <= |runs| && id < |runs|
    ensures Notes(runs[id := r], n) == Notes(runs, n) + (if id < n then Noted(r) - Noted(runs[id]) else 0)
  {
    if n > 0 { NotesUpdate(runs, n - 1, id, r); }
  }

  lemma {:induction false} HoldingPrefix(runs: seq<Run>, more: seq<Run>, n: nat, i: nat)
    requires n <= |runs|
    ensures Holding(runs + more, n, i) == Holding(runs, n, i) && Notes(runs + more, n) == Notes(runs, n)
  {
    if n > 0 { HoldingPrefix(runs, more, n - 1, i); }
  }

  lemma {:induction false} AllEnded(runs: seq<Run>, n: nat, i: nat)
    requires n <= |runs| && forall id :: 0 <= id < n ==> runs[id].phase.Ended?
    ensures Holding(runs, n, i) == 0 && Notes(runs, n) == 0
  {
    if n > 0 { AllEnded(runs, n - 1, i); }
  }

  // ---- the books ---------------------------------------------------------------------------

  /** inflight = what others hold + what active runs hold; the balancer's total likewise. */
  ghost predicate Books(inflight: seq<nat>, base: seq<nat>, total: int, noteBase: nat, notes: bool, runs: seq<Run>) {
    && |inflight| == |base|
    && (forall id :: 0 <= id < |runs| ==> WellFormed(runs[id], |base|, notes))
    && (forall i :: 0 <= i < |base| ==> inflight[i] == base[i] + Holding(runs, |runs|, i))
    && total == noteBase + Notes(runs, |runs|)
  }

  /** Once every run has ended, on whatever path, every counter is back to base. */
  lemma BackToBase(inflight: seq<nat>, base: seq<nat>, total: int, noteBase: nat, notes: bool, runs: seq<Run>)
    requires Books(inflight, base, total, noteBase, notes, runs)
    requires forall id :: 0 <= id < |runs| ==> runs[id].phase.Ended?
    ensures inflight == base && total == noteBase
  {
    forall i | 0 <= i < |base|
      ensures inflight[i] == base[i]
    {
      AllEnded(runs, |runs|, i);
    }
    AllEnded(runs, |runs|, 0);
  }

  /** The endpoints a run holds, as an indicator sequence. */
  function Indicator(r: Run, cap: nat): (s: seq<int>)
    ensures |s| == cap
  {
    seq(cap, i requires 0 <= i < cap => Holds(r, i))
  }

  function HoldingSeq(runs: seq<Run>, n: nat, cap: nat): (s: seq<int>)
    requires n <= |runs|
    ensures |s| == cap
  {
    seq(cap, i requires 0 <= i < cap => Holding(runs, n, i))
  }

  lemma {:induction false} IndicatorSum(r: Run, cap: nat)
    requires Sound(r, cap) && r.phase.Awaiting? && 0 < |r.held|
    ensures Sum(Indicator(r, cap)) == |r.held|
    decreases |r.held|
  {
    var last, rest := r.held[|r.held| - 1], r.held[..|r.held| - 1];
    if |rest| == 0 {
      var zero := seq(cap, i => 0);
      SumToZero(zero, cap);
      SumUpdate(zero, last, 1);
      assert Indicator(r, cap) == zero[last := 1];
    } else {
      var r' := r.(held := rest, landed := r.landed[..|rest|]);
      IndicatorSum(r', cap);
      SumUpdate(Indicator(r', cap), last, 1);
      assert Indicator(r, cap) == Indicator(r', cap)[last := 1];
    }
  }

  lemma {:induction false} AllTrue(s: seq<bool>)
    requires forall k :: 0 <= k < |s| ==> s[k]
    ensures Trues(s) == |s|
  {
    if s != [] { AllTrue(s[..|s| - 1]); }
  }

  lemma {:induction false} HoldingTotal(runs: seq<Run>, n: nat, cap: nat)
    requires n <= |runs| && forall id :: 0 <= id < |runs| ==> WellFormed(runs[id], cap, true)
    ensures Sum(HoldingSeq(runs, n, cap)) == Notes(runs, n)
  {
    if n == 0 {
      SumToZero(HoldingSeq(runs, 0, cap), cap);
    } else {
      HoldingTotal(runs, n - 1, cap);
      var r := runs[n - 1];
      SumToAdd(HoldingSeq(runs, n - 1, cap), Indicator(r, cap), HoldingSeq(runs, n, cap), cap);
      if r.phase.Awaiting? {
        AllTrue(r.landed);
        IndicatorSum(r, cap);
      } else {
        SumToZero(Indicator(r, cap), cap);
      }
    }
  }

  /**
   BoundedLoad's total is the sum of inflight at every await of every schedule, provided it was in step with
   the other writers to begin with.
   */
  lemma TotalIsSum(inflight: seq<nat>, base: seq<nat>, total: int, noteBase: nat, runs: seq<Run>)
    requires Books(inflight, base, total, noteBase, true, runs) && noteBase == Sum(base)
    ensures total == Sum(inflight)
  {
    HoldingTotal(runs, |runs|, |base|);
    SumToAdd(base, HoldingSeq(runs, |runs|, |base|), inflight, |base|);
  }

  lemma {:induction false} HoldingAtLeast(runs: seq<Run>, n: nat, id: nat, i: nat)
    requires id < n <= |runs|
    ensures Holding(runs, n, i) >= Holds(runs[id], i) && Notes(runs, n) >= Noted(runs[id])
  {
    if id < n - 1 { HoldingAtLeast(runs, n - 1, id, i); }
  }

  /** Replacing one run by its next state keeps the books when the counters moved by its change in holdings. */
  lemma BooksStep(before: seq<nat>, after: seq<nat>, base: seq<nat>, total: int, total': int, noteBase: nat, notes: bool,
                  runs: seq<Run>, id: nat, r: Run)
    requires Books(before, base, total, noteBase, notes, runs) && id < |runs| && |after| == |base|
    requires WellFormed(r, |base|, notes)
    requires forall i :: 0 <= i < |base| ==> after[i] == before[i] + Holds(r, i) - Holds(runs[id], i)
    requires total' == total + Noted(r) - Noted(runs[id])
    ensures Books(after, base, total', noteBase, notes, runs[id := r])
  {
    forall i | 0 <= i < |base|
      ensures after[i] == base[i] + Holding(runs[id := r], |runs|, i)
    {
      HoldingUpdate(runs, |runs|, id, r, i);
    }
    NotesUpdate(runs, |runs|, id, r);
  }

  lemma BooksBegin(inflight: seq<nat>, base: seq<nat>, total: int, noteBase: nat, notes: bool, runs: seq<Run>, r: Run)
    requires Books(inflight, base, total, noteBase, notes, runs)
    requires WellFormed(r, |base|, notes) && r.phase.Ended?
    ensures Books(inflight, base, total, noteBase, notes, runs + [r])
  {
    forall i | 0 <= i < |base|
      ensures inflight[i] == base[i] + Holding(runs + [r], |runs| + 1, i)
    {
      HoldingPrefix(runs, [r], |runs|, i);
    }
    HoldingPrefix(runs, [r], |runs|, 0);
  }

  // ---- choosing an endpoint ----------------------------------------------------------------

  /** The balancer's answer, asked again (at most 8 times) while it repeats a tried endpoint. */
  function Repick(picks: seq<int>, held: seq<nat>, g: nat): (i: int)
    requires g < |picks|
    decreases |picks| - g
  {
    if picks[g] != PICK_NONE && picks[g] in held && g + 1 < |picks| then Repick(picks, held, g + 1) else picks[g]
  }

  /** It is the first of the nine answers to name an untried endpoint or nobody, or the ninth. */
  lemma {:induction false} RepickIsFirst(picks: seq<int>, held: seq<nat>, g: nat) returns (k: nat)
    requires g < |picks|
    ensures g <= k < |picks| && Repick(picks, held, g) == picks[k]
    ensures forall e :: g <= e < k ==> picks[e] != PICK_NONE && picks[e] in held
    ensures picks[k] == PICK_NONE || picks[k] !in held || k == |picks| - 1
    decreases |picks| - g
  {
    if picks[g] != PICK_NONE && picks[g] in held && g + 1 < |picks| {
      k := RepickIsFirst(picks, held, g + 1);
    } else {
      k := g;
    }
  }

  /** The attempt comes down to the weighted choice among the untried: each of the nine answers named nobody or a tried endpoint. */
  ghost predicate Spills(w: World, held: seq<nat>)
    requires 0 < |w.picks|
  {
    held != [] && (Repick(w.picks, held, 0) == PICK_NONE || Repick(w.picks, held, 0) in held)
  }

  /** The pool's sequence number afterwards: one further on exactly when an unkeyed attempt used it. */
  ghost function SeqAfter(r: Run, w: World, seqNo: nat): (after: nat)
    requires 0 < |w.picks|
  {
    if !w.aborted && w.clockValid && r.key.Unkeyed? && Spills(w, r.held) then (seqNo + 1) % 0x4000_0000 else seqNo
  }

  /** What attempt number |held| may dispatch to: the first answer, or a fresh one, or a weighted spill. */
  ghost predicate Chosen(w: World, held: seq<nat>, target: Word, i: int)
    requires 0 < |w.picks| && |w.up| == |w.weights|
  {
    if held == [] then i == w.picks[0]
    else
      var p := Repick(w.picks, held, 0);
      if p != PICK_NONE && p !in held then i == p
      else if i < 0 then i == PICK_NONE && forall k :: 0 <= k < |w.up| ==> Spill(w.up, w.weights, held)[k] == 0
      else Hits(Spill(w.up, w.weights, held), target, i)
  }

  // ---- the pool ----------------------------------------------------------------------------

  class RequestPool {
    const inflight: array<nat>
    const notes: bool
    /** The occupancy a note-taking balancer keeps. */
    var total: int
    var failSeq: nat
    var runs: seq<Run>
    /** What the other writers of `inflight`, and of the balancer's total, account for. */
    ghost var base: seq<nat>
    ghost var noteBase: nat

    ghost predicate Valid()
      reads this, inflight
    {
      && Books(inflight[..], base, total, noteBase, notes, runs) && failSeq < 0x4000_0000
    }

    constructor (view: array<nat>, takesNotes: bool, noted: nat)
      ensures Valid() && inflight == view && notes == takesNotes && runs == [] && total == noted == noteBase && base == view[..]
    {
      inflight, notes, total, failSeq, runs := view, takesNotes, noted, 0, [];
      base, noteBase := view[..], noted;
    }

    /** The `finally` block: release every dispatch, and every note that landed. Neither clamp ever fires. */
    method Finish(r: Run, outcome: Outcome) returns (r': Run)
      requires Sound(r, inflight.Length) && total >= Trues(r.landed) && (!notes ==> Trues(r.landed) == 0)
      requires forall k :: 0 <= k < |r.held| ==> inflight[r.held[k]] > 0
      modifies inflight, this`total
      ensures r' == r.(phase := Ended(outcome))
      ensures forall i :: 0 <= i < inflight.Length ==> inflight[i] == old(inflight[i]) - (if i in r.held then 1 else 0)
      ensures total == old(total) - Trues(r.landed)
    {
      for k := 0 to |r.held|
        invariant forall i :: 0 <= i < inflight.Length ==> inflight[i] == old(inflight[i]) - (if i in r.held[..k] then 1 else 0)
        invariant total == old(total) - Trues(r.landed[..k])
      {
        var j := r.held[k];
        ReleaseNext(r, k);
        inflight[j] := if inflight[j] > 0 then inflight[j] - 1 else 0;
        if notes && r.landed[k] { total := Clamped(total - 1); }
      }
      assert r.held[..|r.held|] == r.held && r.landed[..|r.held|] == r.landed;
      r' := r.(phase := Ended(outcome));
    }

    /** End a run that holds what it says it holds. */
    method End(r: Run, outcome: Outcome) returns (r': Run)
      requires Backed(r)
      modifies inflight, this`total
      ensures r' == r.(phase := Ended(outcome)) && WellFormed(r', inflight.Length, notes)
      ensures forall k :: 0 <= k < inflight.Length ==> inflight[k] == old(inflight[k]) + Holds(r', k) - Holds(r, k)
      ensures total == old(total) + Noted(r') - Noted(r)
    {
      hide Trues, Distinct;
      NotesWithout(r);
      r' := Finish(r, outcome);
    }

    /** The endpoint of attempt |held|, or none. */
    method Choose(held: seq<nat>, key: Key, w: World) returns (i: int)
      requires ValidWorld(w, inflight.Length) && failSeq < 0x4000_0000
      modifies this`failSeq
      ensures failSeq < 0x4000_0000 && -1 <= i < inflight.Length && (i >= 0 ==> i !in held)
      ensures failSeq == if key.Unkeyed? && Spills(w, held) then (old(failSeq) + 1) % 0x4000_0000 else old(failSeq)
      ensures Chosen(w, held, Target(if key.Keyed? then key.word else failSeq, |held|), i)
    {
      i := w.picks[0];
      if |held| > 0 {
        var g := 0;
        while i != PICK_NONE && i in held && g < REPICK_LIMIT
          invariant 0 <= g <= REPICK_LIMIT && i == w.picks[g]
          invariant Repick(w.picks, held, 0) == Repick(w.picks, held, g)
          decreases REPICK_LIMIT - g
        {
          g := g + 1;
          i := w.picks[g];
        }
        if i == PICK_NONE || i in held {
          var word: Word;
          if key.Keyed? {
            word := key.word;
          } else {
            failSeq := (failSeq + 1) % 0x4000_0000;
            word := failSeq;
          }
          i := ChooseUntried(w.up, w.weights, held, word, |held|);
        }
      }
    }

    /** A run may go on: it holds what the counters say it holds. */
    ghost predicate Backed(r: Run)
      reads this, inflight
    {
      && Sound(r, inflight.Length) && r.phase.Awaiting? && failSeq < 0x4000_0000
      && (forall k :: 0 <= k < |r.landed| ==> r.landed[k] == notes)
      && (forall k :: 0 <= k < |r.held| ==> inflight[r.held[k]] > 0)
      && total >= Trues(r.landed)
    }

    /** What ended an attempt before its call went out. */
    ghost predicate EndedWith(r: Run, w: World, chosen: int, outcome: Outcome) {
      if w.aborted then outcome == Aborted
      else if !w.clockValid then outcome == ClockInvalid
      else if chosen == PICK_NONE then outcome == (if r.held == [] then NoEndpoint else LastError)
      else notes && w.noteThrows && outcome == NoteFailed
    }

    /**
     What an attempt makes of run r in world w, i being the endpoint chosen: a dispatch to i and to nobody else,
     or an end for the stated reason.
     */
    ghost predicate Attempted(r: Run, r': Run, w: World, seqNo: Word, i: int)
      requires ValidWorld(w, inflight.Length)
    {
      && (!w.aborted && w.clockValid ==> Chosen(w, r.held, Target(if r.key.Keyed? then r.key.word else seqNo, |r.held|), i))
      && (r'.phase.Awaiting? ==> !w.aborted && w.clockValid && 0 <= i && i !in r.held && r'.held == r.held + [i])
      && (r'.phase.Ended? ==> EndedWith(r, w, i, r'.phase.outcome) && (r'.held == r.held || r'.held == r.held + [i]))
    }

    /**
     One attempt, from the abort check to the await. Either a call goes out to one new endpoint, counted and
     noted once, or the run ends here with everything it held released.
     */
    method Attempt(r: Run, w: World) returns (r': Run, ghost i: int)
      requires Backed(r) && |r.held| < r.tries && ValidWorld(w, inflight.Length)
      modifies inflight, this`total, this`failSeq
      ensures failSeq < 0x4000_0000 && WellFormed(r', inflight.Length, notes) && r'.tries == r.tries && r'.key == r.key
      ensures forall k :: 0 <= k < inflight.Length ==> inflight[k] == old(inflight[k]) + Holds(r', k) - Holds(r, k)
      ensures total == old(total) + Noted(r') - Noted(r)
      ensures Attempted(r, r', w, failSeq, i) && failSeq == SeqAfter(r, w, old(failSeq))
    {
      hide Chosen, Repick, Spills, Trues, Distinct, Noted, Holds;
      i := PICK_NONE;
      if w.aborted {
        r' := End(r, Aborted);
        return;
      }
      if !w.clockValid {
        r' := End(r, ClockInvalid);
        return;
      }
      var c := Choose(r.held, r.key, w);
      i := c;
      if c == PICK_NONE {
        r' := End(r, if r.held == [] then NoEndpoint else LastError);
        return;
      }
      r' := Dispatch(r, w, c);
    }

    /** Count and note one dispatch; a throwing note ends the run, releasing the count but sending no note(-1). */
    method Dispatch(r: Run, w: World, c: nat) returns (r': Run)
      requires Backed(r) && |r.held| < r.tries && c < inflight.Length && c !in r.held
      modifies inflight, this`total
      ensures WellFormed(r', inflight.Length, notes) && r'.tries == r.tries && r'.key == r.key
      ensures forall k :: 0 <= k < inflight.Length ==> inflight[k] == old(inflight[k]) + Holds(r', k) - Holds(r, k)
      ensures total == old(total) + Noted(r') - Noted(r) && r'.held == r.held + [c]
      ensures if notes && w.noteThrows then r'.phase == Ended(NoteFailed) else r'.phase.Awaiting?
    {
      NotesWithout(r);
      var raised := Raise(r, c, notes && !w.noteThrows);
      RaiseSound(r, c, notes && !w.noteThrows, inflight.Length);
      inflight[c] := inflight[c] + 1;
      if notes && w.noteThrows {
        r' := Finish(raised, NoteFailed);
        return;
      }
      if notes { total := Clamped(total + 1); }
      r' := raised;
    }

    /** `run(fn, opts)`: the first attempt, up to its await or its end. */
    method Begin(tries: nat, key: Key, w: World) returns (id: nat, ghost i: int)
      requires Valid() && 1 <= tries && ValidWorld(w, inflight.Length)
      modifies inflight, this`total, this`failSeq, this`runs
      ensures Valid() && base == old(base) && noteBase == old(noteBase)
      ensures id == |old(runs)| && |runs| == id + 1 && runs[..id] == old(runs)
      ensures runs[id].tries == tries && runs[id].key == key && |runs[id].held| <= 1
      ensures Attempted(Run(tries, key, [], [], Awaiting), runs[id], w, failSeq, i) && failSeq == old(failSeq)
    {
      id := |runs|;
      var blank := Run(tries, key, [], [], Ended(NoEndpoint));
      BooksBegin(inflight[..], base, total, noteBase, notes, runs, blank);
      ghost var before, total0 := inflight[..], total;
      var r;
      r, i := Attempt(blank.(phase := Awaiting), w);
      BooksStep(before, inflight[..], base, total0, total, noteBase, notes, runs + [blank], id, r);
      assert (runs + [blank])[id := r] == runs + [r];
      runs := runs + [r];
    }

    /**
     `fn` of run `id` settles. A success or a feedback failure ends the run: nothing is dispatched after fn
     has resolved. A failure keeps every count the run holds and tries one more endpoint while tries remain.
     */
    method Settle(id: nat, ok: bool, abortedNow: bool, feedbackOk: bool, w: World) returns (ghost i: int)
      requires Valid() && id < |runs| && runs[id].phase.Awaiting? && ValidWorld(w, inflight.Length)
      modifies inflight, this`total, this`failSeq, this`runs
      ensures Valid() && base == old(base) && noteBase == old(noteBase)
      ensures |runs| == |old(runs)| && forall j :: 0 <= j < |runs| && j != id ==> runs[j] == old(runs[j])
      ensures runs[id].tries == old(runs[id].tries) && runs[id].key == old(runs[id].key) && old(runs[id].held) <= runs[id].held
      ensures ok ==> runs[id] == old(runs[id]).(phase := Ended(if feedbackOk then Resolved else FeedbackFailed))
      ensures !ok && (abortedNow || !feedbackOk || |old(runs[id].held)| == runs[id].tries) ==>
        runs[id] == old(runs[id]).(phase := Ended(if abortedNow then Aborted else LastError))
      ensures runs[id].phase.Awaiting? ==> |runs[id].held| == |old(runs[id].held)| + 1
      ensures !ok && !abortedNow && feedbackOk && |old(runs[id].held)| < runs[id].tries ==>
        Attempted(old(runs[id]), runs[id], w, failSeq, i) && failSeq == SeqAfter(old(runs[id]), w, old(failSeq))
    {
      hide Holding, Notes, Trues, Distinct, Noted, Holds;
      var r := runs[id];
      RunIsBacked(id);
      ghost var before, total0 := inflight[..], total;
      var r';
      i := PICK_NONE;
      if ok {
        r' := End(r, if feedbackOk then Resolved else FeedbackFailed);
      } else if abortedNow {
        r' := End(r, Aborted);
      } else if !feedbackOk || |r.held| >= r.tries {
        r' := End(r, LastError);
      } else {
        r', i := Attempt(r, w);
      }
      BooksStep(before, inflight[..], base, total0, total, noteBase, notes, runs, id, r');
      runs := runs[id := r'];
    }

    /** Another writer of the shared view moves a count it accounts for. */
    method CallerAdjust(i: nat, delta: int)
      requires Valid() && i < inflight.Length && base[i] + delta >= 0
      modifies inflight, this`base
      ensures Valid() && runs == old(runs) && base == old(base)[i := old(base)[i] + delta]
    {
      HoldingAtLeastZero(i);
      base := base[i := base[i] + delta];
      inflight[i] := inflight[i] + delta;
    }

    /** And notes the move, as it must while the balancer takes notes. */
    method CallerNote(delta: int)
      requires Valid() && notes && noteBase + delta >= 0
      modifies this`total, this`noteBase
      ensures Valid() && runs == old(runs) && noteBase == old(noteBase) + delta && total == old(total) + delta
    {
      total := Clamped(total + delta);
      noteBase := noteBase + delta;
    }

    /** The two in lockstep: base and note stay in step, so the total stays the sum of inflight. */
    method CallerMove(i: nat, delta: int)
      requires Valid() && notes && i < inflight.Length && base[i] + delta >= 0 && noteBase == Sum(base)
      modifies inflight, this`base, this`total, this`noteBase
      ensures Valid() && runs == old(runs) && base == old(base)[i := old(base)[i] + delta]
      ensures noteBase == Sum(base) && total == Sum(inflight[..])
    {
      SumUpdate(base, i, base[i] + delta);
      CallerAdjust(i, delta);
      SumToNonNegative(base, |base|);
      CallerNote(delta);
      TotalIsSum(inflight[..], base, total, noteBase, runs);
    }

    lemma HoldingAtLeastZero(i: nat)
      requires Valid() && i < inflight.Length
      ensures inflight[i] >= base[i]
    {
    }

    /** The counters cover what an awaiting run holds, so no release clamps. */
    lemma RunIsBacked(id: nat)
      requires Valid() && id < |runs| && runs[id].phase.Awaiting?
      ensures Backed(runs[id])
    {
      forall k | 0 <= k < |runs[id].held|
        ensures inflight[runs[id].held[k]] > 0
      {
        HoldingAtLeast(runs, |runs|, id, runs[id].held[k]);
      }
      HoldingAtLeast(runs, |runs|, id, 0);
    }

    lemma NotesWithout(r: Run)
      requires forall k :: 0 <= k < |r.landed| ==> r.landed[k] == notes
      ensures !notes ==> Trues(r.landed) == 0
    {
      if !notes { NoneTrue(r.landed); }
    }
  }

  /** The run with one more dispatch, to c. */
  function Raise(r: Run, c: nat, landed: bool): Run {
    r.(held := r.held + [c], landed := r.landed + [landed])
  }

  lemma RaiseSound(r: Run, c: nat, landed: bool, cap: nat)
    requires Sound(r, cap) && |r.held| < r.tries && c < cap && c !in r.held
    ensures var q := Raise(r, c, landed);
      && Sound(q, cap) && Trues(q.landed) == Trues(r.landed) + (if landed then 1 else 0)
      && forall i :: i in q.held <==> i in r.held || i == c
  {
    assert (r.landed + [landed])[..|r.landed|] == r.landed;
  }

  lemma {:induction false} NoneTrue(s: seq<bool>)
    requires forall k :: 0 <= k < |s| ==> !s[k]
    ensures Trues(s) == 0
  {
    if s != [] { NoneTrue(s[..|s| - 1]); }
  }

  lemma ReleaseNext(r: Run, k: nat)
    requires k < |r.held| == |r.landed| && Distinct(r.held)
    ensures r.held[k] !in r.held[..k] && r.held[..k + 1] == r.held[..k] + [r.held[k]]
    ensures Trues(r.landed[..k + 1]) == Trues(r.landed[..k]) + (if r.landed[k] then 1 else 0) <= Trues(r.landed)
  {
    assert r.landed[..k + 1][..k] == r.landed[..k];
    TruesPrefix(r.landed, k + 1);
  }

  lemma {:induction false} TruesPrefix(s: seq<bool>, k: nat)
    requires k <= |s|
    ensures Trues(s[..k]) <= Trues(s)
    decreases |s|
  {
    if k < |s| {
      assert s[..|s| - 1][..k] == s[..k];
      TruesPrefix(s[..|s| - 1], k);
    } else {
      assert s[..k] == s;
    }
  }
}
