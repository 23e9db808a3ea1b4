/**
 Engine A's request table as a value: slots, the free list, the counters, and a log with one ticket per
 admitted request. Each function is what one step of the engine does to it; each step keeps the invariant.
 */
module RequestTable {
  import opened Seqs
  import opened Arith
  import opened Eligibility

  /** How an admitted request ends. */
  datatype Outcome = Served | Lost | Shed

  datatype Ending = Running(slot: nat) | Ended(outcome: Outcome)

  /** Posts tried, posts a worker accepted, and whether it ever met an obstacle other than a full queue. */
  datatype Ticket = Ticket(posts: nat, accepted: nat, obstructed: bool, end: Ending)

  datatype Counters = Counters(arrived: nat, ok: nat, failed: nat, shed: nat, drained: nat, none: nat, refused: nat, failover: nat)

  /**
   `at[r]`: the worker request r is posted on, or -1. `id[r]`: its ticket, or -1 for a free slot. `others` and
   `elsewhere`: what the other engine and the admission door account for.
   */
  datatype Table = Table(
    free: seq<nat>, tries: seq<nat>, first: seq<int>, ran: seq<bool>, capOnly: seq<bool>, inflight: seq<nat>, c: Counters, pendingB: nat,
    at: seq<int>, id: seq<int>, tickets: seq<Ticket>, others: seq<nat>, elsewhere: Counters)

  /** The fixed sizes: slots, workers, and posts per request. */
  datatype Config = Config(R: nat, n: nat, tries: nat)

  function MaxPosts(g: Config): (m: nat) {
    if g.tries < 1 then 1 else g.tries
  }

  // ---- the invariant -----------------------------------------------------------------------

  ghost predicate Sizes(t: Table, g: Config) {
    && |t.tries| == |t.first| == |t.ran| == |t.capOnly| == |t.at| == |t.id| == g.R
    && |t.inflight| == |t.others| == g.n
  }

  /** The free list and the active slots partition the table. */
  ghost predicate FreeList(t: Table, g: Config)
    requires Sizes(t, g)
  {
    && (forall j :: 0 <= j < |t.free| ==> t.free[j] < g.R && t.id[t.free[j]] == -1)
    && (forall j, k :: 0 <= j < k < |t.free| ==> t.free[j] != t.free[k])
    && (forall r :: 0 <= r < g.R && t.id[r] == -1 ==> r in t.free)
    && |t.free| <= g.R
  }

  /**
   A slot is free, or runs its own ticket; it is posted on one worker, its first one if it was posted once,
   unless it is the one in hand.
   */
  ghost predicate SlotOk(t: Table, g: Config, r: nat, hand: int)
    requires Sizes(t, g) && r < g.R
  {
    if t.id[r] < 0 then t.id[r] == -1 && t.at[r] == -1 && r != hand
    else
      && t.id[r] < |t.tickets|
      && var k := t.tickets[t.id[r]];
      && k.end == Running(r) && k.posts == t.tries[r] && (0 < k.accepted <==> t.ran[r]) && (k.obstructed <==> !t.capOnly[r])
      && if r == hand then t.at[r] == -1 && (t.tries[r] == 0 ==> t.first[r] < 0)
         else 0 <= t.at[r] < g.n && t.ran[r] && (t.tries[r] == 1 ==> t.first[r] == t.at[r])
  }

  ghost predicate InHand(t: Table, g: Config, r: nat) {
    Sizes(t, g) && r < g.R && 0 <= t.id[r] < |t.tickets|
  }

  /** Posts stay within the limit, and a shed request never ran and only ever met full queues. */
  ghost predicate TicketOk(t: Table, g: Config, k: nat)
    requires Sizes(t, g) && k < |t.tickets|
  {
    && t.tickets[k].accepted <= t.tickets[k].posts <= MaxPosts(g)
    && match t.tickets[k].end
       case Running(r) => r < g.R && t.id[r] == k
       case Ended(Served) => 0 < t.tickets[k].accepted
       case Ended(Lost) => 0 < t.tickets[k].accepted || t.tickets[k].obstructed
       case Ended(Shed) => t.tickets[k].accepted == 0 && !t.tickets[k].obstructed
  }

  /** inflight[i] is the number of requests posted on worker i, plus the other engine's. */
  ghost predicate Loads(t: Table, g: Config)
    requires Sizes(t, g)
  {
    forall i :: 0 <= i < g.n ==> t.inflight[i] == t.others[i] + Count(t.at, i)
  }

  function Tally(tickets: seq<Ticket>, n: nat, o: Outcome): (k: nat)
    requires n <= |tickets|
  {
    if n == 0 then 0 else Tally(tickets, n - 1, o) + (if tickets[n - 1].end == Ended(o) then 1 else 0)
  }

  /** Each outcome is counted once per ended ticket. */
  ghost predicate Counted(t: Table) {
    && t.c.ok == Tally(t.tickets, |t.tickets|, Served) + t.elsewhere.ok
    && t.c.failed == Tally(t.tickets, |t.tickets|, Lost) + t.elsewhere.failed
    && t.c.shed == Tally(t.tickets, |t.tickets|, Shed) + t.elsewhere.shed
  }

  /** Conservation: every arrival is counted once or pending, and every ticket has ended once or holds a slot. */
  ghost predicate Conserved(t: Table, g: Config) {
    && t.c.arrived == t.c.ok + t.c.failed + t.c.shed + t.c.drained + (g.R - |t.free|) + t.pendingB
    && |t.tickets| == Ends(t.tickets) + (g.R - |t.free|)
  }

  function Ends(tickets: seq<Ticket>): (n: nat) {
    Tally(tickets, |tickets|, Served) + Tally(tickets, |tickets|, Lost) + Tally(tickets, |tickets|, Shed)
  }

  /** How many of the first n tickets have not ended. */
  function Active(tickets: seq<Ticket>, n: nat): (k: nat)
    requires n <= |tickets|
  {
    if n == 0 then 0 else Active(tickets, n - 1) + (if tickets[n - 1].end.Running? then 1 else 0)
  }

  lemma {:induction false} ActiveOrEnded(tickets: seq<Ticket>, n: nat)
    requires n <= |tickets|
    ensures Active(tickets, n) + Tally(tickets, n, Served) + Tally(tickets, n, Lost) + Tally(tickets, n, Shed) == n
  {
    if n > 0 {
      ActiveOrEnded(tickets, n - 1);
      var e := tickets[n - 1].end;
      if e.Ended? { assert e.outcome == Served || e.outcome == Lost || e.outcome == Shed; }
    }
  }

  /** Between events no request is in hand (-1); inside one, slot `hand` is. */
  ghost predicate Inv(t: Table, g: Config, hand: int) {
    && Sizes(t, g) && FreeList(t, g) && -1 <= hand < g.R && (0 <= hand ==> InHand(t, g, hand))
    && (forall r :: 0 <= r < g.R ==> SlotOk(t, g, r, hand))
    && (forall k :: 0 <= k < |t.tickets| ==> TicketOk(t, g, k))
    && Loads(t, g) && Counted(t) && Conserved(t, g)
  }

  /** Only ticket k differs. */
  ghost predicate OnlyTicket(before: seq<Ticket>, after: seq<Ticket>, k: int) {
    |after| == |before| && forall j :: 0 <= j < |before| && j != k ==> after[j] == before[j]
  }

  lemma {:induction false} TallyUpdate(tickets: seq<Ticket>, n: nat, k: nat, x: Ticket, o: Outcome)
    requires n <= |tickets| && k < |tickets|
    ensures Tally(tickets[k := x], n, o) ==
      Tally(tickets, n, o) + (if k < n && x.end == Ended(o) then 1 else 0) - (if k < n && tickets[k].end == Ended(o) then 1 else 0)
  {
    if n > 0 { TallyUpdate(tickets, n - 1, k, x, o); }
  }

  lemma {:induction false} TallyPrefix(tickets: seq<Ticket>, more: seq<Ticket>, n: nat, o: Outcome)
    requires n <= |tickets|
    ensures Tally(tickets + more, n, o) == Tally(tickets, n, o)
  {
    if n > 0 { TallyPrefix(tickets, more, n - 1, o); }
  }

  // ---- the steps ---------------------------------------------------------------------------

  /** Take the top free slot for a new arrival. */
  ghost function Admit(t: Table, g: Config): (u: Table)
    requires Sizes(t, g) && 0 < |t.free| && t.free[|t.free| - 1] < g.R
  {
    var r := t.free[|t.free| - 1];
    t.(free := t.free[..|t.free| - 1], tries := t.tries[r := 0], first := t.first[r := -1], ran := t.ran[r := false],
       capOnly := t.capOnly[r := true], c := t.c.(arrived := t.c.arrived + 1),
       id := t.id[r := |t.tickets|], tickets := t.tickets + [Ticket(0, 0, false, Running(r))])
  }

  /** One post attempt of slot r, aimed at worker i. */
  ghost function Tried(t: Table, g: Config, r: nat, i: nat): (u: Table)
    requires InHand(t, g, r)
  {
    var k := t.tickets[t.id[r]];
    t.(tries := t.tries[r := t.tries[r] + 1], first := if t.first[r] < 0 then t.first[r := i] else t.first,
       tickets := t.tickets[t.id[r] := k.(posts := k.posts + 1)])
  }

  ghost function HasRun(t: Table, g: Config, r: nat): (u: Table)
    requires InHand(t, g, r)
  {
    var k := t.tickets[t.id[r]];
    t.(ran := t.ran[r := true], tickets := t.tickets[t.id[r] := k.(accepted := k.accepted + 1)])
  }

  /** Worker i takes slot r. */
  ghost function Accepted(t: Table, g: Config, r: nat, i: nat): (u: Table)
    requires InHand(t, g, r) && i < g.n
  {
    HasRun(t, g, r).(inflight := t.inflight[i := t.inflight[i] + 1], at := t.at[r := i])
  }

  /** A refused post; unless the worker was ready, the queue was not what stood in the way. */
  ghost function Refused(t: Table, g: Config, r: nat, ready: bool): (u: Table)
    requires InHand(t, g, r)
  {
    var u := t.(c := t.c.(refused := t.c.refused + 1));
    if ready then u else Obstructed(u, g, r)
  }

  ghost function Obstructed(t: Table, g: Config, r: nat): (u: Table)
    requires InHand(t, g, r)
  {
    t.(capOnly := t.capOnly[r := false], tickets := t.tickets[t.id[r] := t.tickets[t.id[r]].(obstructed := true)])
  }

  /** The post of slot r on worker i is over. */
  ghost function Unposted(t: Table, g: Config, r: nat, i: nat): (u: Table)
    requires Sizes(t, g) && r < g.R && i < g.n && 0 < t.inflight[i]
  {
    t.(inflight := t.inflight[i := t.inflight[i] - 1], at := t.at[r := -1])
  }

  function Verdict(t: Table, r: nat, ok: bool): (o: Outcome)
    requires r < |t.ran| == |t.capOnly|
  {
    if ok then Served else if !t.ran[r] && t.capOnly[r] then Shed else Lost
  }

  function CountOutcome(c: Counters, o: Outcome): (d: Counters) {
    match o
    case Served => c.(ok := c.ok + 1)
    case Lost => c.(failed := c.failed + 1)
    case Shed => c.(shed := c.shed + 1)
  }

  /** Slot r is done: count it once and free it. */
  ghost function Finished(t: Table, g: Config, r: nat, ok: bool): (u: Table)
    requires InHand(t, g, r)
  {
    var o := Verdict(t, r, ok);
    t.(free := t.free + [r], c := CountOutcome(t.c, o), id := t.id[r := -1],
       tickets := t.tickets[t.id[r] := t.tickets[t.id[r]].(end := Ended(o))])
  }

  // ---- every step keeps the invariant ------------------------------------------------------

  lemma AdmitKeeps(t: Table, g: Config)
    requires Inv(t, g, -1) && 0 < |t.free|
    ensures Inv(Admit(t, g), g, t.free[|t.free| - 1])
  {
    var u, r := Admit(t, g), t.free[|t.free| - 1];
    forall o: Outcome ensures Tally(u.tickets, |t.tickets|, o) == Tally(t.tickets, |t.tickets|, o) {
      TallyPrefix(t.tickets, [Ticket(0, 0, false, Running(r))], |t.tickets|, o);
    }
    forall s | 0 <= s < g.R && u.id[s] == -1 ensures s in u.free {
      assert s in t.free;
      var j :| 0 <= j < |t.free| && t.free[j] == s;
      assert u.free[j] == s;
    }
    forall k | 0 <= k < |u.tickets| ensures TicketOk(u, g, k) {
      if k < |t.tickets| { assert TicketOk(t, g, k); }
    }
    forall s | 0 <= s < g.R ensures SlotOk(u, g, s, r) {
      assert SlotOk(t, g, s, -1);
    }
  }

  /** The empty table: everything free, nothing posted, nothing counted. */
  lemma EmptyTable(t: Table, g: Config)
    requires Sizes(t, g) && |t.free| == g.R && t.inflight == t.others && t.tickets == [] && t.pendingB == 0
    requires t.c == t.elsewhere == Counters(0, 0, 0, 0, 0, 0, 0, 0)
    requires forall r :: 0 <= r < g.R ==> t.free[r] == g.R - 1 - r && t.at[r] == t.id[r] == -1
    ensures Inv(t, g, -1)
  {
    forall r | 0 <= r < g.R ensures r in t.free {
      assert t.free[g.R - 1 - r] == r;
    }
    forall i | 0 <= i < g.n ensures t.inflight[i] == t.others[i] + Count(t.at, i) {
      CountToZero(t.at, g.R, i);
    }
  }

  /** A change to the ticket in hand that leaves it running leaves the tallies alone. */
  lemma SameTallies(t: seq<Ticket>, k: nat, x: Ticket)
    requires k < |t| && t[k].end.Running? && x.end.Running?
    ensures forall o: Outcome :: Tally(t[k := x], |t|, o) == Tally(t, |t|, o)
  {
    forall o: Outcome ensures Tally(t[k := x], |t|, o) == Tally(t, |t|, o) {
      TallyUpdate(t, |t|, k, x, o);
    }
  }

  lemma TriedKeeps(t: Table, g: Config, r: nat, i: nat)
    requires Inv(t, g, r) && t.tries[r] < MaxPosts(g)
    ensures var u := Tried(t, g, r, i); Inv(u, g, r) && OnlyTicket(t.tickets, u.tickets, t.id[r]) && u.id == t.id && u.free == t.free
  {
    var u := Tried(t, g, r, i);
    assert SlotOk(t, g, r, r) && TicketOk(t, g, t.id[r]);
    SameTallies(t.tickets, t.id[r], u.tickets[t.id[r]]);
    ChangeInHand(t, u, g, r);
  }

  lemma RefusedKeeps(t: Table, g: Config, r: nat, ready: bool)
    requires Inv(t, g, r)
    ensures var u := Refused(t, g, r, ready); Inv(u, g, r) && OnlyTicket(t.tickets, u.tickets, t.id[r]) && u.id == t.id && u.free == t.free
  {
    var u := Refused(t, g, r, ready);
    assert SlotOk(t, g, r, r) && TicketOk(t, g, t.id[r]);
    SameTallies(t.tickets, t.id[r], u.tickets[t.id[r]]);
    if ready { assert t.tickets[t.id[r] := u.tickets[t.id[r]]] == t.tickets; }
    ChangeInHand(t, u, g, r);
  }

  lemma ObstructedKeeps(t: Table, g: Config, r: nat)
    requires Inv(t, g, r)
    ensures var u := Obstructed(t, g, r); Inv(u, g, r) && OnlyTicket(t.tickets, u.tickets, t.id[r]) && u.id == t.id && u.free == t.free
  {
    var u := Obstructed(t, g, r);
    assert SlotOk(t, g, r, r) && TicketOk(t, g, t.id[r]);
    SameTallies(t.tickets, t.id[r], u.tickets[t.id[r]]);
    ChangeInHand(t, u, g, r);
  }

  /** The frame of a step on the slot in hand: nothing but its own columns and ticket, which still agree. */
  lemma ChangeInHand(t: Table, u: Table, g: Config, r: nat)
    requires Inv(t, g, r) && Sizes(u, g) && |u.tickets| == |t.tickets|
    requires u.free == t.free && u.id == t.id && u.at == t.at && u.inflight == t.inflight && u.others == t.others
    requires u.pendingB == t.pendingB && u.elsewhere == t.elsewhere
    requires u.c == t.c.(refused := u.c.refused)
    requires forall s :: 0 <= s < g.R && s != r ==>
      && u.tries[s] == t.tries[s] && u.first[s] == t.first[s] && u.ran[s] == t.ran[s] && u.capOnly[s] == t.capOnly[s]
    requires u.tickets == t.tickets[t.id[r] := u.tickets[t.id[r]]]
    requires forall o: Outcome :: Tally(u.tickets, |t.tickets|, o) == Tally(t.tickets, |t.tickets|, o)
    requires SlotOk(u, g, r, r) && TicketOk(u, g, t.id[r])
    ensures Inv(u, g, r)
  {
    assert SlotOk(t, g, r, r);
    forall s | 0 <= s < g.R ensures SlotOk(u, g, s, r) {
      assert SlotOk(t, g, s, r);
    }
    forall k | 0 <= k < |u.tickets| ensures TicketOk(u, g, k) {
      assert TicketOk(t, g, k);
    }
  }

  lemma AcceptedKeeps(t: Table, g: Config, r: nat, i: nat)
    requires Inv(t, g, r) && i < g.n && t.tickets[t.id[r]].accepted < t.tickets[t.id[r]].posts
    requires t.tries[r] == 1 ==> t.first[r] == i
    ensures var u := Accepted(t, g, r, i); Inv(u, g, -1) && OnlyTicket(t.tickets, u.tickets, t.id[r])
  {
    var u := Accepted(t, g, r, i);
    assert SlotOk(t, g, r, r) && TicketOk(t, g, t.id[r]);
    SameTallies(t.tickets, t.id[r], u.tickets[t.id[r]]);
    forall s | 0 <= s < g.R ensures SlotOk(u, g, s, -1) {
      assert SlotOk(t, g, s, r);
    }
    forall k | 0 <= k < |u.tickets| ensures TicketOk(u, g, k) {
      assert TicketOk(t, g, k);
    }
    forall j | 0 <= j < g.n ensures u.inflight[j] == u.others[j] + Count(u.at, j) {
      CountUpdate(t.at, r, i, j);
    }
  }

  lemma UnpostedKeeps(t: Table, g: Config, r: nat, i: nat)
    requires Inv(t, g, -1) && r < g.R && i < g.n && t.at[r] == i
    ensures 0 < t.inflight[i] && Inv(Unposted(t, g, r, i), g, r)
  {
    assert SlotOk(t, g, r, -1) && TicketOk(t, g, t.id[r]);
    CountToZero(t.at, g.R, i);
    var u := Unposted(t, g, r, i);
    forall s | 0 <= s < g.R ensures SlotOk(u, g, s, r) {
      assert SlotOk(t, g, s, -1);
    }
    forall k | 0 <= k < |u.tickets| ensures TicketOk(u, g, k) {
      assert TicketOk(t, g, k);
    }
    forall j | 0 <= j < g.n ensures u.inflight[j] == u.others[j] + Count(u.at, j) {
      CountUpdate(t.at, r, -1, j);
    }
  }

  lemma FinishedKeeps(t: Table, g: Config, r: nat, ok: bool)
    requires Inv(t, g, r) && (ok ==> t.ran[r])
    ensures var u := Finished(t, g, r, ok);
      && Inv(u, g, -1) && OnlyTicket(t.tickets, u.tickets, t.id[r]) && u.tickets[t.id[r]].end == Ended(Verdict(t, r, ok))
  {
    var u := Finished(t, g, r, ok);
    assert SlotOk(t, g, r, r) && TicketOk(t, g, t.id[r]);
    forall o: Outcome
      ensures Tally(u.tickets, |t.tickets|, o) == Tally(t.tickets, |t.tickets|, o) + (if o == Verdict(t, r, ok) then 1 else 0)
    {
      TallyUpdate(t.tickets, |t.tickets|, t.id[r], u.tickets[t.id[r]], o);
    }
    forall s | 0 <= s < g.R ensures SlotOk(u, g, s, -1) {
      assert SlotOk(t, g, s, r);
    }
    forall k | 0 <= k < |u.tickets| ensures TicketOk(u, g, k) {
      assert TicketOk(t, g, k);
    }
    FreedList(t, u, g, r);
  }

  lemma FreedList(t: Table, u: Table, g: Config, r: nat)
    requires Sizes(t, g) && Sizes(u, g) && FreeList(t, g) && r < g.R && t.id[r] >= 0
    requires u.free == t.free + [r] && u.id == t.id[r := -1]
    ensures FreeList(u, g)
  {
    FreeSize(u.free, g.R);
  }

  /** While a slot is in hand the free list is not full. */
  lemma RoomToFree(t: Table, g: Config, r: nat)
    requires Inv(t, g, r)
    ensures |t.free| < g.R
  {
    FreeSize(t.free + [r], g.R);
  }

  /** Distinct slots below R are at most R. */
  lemma {:induction false} FreeSize(free: seq<nat>, R: nat)
    requires forall j :: 0 <= j < |free| ==> free[j] < R
    requires forall j, k :: 0 <= j < k < |free| ==> free[j] != free[k]
    ensures |free| <= R
    decreases R
  {
    assert |free| == 0 || free[0] < R;
    if R > 0 && R - 1 in free {
      var j :| 0 <= j < |free| && free[j] == R - 1;
      FreeSize(free[..j] + free[j + 1..], R - 1);
    } else if R > 0 {
      FreeSize(free, R - 1);
    }
  }

  // ---- one event ---------------------------------------------------------------------------

  /** What one event sees: the balancer's pick, and per worker its eligibility, room, answer to a post, and readiness. */
  datatype Scene = Scene(pick: int, up: seq<bool>, room: seq<bool>, accepts: seq<bool>, ready: seq<bool>)

  ghost predicate ValidScene(w: Scene, g: Config) {
    && |w.up| == |w.room| == |w.accepts| == |w.ready| == g.n
    && (w.pick == PICK_NONE || (0 <= w.pick < g.n && w.up[w.pick]))
  }

  /** The k-th worker after `avoid`, wrapping. */
  function After(avoid: nat, k: nat, n: nat): (j: nat)
    requires avoid < n && k < n
    ensures j < n && (j == avoid <==> k == 0)
  {
    if avoid + k < n then avoid + k else avoid + k - n
  }

  lemma AfterWraps(avoid: nat, k: nat, n: nat)
    requires avoid < n && k < n
    ensures After(avoid, k, n) == (avoid + k) % n
  {
    var q := if avoid + k < n then 0 else 1;
    ModUnique(avoid + k, n, q, After(avoid, k, n));
  }

  /** The first eligible worker with room at distance k or more after `avoid`, or none. */
  function Other(w: Scene, n: nat, avoid: nat, k: nat): (j: int)
    requires avoid < n && 1 <= k <= n == |w.up| == |w.room|
    ensures j == PICK_NONE || (0 <= j < n && j != avoid && w.up[j] && w.room[j])
    decreases n - k
  {
    if k == n then PICK_NONE
    else if w.up[After(avoid, k, n)] && w.room[After(avoid, k, n)] then After(avoid, k, n)
    else Other(w, n, avoid, k + 1)
  }

  /** There is none exactly when every other eligible worker is full. */
  lemma {:induction false} OtherIsNone(w: Scene, n: nat, avoid: nat, k: nat)
    requires avoid < n && 1 <= k <= n == |w.up| == |w.room|
    ensures Other(w, n, avoid, k) == PICK_NONE <==> forall d :: k <= d < n ==> !(w.up[After(avoid, d, n)] && w.room[After(avoid, d, n)])
    decreases n - k
  {
    if k < n { OtherIsNone(w, n, avoid, k + 1); }
  }

  /** And otherwise it is the nearest of those with room. */
  lemma {:induction false} OtherIsNearest(w: Scene, n: nat, avoid: nat, k: nat) returns (d: nat)
    requires avoid < n && 1 <= k <= n == |w.up| == |w.room| && Other(w, n, avoid, k) != PICK_NONE
    ensures k <= d < n && Other(w, n, avoid, k) == After(avoid, d, n)
    ensures forall e :: k <= e < d ==> !(w.up[After(avoid, e, n)] && w.room[After(avoid, e, n)])
    decreases n - k
  {
    if w.up[After(avoid, k, n)] && w.room[After(avoid, k, n)] {
      d := k;
    } else {
      d := OtherIsNearest(w, n, avoid, k + 1);
    }
  }

  ghost function Failover(t: Table): (u: Table) {
    t.(c := t.c.(failover := t.c.failover + 1))
  }

  /** Post slot r on worker i; a refusal reroutes to another worker with room while tries remain. */
  ghost function Post(t: Table, g: Config, r: nat, i: nat, w: Scene): (u: Table)
    requires InHand(t, g, r) && i < g.n && ValidScene(w, g)
    decreases g.tries - t.tries[r]
  {
    var t1 := Tried(t, g, r, i);
    if w.accepts[i] then Accepted(t1, g, r, i)
    else
      var t2 := Refused(t1, g, r, w.ready[i]);
      var j := if t2.tries[r] < g.tries then Other(w, g.n, i, 1) else PICK_NONE;
      if j >= 0 then Post(Failover(t2), g, r, j, w) else Finished(t2, g, r, false)
  }

  /** Pick a worker for slot r; a retry that lands on its first worker again must go to another. */
  ghost function Dispatch(t: Table, g: Config, r: nat, w: Scene): (u: Table)
    requires InHand(t, g, r) && ValidScene(w, g)
  {
    if w.pick < 0 then
      var t1 := if t.tries[r] == 0 then Obstructed(t, g, r) else t;
      Finished(t1.(c := t1.c.(none := t1.c.none + 1)), g, r, false)
    else if t.tries[r] > 0 && w.pick == t.first[r] then
      var j := Other(w, g.n, w.pick, 1);
      if j < 0 then Finished(t.(c := t.c.(refused := t.c.refused + 1)), g, r, false) else Post(t, g, r, j, w)
    else Post(t, g, r, w.pick, w)
  }

  /** A worker's answer: done, failed for good because the set is disposed, or failed. */
  datatype Answer = Done | Disposed | FailedAttempt

  ghost function Settled(t: Table, g: Config, r: nat, i: nat, a: Answer, w: Scene): (u: Table)
    requires InHand(t, g, r) && i < g.n && 0 < t.inflight[i] && ValidScene(w, g)
  {
    Concluded(Unposted(t, g, r, i), g, r, a, w)
  }

  ghost function Concluded(t: Table, g: Config, r: nat, a: Answer, w: Scene): (u: Table)
    requires InHand(t, g, r) && ValidScene(w, g)
  {
    match a
    case Done => Finished(t, g, r, true)
    case Disposed => Finished(t, g, r, false)
    case FailedAttempt => if t.tries[r] < g.tries then Dispatch(Failover(t), g, r, w) else Finished(t, g, r, false)
  }

  lemma PostedHasTried(t: Table, g: Config, r: nat)
    requires Inv(t, g, -1) && r < g.R && t.at[r] >= 0
    ensures InHand(t, g, r) && 0 < t.tries[r]
  {
    assert SlotOk(t, g, r, -1);
    assert TicketOk(t, g, t.id[r]);
  }

  lemma ActiveHoldSlots(t: Table, g: Config)
    requires Inv(t, g, -1)
    ensures Active(t.tickets, |t.tickets|) == g.R - |t.free|
  {
    ActiveOrEnded(t.tickets, |t.tickets|);
  }

  /** A request's first worker is the one it was first posted to, whatever happens to it later. */
  lemma {:induction false} PostKeepsFirst(t: Table, g: Config, r: nat, i: nat, w: Scene)
    requires InHand(t, g, r) && i < g.n && ValidScene(w, g)
    ensures |Post(t, g, r, i, w).first| == g.R
    ensures forall s :: 0 <= s < g.R ==>
      Post(t, g, r, i, w).first[s] == if s == r && t.first[r] < 0 then i else t.first[s]
    decreases g.tries - t.tries[r]
  {
    PostUnfolds(t, g, r, i, w);
    if !w.accepts[i] {
      var u := Refused(Tried(t, g, r, i), g, r, w.ready[i]);
      RefusedMarks(t, g, r, i, w.ready[i]);
      if u.tries[r] < g.tries && Other(w, g.n, i, 1) >= 0 { PostKeepsFirst(Failover(u), g, r, Other(w, g.n, i, 1), w); }
    }
  }

  lemma SettledKeepsFirst(t: Table, g: Config, r: nat, i: nat, a: Answer, w: Scene)
    requires InHand(t, g, r) && i < g.n && 0 < t.inflight[i] && ValidScene(w, g) && 0 <= t.first[r]
    ensures Settled(t, g, r, i, a, w).first == t.first
  {
    var u := Failover(Unposted(t, g, r, i));
    if a.FailedAttempt? && w.pick >= 0 {
      PostKeepsFirst(u, g, r, w.pick, w);
      if Other(w, g.n, w.pick, 1) >= 0 { PostKeepsFirst(u, g, r, Other(w, g.n, w.pick, 1), w); }
    }
    hide Post;
  }

  /** The slot in hand is posted nowhere. */
  lemma HandIsOff(t: Table, g: Config, r: nat)
    requires Inv(t, g, r)
    ensures Sizes(t, g) && InHand(t, g, r) && t.at[r] == -1
  {
    assert SlotOk(t, g, r, r);
  }

  lemma FailoverKeeps(t: Table, u: Table, g: Config, hand: int)
    requires Inv(t, g, hand) && u == t.(c := t.c.(failover := u.c.failover, none := u.c.none, refused := u.c.refused))
    ensures Inv(u, g, hand)
  {
    forall s | 0 <= s < g.R ensures SlotOk(u, g, s, hand) {
      assert SlotOk(t, g, s, hand);
    }
    forall k | 0 <= k < |u.tickets| ensures TicketOk(u, g, k) {
      assert TicketOk(t, g, k);
    }
  }

  lemma TriedInHand(t: Table, g: Config, r: nat, i: nat)
    requires InHand(t, g, r)
    ensures InHand(Tried(t, g, r, i), g, r)
  {
  }

  lemma TriedFacts(t: Table, g: Config, r: nat, i: nat)
    requires Inv(t, g, r)
    ensures var u := Tried(t, g, r, i);
      && InHand(u, g, r) && u.tries[r] == t.tries[r] + 1 && u.id == t.id
      && u.tickets[u.id[r]].accepted < u.tickets[u.id[r]].posts && (u.tries[r] == 1 ==> u.first[r] == i)
  {
    assert TicketOk(t, g, t.id[r]) && SlotOk(t, g, r, r);
  }

  lemma RefusedFacts(t: Table, g: Config, r: nat, ready: bool)
    requires InHand(t, g, r)
    ensures var u := Refused(t, g, r, ready); InHand(u, g, r) && u.tries == t.tries && u.id == t.id
  {
  }

  lemma AfterRefusal(t: Table, g: Config, r: nat, i: nat, ready: bool)
    requires Inv(t, g, r) && t.tries[r] < MaxPosts(g)
    ensures InHand(Tried(t, g, r, i), g, r)
    ensures var u := Refused(Tried(t, g, r, i), g, r, ready);
      && Inv(u, g, r) && InHand(u, g, r) && u.tries[r] == t.tries[r] + 1 && |u.free| < g.R
      && Inv(Failover(u), g, r) && Failover(u).tries == u.tries
      && u.id == t.id && OnlyTicket(t.tickets, u.tickets, t.id[r])
  {
    TriedFacts(t, g, r, i);
    TriedKeeps(t, g, r, i);
    RefusedKeeps(Tried(t, g, r, i), g, r, ready);
    RefusedFacts(Tried(t, g, r, i), g, r, ready);
    RoomToFree(Refused(Tried(t, g, r, i), g, r, ready), g, r);
    FailoverKeeps(Refused(Tried(t, g, r, i), g, r, ready), Failover(Refused(Tried(t, g, r, i), g, r, ready)), g, r);
  }

  lemma PostUnfolds(t: Table, g: Config, r: nat, i: nat, w: Scene)
    requires InHand(t, g, r) && i < g.n && ValidScene(w, g)
    ensures InHand(Tried(t, g, r, i), g, r)
    ensures w.accepts[i] ==> Post(t, g, r, i, w) == Accepted(Tried(t, g, r, i), g, r, i)
    ensures !w.accepts[i] ==>
      var u := Refused(Tried(t, g, r, i), g, r, w.ready[i]);
      var j := if u.tries[r] < g.tries then Other(w, g.n, i, 1) else PICK_NONE;
      InHand(u, g, r) && Post(t, g, r, i, w) == if j >= 0 then Post(Failover(u), g, r, j, w) else Finished(u, g, r, false)
  {
  }

  /** One post of the slot in hand, and what is left to do if it is refused. */
  lemma PostStep(t: Table, g: Config, r: nat, i: nat, w: Scene)
    requires Inv(t, g, r) && i < g.n && ValidScene(w, g) && t.tries[r] < MaxPosts(g)
    ensures InHand(t, g, r) && t.at[r] == -1 && InHand(Tried(t, g, r, i), g, r)
    ensures w.accepts[i] ==> Post(t, g, r, i, w) == Accepted(Tried(t, g, r, i), g, r, i)
    ensures !w.accepts[i] ==>
      var u := Refused(Tried(t, g, r, i), g, r, w.ready[i]);
      var j := if u.tries[r] < g.tries then Other(w, g.n, i, 1) else PICK_NONE;
      && InHand(u, g, r) && |u.free| < g.R && u.tries[r] == t.tries[r] + 1 && u.at == t.at
      && if j < 0 then Post(t, g, r, i, w) == Finished(u, g, r, false)
         else Inv(Failover(u), g, r) && Failover(u).tries == u.tries && Post(t, g, r, i, w) == Post(Failover(u), g, r, j, w)
  {
    hide Inv, Post, Finished, Other, MaxPosts;
    HandIsOff(t, g, r);
    AfterRefusal(t, g, r, i, w.ready[i]);
    PostUnfolds(t, g, r, i, w);
  }

  lemma {:induction false} PostKeeps(t: Table, g: Config, r: nat, i: nat, w: Scene)
    requires Inv(t, g, r) && i < g.n && ValidScene(w, g) && t.tries[r] < MaxPosts(g)
    ensures var u := Post(t, g, r, i, w); Inv(u, g, -1) && OnlyTicket(t.tickets, u.tickets, t.id[r])
    decreases g.tries - t.tries[r]
  {
    assert InHand(t, g, r);
    hide Inv, Post, Tried, Refused, Accepted, Finished, Other;
    PostUnfolds(t, g, r, i, w);
    if w.accepts[i] {
      TriedFacts(t, g, r, i);
      TriedKeeps(t, g, r, i);
      AcceptedKeeps(Tried(t, g, r, i), g, r, i);
    } else {
      AfterRefusal(t, g, r, i, w.ready[i]);
      var u := Refused(Tried(t, g, r, i), g, r, w.ready[i]);
      var j := if u.tries[r] < g.tries then Other(w, g.n, i, 1) else PICK_NONE;
      if j >= 0 {
        PostKeeps(Failover(u), g, r, j, w);
      } else {
        FinishedKeeps(u, g, r, false);
      }
    }
  }

  /** Counting a failed dispatch attempt and finishing the request keeps the invariant. */
  lemma GiveUpKeeps(t: Table, u: Table, g: Config, r: nat)
    requires Inv(t, g, r) && u == t.(c := t.c.(none := u.c.none, refused := u.c.refused))
    ensures InHand(u, g, r)
    ensures var v := Finished(u, g, r, false); Inv(v, g, -1) && OnlyTicket(t.tickets, v.tickets, t.id[r])
  {
    FailoverKeeps(t, u, g, r);
    assert InHand(u, g, r);
    hide Inv, Finished;
    FinishedKeeps(u, g, r, false);
  }

  lemma NobodyKeeps(t: Table, g: Config, r: nat, w: Scene)
    requires Inv(t, g, r) && ValidScene(w, g) && w.pick < 0
    ensures var u := Dispatch(t, g, r, w); Inv(u, g, -1) && OnlyTicket(t.tickets, u.tickets, t.id[r])
  {
    ObstructedKeeps(t, g, r);
    var t1 := if t.tries[r] == 0 then Obstructed(t, g, r) else t;
    assert t1.id == t.id;
    hide Inv, Finished, Obstructed;
    GiveUpKeeps(t1, t1.(c := t1.c.(none := t1.c.none + 1)), g, r);
  }

  lemma DispatchKeeps(t: Table, g: Config, r: nat, w: Scene)
    requires Inv(t, g, r) && ValidScene(w, g) && t.tries[r] < MaxPosts(g)
    ensures var u := Dispatch(t, g, r, w); Inv(u, g, -1) && OnlyTicket(t.tickets, u.tickets, t.id[r])
  {
    assert InHand(t, g, r);
    hide Inv, Post, Finished, Other, Obstructed;
    if w.pick < 0 {
      NobodyKeeps(t, g, r, w);
    } else if t.tries[r] > 0 && w.pick == t.first[r] {
      var j := Other(w, g.n, w.pick, 1);
      if j < 0 {
        GiveUpKeeps(t, t.(c := t.c.(refused := t.c.refused + 1)), g, r);
      } else {
        PostKeeps(t, g, r, j, w);
      }
    } else {
      PostKeeps(t, g, r, w.pick, w);
    }
  }

  /** A failover on the last try, or with a single worker, does not go back to the request's first worker ... */
  lemma LastTryLeavesFirst(t: Table, g: Config, r: nat, w: Scene)
    requires InHand(t, g, r) && ValidScene(w, g) && 0 < t.tries[r] && t.at[r] == -1
    requires t.tries[r] + 1 >= g.tries || (g.n == 1 && t.first[r] == 0)
    ensures var u := Dispatch(t, g, r, w); |u.at| == g.R && (u.at[r] == -1 || u.at[r] != t.first[r])
  {
    hide Post;
    if w.pick >= 0 { PostUnfolds(t, g, r, w.pick, w); }
    if w.pick >= 0 && Other(w, g.n, w.pick, 1) >= 0 { PostUnfolds(t, g, r, Other(w, g.n, w.pick, 1), w); }
  }

  /** ... but with more tries left a refusal may reroute it back to its first worker. */
  lemma FailoverMayReturn(t: Table, g: Config, r: nat) returns (w: Scene)
    requires InHand(t, g, r) && 0 < t.tries[r] && 0 <= t.first[r] < g.n && 2 <= g.n
    requires t.tries[r] + 1 < g.tries
    ensures ValidScene(w, g) && |Dispatch(t, g, r, w).at| == g.R && Dispatch(t, g, r, w).at[r] == t.first[r]
  {
    hide Post;
    var f, p: nat := t.first[r], if t.first[r] == 0 then 1 else 0;
    var everyone, onlyFirst := seq(g.n, _ => true), seq(g.n, j => j == f);
    w := Scene(p, everyone, onlyFirst, onlyFirst, everyone);
    var d := if p < f then f - p else f + g.n - p;
    assert After(p, d, g.n) == f;
    OtherIsNone(w, g.n, p, 1);
    PostUnfolds(t, g, r, p, w);
    var u := Failover(Refused(Tried(t, g, r, p), g, r, true));
    assert Post(t, g, r, p, w) == Post(u, g, r, f, w);
    PostUnfolds(u, g, r, f, w);
  }

  /**
   A settle either ends its ticket or leaves it posted once more; a request that ran is never counted as shed,
   and no other ticket moves.
   */
  lemma SettledKeeps(t: Table, g: Config, r: nat, i: nat, a: Answer, w: Scene)
    requires Inv(t, g, -1) && r < g.R && i < g.n && t.at[r] == i && ValidScene(w, g)
    ensures InHand(t, g, r) && 0 < t.inflight[i]
    ensures var u := Settled(t, g, r, i, a, w);
      && Inv(u, g, -1) && OnlyTicket(t.tickets, u.tickets, t.id[r])
      && (a.Done? ==> u.tickets[t.id[r]].end == Ended(Served))
      && (a.Disposed? || (a.FailedAttempt? && t.tries[r] >= g.tries) ==> u.tickets[t.id[r]].end == Ended(Lost))
      && (a.FailedAttempt? && t.tries[r] < g.tries ==> u.c.failover > t.c.failover)
  {
    hide Dispatch, Finished;
    assert SlotOk(t, g, r, -1);
    UnpostedKeeps(t, g, r, i);
    var t1 := Unposted(t, g, r, i);
    if a.Done? {
      FinishedKeeps(t1, g, r, true);
    } else if a.Disposed? || t.tries[r] >= g.tries {
      FinishedKeeps(t1, g, r, false);
    } else {
      FailoverKeeps(t1, Failover(t1), g, r);
      DispatchKeeps(Failover(t1), g, r, w);
      DispatchAnswers(Failover(t1), g, r, w);
    }
  }

  /** Where request r is posted once its attempt on worker i has failed: a worker, or -1. */
  ghost function FailsOverTo(t: Table, g: Config, r: nat, i: nat, w: Scene): (j: int)
    requires Inv(t, g, -1) && r < g.R && i < g.n && t.at[r] == i && ValidScene(w, g)
    ensures -1 <= j < g.n
  {
    SettledKeeps(t, g, r, i, FailedAttempt, w);
    assert SlotOk(Settled(t, g, r, i, FailedAttempt, w), g, r, -1);
    Settled(t, g, r, i, FailedAttempt, w).at[r]
  }

  /** A scene that posts the request on worker i again when i is not its first worker. */
  lemma PickedAgain(t: Table, g: Config, r: nat, i: nat) returns (w: Scene)
    requires Inv(t, g, -1) && r < g.R && i < g.n && t.at[r] == i && t.tries[r] < g.tries && t.first[r] != i
    ensures ValidScene(w, g) && FailsOverTo(t, g, r, i, w) == i
  {
    var everyone := seq(g.n, _ => true);
    w := Scene(i, everyone, everyone, everyone, everyone);
    SettledKeeps(t, g, r, i, FailedAttempt, w);
    PostUnfolds(Failover(Unposted(t, g, r, i)), g, r, i, w);
  }

  /**
   Whatever the scene, a failover leaves the worker that has just failed if and only if that is the request's
   first worker and this is its last try (or there is no other worker at all).
   */
  lemma FailoverGoesElsewhere(t: Table, g: Config, r: nat, i: nat)
    requires Inv(t, g, -1) && r < g.R && i < g.n && t.at[r] == i && t.tries[r] < g.tries
    ensures (forall w :: ValidScene(w, g) ==> FailsOverTo(t, g, r, i, w) != i)
      <==> t.first[r] == i && (t.tries[r] + 1 >= g.tries || g.n == 1)
  {
    PostedHasTried(t, g, r);
    UnpostedKeeps(t, g, r, i);
    var t1 := Failover(Unposted(t, g, r, i));
    assert InHand(t1, g, r);
    hide Inv, Dispatch;
    if t.first[r] != i {
      var w := PickedAgain(t, g, r, i);
    } else if t.tries[r] + 1 >= g.tries || g.n == 1 {
      forall w | ValidScene(w, g) ensures FailsOverTo(t, g, r, i, w) != i {
        LastTryLeavesFirst(t1, g, r, w);
      }
    } else {
      var w := FailoverMayReturn(t1, g, r);
      assert FailsOverTo(t, g, r, i, w) == i;
    }
  }

  /** Under a limit of two tries every failover leaves the worker that has just failed. */
  lemma TwoTriesGoElsewhere(t: Table, g: Config, r: nat, i: nat, w: Scene)
    requires Inv(t, g, -1) && r < g.R && i < g.n && t.at[r] == i && t.tries[r] < g.tries <= 2 && ValidScene(w, g)
    ensures t.tries[r] == 1 && t.first[r] == i && FailsOverTo(t, g, r, i, w) != i
  {
    assert SlotOk(t, g, r, -1);
    PostedHasTried(t, g, r);
    FailoverGoesElsewhere(t, g, r, i);
  }

  /** An arrival that does not enter the table: drained, handed to the other engine, or shed. */
  function AtDoor(t: Table, draining: bool, handedOver: bool): (u: Table) {
    var c := t.c.(arrived := t.c.arrived + 1);
    if draining then t.(c := c.(drained := c.drained + 1))
    else if handedOver then t.(c := c, pendingB := t.pendingB + 1)
    else t.(c := c.(shed := c.shed + 1), elsewhere := t.elsewhere.(shed := t.elsewhere.shed + 1))
  }

  /** What becomes of an arrival; `full` says the system is at capacity. */
  ghost function Arrived(t: Table, g: Config, draining: bool, full: bool, engineB: bool, w: Scene): (u: Table)
    requires Inv(t, g, -1) && ValidScene(w, g)
  {
    if draining || full || engineB || t.free == [] then AtDoor(t, draining, !draining && !full && engineB) else Entered(t, g, w)
  }

  /** An arrival that takes a slot and is dispatched. */
  ghost function Entered(t: Table, g: Config, w: Scene): (u: Table)
    requires Inv(t, g, -1) && ValidScene(w, g) && t.free != []
  {
    AdmitKeeps(t, g);
    Dispatch(Admit(t, g), g, t.free[|t.free| - 1], w)
  }

  /** An arrival opens one ticket if it is admitted here, and moves no other. */
  lemma ArrivedKeeps(t: Table, g: Config, draining: bool, full: bool, engineB: bool, w: Scene)
    requires Inv(t, g, -1) && ValidScene(w, g)
    ensures var u := Arrived(t, g, draining, full, engineB, w);
      && Inv(u, g, -1) && u.c.arrived == t.c.arrived + 1
      && |u.tickets| == |t.tickets| + (if draining || full || engineB || t.free == [] then 0 else 1)
      && u.tickets[..|t.tickets|] == t.tickets
  {
    hide Dispatch;
    if !draining && !full && !engineB && t.free != [] {
      AdmitKeeps(t, g);
      var a, r := Admit(t, g), t.free[|t.free| - 1];
      DispatchKeeps(a, g, r, w);
      DispatchCounts(a, g, r, w);
    } else {
      var u := Arrived(t, g, draining, full, engineB, w);
      forall s | 0 <= s < g.R ensures SlotOk(u, g, s, -1) {
        assert SlotOk(t, g, s, -1);
      }
      forall k | 0 <= k < |u.tickets| ensures TicketOk(u, g, k) {
        assert TicketOk(t, g, k);
      }
    }
  }

  /** Posted where nobody accepts, a request that never ran is shed if only full queues stood in its way ... */
  lemma {:induction false} PostNowhere(t: Table, g: Config, r: nat, i: nat, w: Scene)
    requires InHand(t, g, r) && i < g.n && ValidScene(w, g) && !t.ran[r] && forall j :: 0 <= j < g.n ==> !w.accepts[j]
    ensures var u := Post(t, g, r, i, w);
      && |u.tickets| == |t.tickets|
      && (t.capOnly[r] && (forall j :: 0 <= j < g.n ==> w.ready[j]) ==> u.tickets[t.id[r]].end == Ended(Shed))
      && (!t.capOnly[r] || !w.ready[i] ==> u.tickets[t.id[r]].end == Ended(Lost))
    decreases g.tries - t.tries[r]
  {
    PostUnfolds(t, g, r, i, w);
    var u := Refused(Tried(t, g, r, i), g, r, w.ready[i]);
    RefusedMarks(t, g, r, i, w.ready[i]);
    hide Post, Refused, Tried;
    if u.tries[r] < g.tries && Other(w, g.n, i, 1) >= 0 { PostNowhere(Failover(u), g, r, Other(w, g.n, i, 1), w); }
  }

  lemma RefusedMarks(t: Table, g: Config, r: nat, i: nat, ready: bool)
    requires InHand(t, g, r)
    ensures InHand(Tried(t, g, r, i), g, r)
    ensures var u := Refused(Tried(t, g, r, i), g, r, ready);
      && InHand(u, g, r) && u.id == t.id && u.ran == t.ran && |u.tickets| == |t.tickets| && u.tries[r] == t.tries[r] + 1
      && u.capOnly[r] == (t.capOnly[r] && ready)
  {
  }

  /** ... so an arrival whom nobody serves is shed when every worker is ready, and lost when nobody is eligible or its worker is not. */
  lemma ShedMeansFull(t: Table, g: Config, w: Scene)
    requires Inv(t, g, -1) && ValidScene(w, g) && t.free != [] && forall j :: 0 <= j < g.n ==> !w.accepts[j]
    ensures var u := Entered(t, g, w);
      && |u.tickets| == |t.tickets| + 1
      && (w.pick >= 0 && (forall j :: 0 <= j < g.n ==> w.ready[j]) ==> u.tickets[|t.tickets|].end == Ended(Shed))
      && (w.pick < 0 || !w.ready[w.pick] ==> u.tickets[|t.tickets|].end == Ended(Lost))
  {
    AdmitKeeps(t, g);
    AdmitCounts(t, g);
    var a, r := Admit(t, g), t.free[|t.free| - 1];
    hide Inv, Post;
    if w.pick >= 0 { PostNowhere(a, g, r, w.pick, w); }
  }

  /** A dispatch counts no arrival, and raises only the load of eligible workers. */
  lemma {:induction false} PostCounts(t: Table, g: Config, r: nat, i: nat, w: Scene)
    requires InHand(t, g, r) && i < g.n && ValidScene(w, g) && w.up[i]
    ensures var u := Post(t, g, r, i, w);
      && u.c.arrived == t.c.arrived && |u.inflight| == g.n
      && forall j :: 0 <= j < g.n && u.inflight[j] > t.inflight[j] ==> w.up[j]
    decreases g.tries - t.tries[r]
  {
    PostUnfolds(t, g, r, i, w);
    if !w.accepts[i] {
      var u := Refused(Tried(t, g, r, i), g, r, w.ready[i]);
      if u.tries[r] < g.tries && Other(w, g.n, i, 1) >= 0 { PostCounts(Failover(u), g, r, Other(w, g.n, i, 1), w); }
    }
  }

  lemma DispatchCounts(t: Table, g: Config, r: nat, w: Scene)
    requires InHand(t, g, r) && ValidScene(w, g)
    ensures var u := Dispatch(t, g, r, w);
      && u.c.arrived == t.c.arrived && |u.inflight| == g.n
      && forall j :: 0 <= j < g.n && u.inflight[j] > t.inflight[j] ==> w.up[j]
  {
    hide Post;
    if w.pick >= 0 {
      PostCounts(t, g, r, w.pick, w);
      if Other(w, g.n, w.pick, 1) >= 0 { PostCounts(t, g, r, Other(w, g.n, w.pick, 1), w); }
    }
  }

  // ---- what the attempt counters count -----------------------------------------------------

  function Posts(tickets: seq<Ticket>, n: nat): (k: nat)
    requires n <= |tickets|
  {
    if n == 0 then 0 else Posts(tickets, n - 1) + tickets[n - 1].posts
  }

  function Taken(tickets: seq<Ticket>, n: nat): (k: nat)
    requires n <= |tickets|
  {
    if n == 0 then 0 else Taken(tickets, n - 1) + tickets[n - 1].accepted
  }

  lemma {:induction false} PostsUpdate(tickets: seq<Ticket>, n: nat, k: nat, x: Ticket)
    requires n <= |tickets| && k < |tickets|
    ensures Posts(tickets[k := x], n) == Posts(tickets, n) + (if k < n then x.posts - tickets[k].posts else 0)
    ensures Taken(tickets[k := x], n) == Taken(tickets, n) + (if k < n then x.accepted - tickets[k].accepted else 0)
  {
    if n > 0 { PostsUpdate(tickets, n - 1, k, x); }
  }

  lemma {:induction false} PostsPrefix(tickets: seq<Ticket>, more: seq<Ticket>, n: nat)
    requires n <= |tickets|
    ensures Posts(tickets + more, n) == Posts(tickets, n) && Taken(tickets + more, n) == Taken(tickets, n)
  {
    if n > 0 { PostsPrefix(tickets, more, n - 1); }
  }

  /** Attempts begun, one per ticket and one per failover, less those that found nobody, were refused, or were taken. */
  function Pending(t: Table): (k: int) {
    |t.tickets| + t.c.failover - t.c.none - t.c.refused - Taken(t.tickets, |t.tickets|)
  }

  /** Refusals counted beyond those of posts: failovers for which every other worker was full. */
  function NoRoom(t: Table): (k: int) {
    t.c.refused - (Posts(t.tickets, |t.tickets|) - Taken(t.tickets, |t.tickets|))
  }

  lemma TriedCounts(t: Table, g: Config, r: nat, i: nat)
    requires InHand(t, g, r)
    ensures var u := Tried(t, g, r, i); Pending(u) == Pending(t) && NoRoom(u) == NoRoom(t) - 1
  {
    PostsUpdate(t.tickets, |t.tickets|, t.id[r], Tried(t, g, r, i).tickets[t.id[r]]);
  }

  lemma AcceptedCounts(t: Table, g: Config, r: nat, i: nat)
    requires InHand(t, g, r) && i < g.n
    ensures var u := Accepted(t, g, r, i); Pending(u) == Pending(t) - 1 && NoRoom(u) == NoRoom(t) + 1
  {
    PostsUpdate(t.tickets, |t.tickets|, t.id[r], HasRun(t, g, r).tickets[t.id[r]]);
  }

  lemma ObstructedCounts(t: Table, g: Config, r: nat)
    requires InHand(t, g, r)
    ensures var u := Obstructed(t, g, r); Pending(u) == Pending(t) && NoRoom(u) == NoRoom(t) && u.c == t.c
  {
    PostsUpdate(t.tickets, |t.tickets|, t.id[r], Obstructed(t, g, r).tickets[t.id[r]]);
  }

  lemma RefusedCounts(t: Table, g: Config, r: nat, ready: bool)
    requires InHand(t, g, r)
    ensures var u := Refused(t, g, r, ready); Pending(u) == Pending(t) - 1 && NoRoom(u) == NoRoom(t) + 1
  {
    var u := t.(c := t.c.(refused := t.c.refused + 1));
    assert InHand(u, g, r);
    ObstructedCounts(u, g, r);
  }

  lemma FinishedCounts(t: Table, g: Config, r: nat, ok: bool)
    requires InHand(t, g, r)
    ensures var u := Finished(t, g, r, ok);
      && Pending(u) == Pending(t) && NoRoom(u) == NoRoom(t) && u.c.none == t.c.none && u.c.failover == t.c.failover
      && u.c.drained == t.c.drained
  {
    PostsUpdate(t.tickets, |t.tickets|, t.id[r], Finished(t, g, r, ok).tickets[t.id[r]]);
  }

  /** A post with all its reroutes answers the attempt it was called for, and each one it adds. */
  lemma {:induction false} PostAnswers(t: Table, g: Config, r: nat, i: nat, w: Scene)
    requires InHand(t, g, r) && i < g.n && ValidScene(w, g)
    ensures var u := Post(t, g, r, i, w);
      && Pending(u) == Pending(t) - 1 && NoRoom(u) == NoRoom(t)
      && u.c.none == t.c.none && u.c.failover >= t.c.failover && u.c.drained == t.c.drained
    decreases g.tries - t.tries[r]
  {
    PostUnfolds(t, g, r, i, w);
    TriedCounts(t, g, r, i);
    var t1 := Tried(t, g, r, i);
    if w.accepts[i] {
      AcceptedCounts(t1, g, r, i);
    } else {
      RefusedCounts(t1, g, r, w.ready[i]);
      var t2 := Refused(t1, g, r, w.ready[i]);
      hide Post, Finished, Other, Posts, Taken;
      if t2.tries[r] < g.tries && Other(w, g.n, i, 1) >= 0 {
        assert Failover(t2).tickets == t2.tickets;
        PostAnswers(Failover(t2), g, r, Other(w, g.n, i, 1), w);
      } else {
        FinishedCounts(t2, g, r, false);
      }
    }
  }

  /** So does a dispatch; nobody is eligible exactly when the balancer picks none. */
  lemma DispatchAnswers(t: Table, g: Config, r: nat, w: Scene)
    requires InHand(t, g, r) && ValidScene(w, g)
    ensures var u := Dispatch(t, g, r, w);
      && Pending(u) == Pending(t) - 1 && NoRoom(u) >= NoRoom(t)
      && u.c.none == t.c.none + (if w.pick < 0 then 1 else 0) && u.c.failover >= t.c.failover && u.c.drained == t.c.drained
  {
    ObstructedCounts(t, g, r);
    hide Post, Finished, Posts, Taken, Obstructed, Other;
    if w.pick < 0 {
      var t1 := if t.tries[r] == 0 then Obstructed(t, g, r) else t;
      var t2 := t1.(c := t1.c.(none := t1.c.none + 1));
      NobodyInHand(t, g, r);
      FinishedCounts(t2, g, r, false);
    } else if t.tries[r] > 0 && w.pick == t.first[r] {
      var j := Other(w, g.n, w.pick, 1);
      if j < 0 { FinishedCounts(t.(c := t.c.(refused := t.c.refused + 1)), g, r, false); } else { PostAnswers(t, g, r, j, w); }
    } else {
      PostAnswers(t, g, r, w.pick, w);
    }
  }

  lemma NobodyInHand(t: Table, g: Config, r: nat)
    requires InHand(t, g, r)
    ensures var u := Obstructed(t, g, r); InHand(u, g, r) && u.id == t.id
  {
  }

  /** The other engine's requests settle into the same counters ... */
  ghost function SettledB(t: Table, o: Outcome): (u: Table)
    requires 0 < t.pendingB
  {
    t.(pendingB := t.pendingB - 1, c := CountOutcome(t.c, o), elsewhere := CountOutcome(t.elsewhere, o))
  }

  /** ... and move the same in-flight counts. */
  ghost predicate MovedB(t: Table, u: Table, g: Config, i: nat, delta: int) {
    && Sizes(t, g) && Sizes(u, g) && i < g.n && u == t.(inflight := u.inflight, others := u.others)
    && u.inflight == t.inflight[i := u.inflight[i]] && u.inflight[i] == t.inflight[i] + delta
    && u.others == t.others[i := u.others[i]] && u.others[i] == t.others[i] + delta
  }

  lemma SettledBKeeps(t: Table, g: Config, o: Outcome)
    requires Inv(t, g, -1) && 0 < t.pendingB
    ensures Inv(SettledB(t, o), g, -1)
  {
    SameTable(t, SettledB(t, o), g);
  }

  lemma OthersCounted(t: Table, g: Config, i: nat)
    requires Inv(t, g, -1) && i < g.n
    ensures t.others[i] <= t.inflight[i]
  {
  }

  lemma MovedBKeeps(t: Table, u: Table, g: Config, i: nat, delta: int)
    requires Inv(t, g, -1) && MovedB(t, u, g, i, delta)
    ensures Inv(u, g, -1)
  {
    SameTable(t, u, g);
  }

  lemma SameTable(t: Table, u: Table, g: Config)
    requires Inv(t, g, -1) && Sizes(u, g) && Loads(u, g) && Counted(u) && Conserved(u, g)
    requires u.free == t.free && u.tries == t.tries && u.first == t.first && u.ran == t.ran && u.capOnly == t.capOnly
    requires u.at == t.at && u.id == t.id && u.tickets == t.tickets
    ensures Inv(u, g, -1)
  {
    forall s | 0 <= s < g.R ensures SlotOk(u, g, s, -1) {
      assert SlotOk(t, g, s, -1);
    }
    forall k | 0 <= k < |u.tickets| ensures TicketOk(u, g, k) {
      assert TicketOk(t, g, k);
    }
  }

  // ---- whole runs --------------------------------------------------------------------------

  datatype Event =
    | Arrival(draining: bool, full: bool, engineB: bool, w: Scene)
    | Reply(i: nat, r: nat, a: Answer, w: Scene)
    | EndB(o: Outcome)
    | MoveB(i: nat, delta: int)

  ghost predicate Happens(t: Table, u: Table, g: Config, e: Event)
    requires Inv(t, g, -1)
  {
    match e
    case Arrival(draining, full, engineB, w) => ValidScene(w, g) && u == Arrived(t, g, draining, full, engineB, w)
    case Reply(i, r, a, w) =>
      && r < g.R && i < g.n && t.at[r] == i && ValidScene(w, g) && InHand(t, g, r) && 0 < t.inflight[i] && u == Settled(t, g, r, i, a, w)
    case EndB(o) => 0 < t.pendingB && u == SettledB(t, o)
    case MoveB(i, delta) => MovedB(t, u, g, i, delta)
  }

  /** Every event answers all the attempts it begins. */
  lemma EventAnswers(t: Table, u: Table, g: Config, e: Event)
    requires Inv(t, g, -1) && Happens(t, u, g, e)
    ensures Pending(u) == Pending(t) && NoRoom(u) >= NoRoom(t)
    ensures u.c.drained == t.c.drained + (if e.Arrival? && e.draining then 1 else 0)
  {
    hide Inv, Dispatch, Finished, Posts, Taken;
    match e
    case Arrival(draining, full, engineB, w) =>
      if !draining && !full && !engineB && t.free != [] {
        AdmitKeeps(t, g);
        AdmitCounts(t, g);
        assert InHand(Admit(t, g), g, t.free[|t.free| - 1]);
        DispatchAnswers(Admit(t, g), g, t.free[|t.free| - 1], w);
      }
    case Reply(i, r, a, w) =>
      var t1 := Unposted(t, g, r, i);
      assert t1.tickets == t.tickets && InHand(t1, g, r);
      if a.FailedAttempt? && t.tries[r] < g.tries {
        DispatchAnswers(Failover(t1), g, r, w);
      } else {
        FinishedCounts(t1, g, r, a.Done?);
      }
    case EndB(o) =>
    case MoveB(i, delta) =>
  }

  lemma AdmitCounts(t: Table, g: Config)
    requires Inv(t, g, -1) && 0 < |t.free|
    ensures Sizes(t, g) && var r := t.free[|t.free| - 1]; r < g.R && InHand(Admit(t, g), g, r)
    ensures var u := Admit(t, g); Pending(u) == Pending(t) + 1 && NoRoom(u) == NoRoom(t) && u.c.drained == t.c.drained
  {
    var r := t.free[|t.free| - 1];
    PostsPrefix(t.tickets, [Ticket(0, 0, false, Running(r))], |t.tickets|);
  }

  /** Events in any order from a sound table. */
  ghost predicate Run(ts: seq<Table>, es: seq<Event>, g: Config) {
    && |ts| == |es| + 1 && Inv(ts[0], g, -1)
    && forall k :: 0 <= k < |es| && Inv(ts[k], g, -1) ==> Happens(ts[k], ts[k + 1], g, es[k])
  }

  /** What an ended ticket says it says for ever. */
  ghost predicate EndsKept(before: seq<Ticket>, after: seq<Ticket>) {
    |before| <= |after| && forall k :: 0 <= k < |before| && before[k].end.Ended? ==> after[k] == before[k]
  }

  lemma EventKeeps(t: Table, u: Table, g: Config, e: Event)
    requires Inv(t, g, -1) && Happens(t, u, g, e)
    ensures Inv(u, g, -1) && EndsKept(t.tickets, u.tickets)
  {
    hide Dispatch, Arrived, Settled;
    match e
    case Arrival(draining, full, engineB, w) =>
      ArrivedKeeps(t, g, draining, full, engineB, w);
      assert forall k :: 0 <= k < |t.tickets| ==> u.tickets[..|t.tickets|][k] == u.tickets[k];
    case Reply(i, r, a, w) =>
      assert SlotOk(t, g, r, -1);
      SettledKeeps(t, g, r, i, a, w);
    case EndB(o) => SettledBKeeps(t, g, o);
    case MoveB(i, delta) => MovedBKeeps(t, u, g, i, delta);
  }

  /**
   In every run the table stays sound, so every arrival is counted once or still pending, and a request that
   has ended never ends again.
   */
  lemma {:induction false} RunsConserve(ts: seq<Table>, es: seq<Event>, g: Config, m: nat, n: nat)
    requires Run(ts, es, g) && m <= n < |ts|
    ensures Inv(ts[m], g, -1) && Inv(ts[n], g, -1) && EndsKept(ts[m].tickets, ts[n].tickets)
    decreases n
  {
    hide Inv, Happens;
    if m < n {
      RunsConserve(ts, es, g, m, n - 1);
      EventKeeps(ts[n - 1], ts[n], g, es[n - 1]);
    } else if n > 0 {
      RunsConserve(ts, es, g, n - 1, n - 1);
      EventKeeps(ts[n - 1], ts[n], g, es[n - 1]);
    }
  }

  /** Arrivals among the first n events that came while draining. */
  function Drains(es: seq<Event>, n: nat): (k: nat)
    requires n <= |es|
  {
    if n == 0 then 0 else Drains(es, n - 1) + (if es[n - 1].Arrival? && es[n - 1].draining then 1 else 0)
  }

  /**
   Over every run from a table with no tickets each attempt, one per request admitted and one per failover, ends as
   exactly one of: nobody eligible, refused, taken by a worker. Every post refused is counted, and an arrival is
   drained exactly while draining.
   */
  lemma {:induction false} RunsCountAttempts(ts: seq<Table>, es: seq<Event>, g: Config, n: nat)
    requires Run(ts, es, g) && n < |ts|
    requires ts[0].tickets == [] && ts[0].c.failover == ts[0].c.none == ts[0].c.refused == 0
    ensures var t := ts[n];
      && |t.tickets| + t.c.failover == t.c.none + t.c.refused + Taken(t.tickets, |t.tickets|)
      && t.c.refused >= Posts(t.tickets, |t.tickets|) - Taken(t.tickets, |t.tickets|)
      && t.c.drained == ts[0].c.drained + Drains(es, n)
  {
    hide Inv, Happens;
    if n > 0 {
      RunsCountAttempts(ts, es, g, n - 1);
      RunsConserve(ts, es, g, n - 1, n - 1);
      EventAnswers(ts[n - 1], ts[n], g, es[n - 1]);
    }
  }
}
