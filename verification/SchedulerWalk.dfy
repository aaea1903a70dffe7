/**
 The two loops that run callbacks, step by step: walking the slots of the wheel in
 an update, and capturing and running a batch in the event loop.
 */
module SchedulerWalk {
  import opened Options
  import opened SchedulerSpec
  import opened SchedulerTicks
  import opened SchedulerState
  import opened SchedulerSteps

  /** The invariant without what only holds between batches. */
  ghost predicate Core(s: St) {
    Struct(s, -1) && Links(s)
  }

  ghost predicate NoTombstones(s: St) {
    |s.loc| == |s.cells| && forall c :: 0 <= c < |s.cells| && s.loc[c].Slot? ==> s.cells[c].cb != 0
  }

  /** The cell after `c` in the queue, or -1: TAILQ_NEXT. */
  function NextInQueue(q: seq<nat>, c: nat): int {
    if |q| < 2 then -1 else if q[0] == c then q[1] else NextInQueue(q[1..], c)
  }

  lemma {:induction false} NextInQueueAt(q: seq<nat>, k: nat)
    requires k < |q| && forall i, j :: 0 <= i < j < |q| ==> q[i] != q[j]
    ensures NextInQueue(q, q[k]) == if k + 1 < |q| then q[k + 1] else -1
  {
    if k > 0 {
      assert q[1..][k - 1] == q[k];
      NextInQueueAt(q[1..], k - 1);
    }
  }

  /** Between calls made by the program: no slot is being walked, no batch is being run, nothing is due. */
  ghost predicate AtRest(s: St) {
    s.working == -1 && s.wq == [] && NothingDue(s.abs) && NoTombstones(s)
  }

  lemma RestStays(s: St, t: St)
    requires Inv(s) && Inv(t) && Frame(s, t)
    ensures AtRest(s) ==> AtRest(t)
  {
    hide Placed, Sorted, SumLen, Links, OnlyScheduled, SlotFrame, Inv;
    InvShape(s);
    InvShape(t);
    if AtRest(s) {
      OnlyWalkedSlotHasTombstones(t);
    }
  }

  lemma OnlyWalkedSlotHasTombstones(s: St)
    requires Inv(s) && s.working == -1
    ensures NoTombstones(s)
  {
    hide Sorted, SumLen, Links, OnlyScheduled, Holds;
    forall c | 0 <= c < |s.cells| && s.loc[c].Slot? ensures s.cells[c].cb != 0 {
      assert CellOk(s.cells[c], s.loc[c], s.serial[c], s.working, s.abs.nextId);
    }
  }

  // ----------------------------------------------- what completing a call takes

  /** An operation that was called in state `s` may return in state `t`. */
  ghost predicate Returns(s: St, t: St, e: Event) {
    && Inv(t) && Frame(s, t) && (AtRest(s) ==> AtRest(t)) && Step(s.abs, e) == Some(t.abs)
  }

  lemma SetCompletes(s: St, d: int, fn: nat, arg: nat, bp: int)
    requires Inv(s) && s.now < Ticks(d) && fn != 0
    ensures var s1, c := Create(s, Cell(fn, arg, -1, d, bp)), NextCell(s);
      && Shape(s1) && c < |s1.cells|
      && var t := ToSlot(s1, c, Ticks(d) % WHEEL_SIZE)
                  .(home := s1.home[s1.abs.nextId := c], armed := s1.armed[s1.abs.nextId := Call(fn, arg, 0, -1)],
                    abs := Next(s1.abs, Set(s1.abs.nextId, Ticks(d))));
      && Returns(s, t, Set(s.abs.nextId, Ticks(d)))
      && c < |t.cells| && c < |t.loc| && c < |t.serial|
      && t.loc[c] == Slot(Ticks(d) % WHEEL_SIZE) && t.serial[c] == s.abs.nextId && t.cells[c].cb == fn
      && t.armed == s.armed[s.abs.nextId := Call(fn, arg, 0, -1)] && s.abs.nextId !in s.armed
  {
    hide Inv, Frame, AtRest, Step, Create, ToSlot, Next, SetStep;
    SetUnfolds(s, d, fn, arg, bp);
    SetFacts(s, d, fn, arg, bp);
    SetKeepsInv(s, d, fn, arg, bp);
    SetFrames(s, d, fn, arg, bp);
    RestStays(s, SetStep(s, d, fn, arg, bp));
    InvShape(s);
  }

  lemma ScheduleCompletes(s: St, fn: nat, arg: nat, bp: int)
    requires Inv(s) && fn != 0
    ensures var s1, c := Create(s, Cell(fn, arg, -1, -1, bp)), NextCell(s);
      && c < |s1.loc|
      && var t := ToQueue(s1, c).(armed := s1.armed[s1.abs.nextId := Call(fn, arg, -1, -1)],
                                  abs := Next(s1.abs, Schedule(s1.abs.nextId)));
      && Returns(s, t, Schedule(s.abs.nextId))
      && t.armed == s.armed[s.abs.nextId := Call(fn, arg, -1, -1)] && s.abs.nextId !in s.armed
  {
    hide Inv, Frame, AtRest, Step, Create, ToQueue, Next, ScheduleStep;
    ScheduleUnfolds(s, fn, arg, bp);
    ScheduleFacts(s, fn, arg, bp);
    ScheduleKeepsInv(s, fn, arg, bp);
    ScheduleFrames(s, fn, arg, bp);
    RestStays(s, ScheduleStep(s, fn, arg, bp));
    InvShape(s);
  }

  lemma WaitReturns(s: St, v: nat, x: Cell)
    requires Inv(s) && v < VEC_SIZE && x.cb != 0 && 0 <= x.how <= 1 && 0 <= x.resource && KeyOf(x) == v
    ensures Inv(DropStep(s, v))
    ensures var d := DropStep(s, v);
      var s1, c := Create(d, x), NextCell(d);
      && Shape(s1) && c < |s1.loc|
      && var t := ToVec(s1, c, v).(armed := s1.armed[s1.abs.nextId := Call(x.cb, x.arg, x.resource, x.how)],
                                   abs := Next(s1.abs, Wait(s1.abs.nextId, v)));
      && Returns(s, t, Wait(s.abs.nextId, v))
      && t.armed == s.armed[s.abs.nextId := Call(x.cb, x.arg, x.resource, x.how)] && s.abs.nextId !in s.armed
  {
    hide Inv, Frame, AtRest, Step, Create, ToVec, Next, DropStep, ArmStep;
    DropKeepsInv(s, v);
    var d := DropStep(s, v);
    ArmUnfolds(d, v, x);
    ArmFacts(d, v, x);
    WaitCompletes(s, v, x);
    RestStays(s, ArmStep(d, v, x));
    InvShape(s);
    if s.vec[v] == -1 { DropNothing(s, v); } else { DropFacts(s, v); }
  }

  lemma CancelReturns(s: St, sock: nat, how: nat)
    requires Inv(s) && how <= 1 && 2 * sock + how < VEC_SIZE
    ensures Inv(DropStep(s, 2 * sock + how))
    ensures var t := MarkStep(DropStep(s, 2 * sock + how), sock, how);
      Returns(s, t, Cancel(2 * sock + how)) && t.armed == s.armed
  {
    hide Inv, Frame, AtRest, Step, DropStep, MarkStep;
    var v := 2 * sock + how;
    DropKeepsInv(s, v);
    var d := DropStep(s, v);
    CancelCompletes(s, sock, how);
    RestStays(s, MarkStep(d, sock, how));
    MarkFacts(d, sock, how);
    InvShape(s);
    if s.vec[v] == -1 { DropNothing(s, v); } else { DropFacts(s, v); }
  }

  lemma UnsetReturns(s: St, c: nat)
    requires Inv(s) && c < |s.cells| && s.loc[c].Slot?
    ensures s.loc[c].i < WHEEL_SIZE && s.cells[c].backptr == s.loc[c].i && Shape(s)
    ensures s.cells[c].cb != 0 && s.loc[c].i == s.working ==>
      Returns(s, s.(cells := s.cells[c := s.cells[c].(cb := 0)], pending := true,
          abs := Next(s.abs, Unset(s.serial[c]))),
              Unset(s.serial[c]))
    ensures s.cells[c].cb != 0 && s.loc[c].i != s.working ==>
      && Struct(FromSlot(s, c, s.loc[c].i), c)
      && Returns(s, Destroy(FromSlot(s, c, s.loc[c].i), c).(abs := Next(s.abs, Unset(s.serial[c]))), Unset(s.serial[c]))
      && Destroy(FromSlot(s, c, s.loc[c].i), c).armed == s.armed
  {
    hide Inv, Frame, AtRest, Step, UnsetStep, Next, Struct;
    UnsetKeepsInv(s, c);
    UnsetFrames(s, c);
    UnsetUnfolds(s, c);
    RestStays(s, UnsetStep(s, c));
  }

  // ------------------------------------------------------------ clock and slot

  ghost function AdvanceStep(s: St, to: nat): St {
    s.(now := to, abs := s.abs.(prev := s.abs.now, now := to))
  }

  lemma AdvanceKeepsInv(s: St, to: nat)
    requires Inv(s) && NothingDue(s.abs) && s.now <= to
    ensures Inv(AdvanceStep(s, to)) && Step(s.abs, Advance(to)) == Some(AdvanceStep(s, to).abs)
  {
    hide Holds, SumLen, SlotSorted, WellFormed;
    StepKeepsWellFormed(s.abs, Advance(to));
  }

  /** `working_entry` moves to a slot, or to none. */
  ghost function EnterStep(s: St, w: int, pending: bool): St {
    s.(working := w, pending := pending)
  }

  lemma EnterKeepsInv(s: St, w: int, pending: bool)
    requires Inv(s) && NoTombstones(s) && -1 <= w < WHEEL_SIZE
    ensures Inv(EnterStep(s, w, pending))
  {
    hide Holds, SumLen, SlotSorted, WellFormed;
  }

  // ------------------------------------------------------------- firing a cell

  /** The callback is cleared before it is called. */
  ghost function FireStep(s: St, c: nat): St
    requires c < |s.cells| && c < |s.serial|
  {
    s.(cells := s.cells[c := s.cells[c].(cb := 0)], abs := s.abs.(timers := s.abs.timers - {s.serial[c]}))
  }

  lemma FireKeepsInv(s: St, c: nat)
    requires Inv(s) && c < |s.cells| && s.loc[c].Slot? && s.loc[c].i == s.working && s.cells[c].cb != 0
    requires MayFire(s.abs, s.serial[c])
    ensures Inv(FireStep(s, c)) && Step(s.abs, Fire(s.serial[c])) == Some(FireStep(s, c).abs)
  {
    hide Holds, Placed, Filled, Sorted, SumLen, WaitsLink, QueueLink, BatchLink, ArmedLink, TimersLink,
        OnlyScheduled, WellFormed, MayFire;
    var t := FireStep(s, c);
    TombstoneKeepsStruct(s, c);
    StructIgnoresWaits(s.(cells := t.cells), t.abs);
    OtherQueuesLack(s, c);
    QueueLinkSame(s, t, c);
    BatchLinkSame(s, t, c);
    WaitsLinkSame(s, t, c);
    TimersLinkLoses(s, t, c);
    ArmedLinkSame(s, t, c);
    StepKeepsWellFormed(s.abs, Fire(s.serial[c]));
  }

  /** A cleared cell is unlinked from slot `i` and freed. */
  ghost function ReapStep(s: St, c: nat, i: nat): St
    requires Shape(s) && c < |s.loc| && i < WHEEL_SIZE
  {
    Destroy(FromSlot(s, c, i), c)
  }

  lemma ReapFacts(s: St, c: nat, i: nat)
    requires Shape(s) && c < |s.loc| && i < WHEEL_SIZE
    ensures var t := ReapStep(s, c, i);
      && OnlyCell(s, t, c) && t.loc[c] == Free
      && t == s.(loc := t.loc, freeQ := t.freeQ, timersSet := s.timersSet - 1,
                 wheel := s.wheel[i := Without(s.wheel[i], c)])
  {
  }

  lemma ReapKeepsInv(s: St, c: nat, i: nat)
    requires Inv(s) && c < |s.cells| && s.loc[c] == Slot(i) && s.cells[c].cb == 0
    ensures i < WHEEL_SIZE && Inv(ReapStep(s, c, i))
  {
    hide Holds, Filled, Sorted, SumLen, WaitsLink, QueueLink, BatchLink, ArmedLink, TimersLink, OnlyScheduled,
        WellFormed, FromSlot, Destroy, Without;
    FromSlotKeepsStruct(s, c, i);
    DestroyKeepsStruct(FromSlot(s, c, i), c);
    ReapFacts(s, c, i);
    var t := ReapStep(s, c, i);
    OtherQueuesLack(s, c);
    QueueLinkSame(s, t, c);
    BatchLinkSame(s, t, c);
    WaitsLinkSame(s, t, c);
    ReapKeepsTimersLink(s, t, c);
    ArmedLinkSame(s, t, c);
  }

  lemma ReapKeepsTimersLink(s: St, t: St, c: nat)
    requires Shape(s) && Shape(t) && TimersLink(s) && OnlyCell(s, t, c) && |t.cells| == |s.cells|
    requires s.cells[c].cb == 0 && t.loc[c] == Free && t.home == s.home && t.abs.timers == s.abs.timers
    ensures TimersLink(t)
  {
  }

  // ---------------------------------------------------------------- the walk

  ghost predicate Due(s: St, c: nat)
    requires c < |s.cells|
  {
    Ticks(s.cells[c].resource) <= s.now
  }

  /** Slots before `o` hold no due timer any more. */
  ghost predicate Swept(a: Abs, o: nat) {
    && a.prev < o
    && forall id :: id in a.timers && a.prev < a.timers[id] <= a.now ==> Turn(a.prev, a.timers[id]) >= o - a.prev - 1
  }

  /**
   The walk of slot `o` has reached index `k`: what lies before it is not due, and
   whatever has been cancelled in the slot will be swept.
   */
  ghost predicate Walking(s: St, o: nat, k: nat) {
    && Inv(s) && s.working == o % WHEEL_SIZE && !s.firing
    && Swept(s.abs, o) && o <= s.now
    && k <= |s.wheel[s.working]|
    && (forall j :: 0 <= j < |s.wheel[s.working]| ==> s.wheel[s.working][j] < |s.cells|)
    && (forall j :: 0 <= j < k ==> !Due(s, s.wheel[s.working][j]))
    && (forall j :: 0 <= j < |s.wheel[s.working]| ==> s.cells[s.wheel[s.working][j]].cb == 0 ==> s.pending)
  }

  /** A live cell's timer is pending, and a pending timer's cell stands in the slot of its deadline. */
  lemma TimerHome(s: St, id: nat)
    requires Inv(s) && id in s.abs.timers
    ensures id in s.home && s.home[id] < |s.cells| && s.serial[s.home[id]] == id
    ensures var i := s.abs.timers[id] % WHEEL_SIZE;
      && s.loc[s.home[id]] == Slot(i) && s.home[id] in s.wheel[i]
      && Ticks(s.cells[s.home[id]].resource) == s.abs.timers[id]
  {
    hide Sorted, SumLen, WaitsLink, QueueLink, BatchLink, ArmedLink, OnlyScheduled, WellFormed;
    var c := s.home[id];
    assert CellOk(s.cells[c], s.loc[c], s.serial[c], s.working, s.abs.nextId);
    HoldsMember(s.loc, s.wheel[s.loc[c].i], s.loc[c], c);
  }

  lemma TimerLive(s: St, id: nat)
    requires Inv(s) && id in s.abs.timers
    ensures id in s.home && s.home[id] < |s.cells| && s.cells[s.home[id]].cb != 0
  {
    hide Struct, WaitsLink, QueueLink, BatchLink, ArmedLink, OnlyScheduled, WellFormed;
  }

  lemma TurnOfSlot(prev: nat, d: nat, o: nat)
    requires prev < d && prev < o && o - prev - 1 < WHEEL_SIZE
    ensures Turn(prev, d) == o - prev - 1 <==> d % WHEEL_SIZE == o % WHEEL_SIZE
  {
  }

  /** The next live due cell of the walk is the timer the abstract machine would take. */
  lemma NextInWalkMayFire(s: St, o: nat, k: nat)
    requires Walking(s, o, k) && k < |s.wheel[s.working]|
    requires var c := s.wheel[s.working][k]; Due(s, c) && s.cells[c].cb != 0
    ensures var c := s.wheel[s.working][k];
      c < |s.serial| && s.loc[c] == Slot(s.working) && MayFire(s.abs, s.serial[c])
  {
    hide SumLen, WaitsLink, QueueLink, BatchLink, ArmedLink, OnlyScheduled, Placed, Filled, Sorted, TimersLink;
    var w := s.working;
    var c := s.wheel[w][k];
    WheelInRange(s);
    LiveCellPending(s, c);
    var id, a := s.serial[c], s.abs;
    forall j | j in a.timers && j != id && a.prev < a.timers[j] <= a.now
      ensures Precedes(a.prev, a.timers[id], id, a.timers[j], j)
    {
      assert Turn(a.prev, a.timers[j]) >= o - a.prev - 1;
      TurnOfSlot(a.prev, a.timers[id], o);
      if Turn(a.prev, a.timers[j]) == Turn(a.prev, a.timers[id]) {
        TurnOfSlot(a.prev, a.timers[j], o);
        LaterInSlot(s, o, k, j);
      }
    }
  }

  lemma LiveCellPending(s: St, c: nat)
    requires Inv(s) && c < |s.cells| && s.loc[c].Slot? && s.cells[c].cb != 0
    ensures s.serial[c] in s.abs.timers && s.abs.timers[s.serial[c]] == Ticks(s.cells[c].resource)
    ensures Ticks(s.cells[c].resource) % WHEEL_SIZE == s.loc[c].i && s.now == s.abs.now
    ensures s.abs.prev < Ticks(s.cells[c].resource)
  {
    hide SumLen, WaitsLink, QueueLink, BatchLink, ArmedLink, OnlyScheduled, Placed, Sorted, Holds;
    assert CellOk(s.cells[c], s.loc[c], s.serial[c], s.working, s.abs.nextId);
  }

  lemma LiveCellArmed(s: St, c: nat)
    requires Inv(s) && c < |s.cells| && InUse(s.loc[c]) && s.cells[c].cb != 0
    ensures s.serial[c] in s.armed && s.armed[s.serial[c]] == CallOf(s.cells[c], s.loc[c])
  {
    hide Placed, Filled, Sorted, SumLen, TimersLink, WaitsLink, QueueLink, BatchLink, OnlyScheduled;
  }

  /** A due timer of the slot being walked still lies ahead. */
  lemma SlotTimerAhead(s: St, o: nat, k: nat, id: nat) returns (p: nat)
    requires Walking(s, o, k)
    requires id in s.abs.timers && s.abs.timers[id] <= s.now && s.abs.timers[id] % WHEEL_SIZE == s.working
    ensures k <= p < |s.wheel[s.working]| && s.wheel[s.working][p] < |s.serial| && s.serial[s.wheel[s.working][p]] == id
  {
    hide SumLen, WaitsLink, QueueLink, BatchLink, ArmedLink, OnlyScheduled, Placed, Filled, Sorted, TimersLink,
        WellFormed, Swept;
    TimerHome(s, id);
    var q := s.wheel[s.working];
    p :| 0 <= p < |q| && q[p] == s.home[id];
  }

  lemma LaterInSlot(s: St, o: nat, k: nat, j: nat)
    requires Walking(s, o, k) && k < |s.wheel[s.working]|
    requires j in s.abs.timers && s.abs.timers[j] <= s.now && s.abs.timers[j] % WHEEL_SIZE == s.working
    requires s.wheel[s.working][k] < |s.serial| && j != s.serial[s.wheel[s.working][k]]
    ensures s.serial[s.wheel[s.working][k]] < j
  {
    hide SumLen, WaitsLink, QueueLink, BatchLink, ArmedLink, OnlyScheduled, Placed, Filled, TimersLink, WellFormed,
        Swept;
    var p := SlotTimerAhead(s, o, k, j);
    assert SlotSorted(s.serial, s.wheel[s.working]);
  }

  /** When nothing due is left in slot `o`, the sweep has passed it. */
  lemma SlotIsSwept(s: St, o: nat)
    requires 0 <= s.working < |s.wheel| && Walking(s, o, |s.wheel[s.working]|)
    ensures Swept(s.abs, o + 1)
  {
    hide SumLen, WaitsLink, QueueLink, BatchLink, ArmedLink, OnlyScheduled, Placed, Filled, Sorted, TimersLink;
    var a := s.abs;
    forall id | id in a.timers && a.prev < a.timers[id] <= a.now
      ensures Turn(a.prev, a.timers[id]) >= o - a.prev
    {
      assert Turn(a.prev, a.timers[id]) >= o - a.prev - 1;
      if Turn(a.prev, a.timers[id]) == o - a.prev - 1 {
        TurnOfSlot(a.prev, a.timers[id], o);
        var p := SlotTimerAhead(s, o, |s.wheel[s.working]|, id);
      }
    }
  }

  lemma TurnBound(prev: nat, d: nat)
    requires prev < d
    ensures Turn(prev, d) <= d - prev - 1
  {
  }

  /** Once every slot up to the new time has been walked, nothing is due. */
  lemma AllSwept(a: Abs)
    requires WellFormed(a) && Swept(a, a.now + 1)
    ensures NothingDue(a)
  {
    forall id | id in a.timers ensures a.now < a.timers[id] {
      TurnBound(a.prev, a.timers[id]);
    }
  }

  // ------------------------------------------------- one step of the slot walk

  ghost function DueCount(cells: seq<Cell>, now: nat, q: seq<nat>): nat
    requires forall k :: 0 <= k < |q| ==> q[k] < |cells|
  {
    if q == [] then 0
    else (if Ticks(cells[q[0]].resource) <= now then 1 else 0) + DueCount(cells, now, q[1..])
  }

  lemma {:induction false} DueCountGrows(cells: seq<Cell>, cells2: seq<Cell>, now: nat, q: seq<nat>, more: seq<nat>)
    requires forall k :: 0 <= k < |q| ==>
        q[k] < |cells| && q[k] < |cells2| && cells[q[k]].resource == cells2[q[k]].resource
    requires forall k :: 0 <= k < |more| ==> more[k] < |cells2| && Ticks(cells2[more[k]].resource) > now
    ensures forall k :: 0 <= k < |q + more| ==> (q + more)[k] < |cells2|
    ensures DueCount(cells2, now, q + more) == DueCount(cells, now, q)
  {
    if q == [] {
      assert q + more == more;
      NoneDue(cells2, now, more);
    } else {
      DueCountGrows(cells, cells2, now, q[1..], more);
      assert (q + more)[1..] == q[1..] + more;
    }
  }

  lemma {:induction false} NoneDue(cells: seq<Cell>, now: nat, q: seq<nat>)
    requires forall k :: 0 <= k < |q| ==> q[k] < |cells| && Ticks(cells[q[k]].resource) > now
    ensures DueCount(cells, now, q) == 0
  {
    if q != [] { NoneDue(cells, now, q[1..]); }
  }

  /** How many due cells the walk of the current slot still has ahead of it. */
  ghost function DueAhead(s: St, k: nat): nat {
    if 0 <= s.working < |s.wheel| && k <= |s.wheel[s.working]|
       && (forall j :: k <= j < |s.wheel[s.working]| ==> s.wheel[s.working][j] < |s.cells|)
    then DueCount(s.cells, s.now, s.wheel[s.working][k..]) else 0
  }

  /** The walk stands at a due cell whose callback has been cleared: it fired, or it was cancelled. */
  ghost predicate AtCell(s: St, o: nat, k: nat) {
    && Inv(s) && s.working == o % WHEEL_SIZE && !s.firing
    && Swept(s.abs, o) && o <= s.now
    && k < |s.wheel[s.working]|
    && (forall j :: 0 <= j < |s.wheel[s.working]| ==> s.wheel[s.working][j] < |s.cells|)
    && (forall j :: 0 <= j < k ==> !Due(s, s.wheel[s.working][j]))
    && Due(s, s.wheel[s.working][k]) && s.cells[s.wheel[s.working][k]].cb == 0
    && (forall j :: 0 <= j < |s.wheel[s.working]| && j != k ==> s.cells[s.wheel[s.working][j]].cb == 0 ==> s.pending)
  }

  lemma FireGoesToCell(s: St, o: nat, k: nat)
    requires Walking(s, o, k) && k < |s.wheel[s.working]|
    requires var c := s.wheel[s.working][k]; Due(s, c) && s.cells[c].cb != 0
    ensures var c := s.wheel[s.working][k];
      && c < |s.serial| && MayFire(s.abs, s.serial[c]) && AtCell(FireStep(s, c), o, k)
      && Step(s.abs, Fire(s.serial[c])) == Some(FireStep(s, c).abs)
      && DueAhead(FireStep(s, c), k) == DueAhead(s, k)
  {
    hide SumLen, Struct, WaitsLink, QueueLink, BatchLink, ArmedLink, TimersLink, OnlyScheduled, WellFormed, MayFire,
        DueCount, Inv;
    InvShape(s);
    NextInWalkMayFire(s, o, k);
    var c, q := s.wheel[s.working][k], s.wheel[s.working];
    WorkingSlotDistinct(s);
    FireKeepsInv(s, c);
    var t := FireStep(s, c);
    DueCountGrows(s.cells, t.cells, s.now, q[k..], []);
    assert q[k..] + [] == q[k..];
  }

  lemma SlotFacts(s: St, i: nat)
    requires Inv(s) && i < |s.wheel|
    ensures var q := s.wheel[i];
      && (forall j, k :: 0 <= j < k < |q| ==> q[j] != q[k])
      && (forall k :: 0 <= k < |q| ==> q[k] < |s.cells| && s.loc[q[k]] == Slot(i))
  {
    hide SumLen, WaitsLink, QueueLink, BatchLink, ArmedLink, TimersLink, OnlyScheduled, WellFormed, Filled, Sorted;
    assert Holds(s.loc, s.wheel[i], Slot(i));
  }

  lemma WorkingSlotDistinct(s: St)
    requires Inv(s) && 0 <= s.working
    ensures var q := s.wheel[s.working];
      && (forall i, j :: 0 <= i < j < |q| ==> q[i] != q[j])
      && (forall j :: 0 <= j < |q| ==> q[j] < |s.cells| && s.loc[q[j]] == Slot(s.working))
  {
    hide SumLen, WaitsLink, QueueLink, BatchLink, ArmedLink, TimersLink, OnlyScheduled, WellFormed, Filled, Sorted;
    assert Holds(s.loc, s.wheel[s.working], Slot(s.working));
  }

  /** What a callback does leaves the walk where it was; it can only add cells behind it that are not due. */
  lemma CallbackKeepsCell(s: St, t: St, o: nat, k: nat)
    requires AtCell(s, o, k) && Frame(s, t) && Inv(t)
    ensures AtCell(t, o, k)
    ensures var q, r := s.wheel[s.working], t.wheel[t.working];
      && q <= r && (forall j :: |q| <= j < |r| ==> !Due(t, r[j]))
    ensures DueAhead(t, k) == DueAhead(s, k)
  {
    hide SumLen, Struct, Links, OnlyScheduled, DueCount, Inv;
    InvShape(s); InvShape(t);
    var q, r := s.wheel[s.working], t.wheel[t.working];
    assert SlotFrame(s, t, q, r);
    CallbackKeepsCount(s, t, k, q, r);
  }

  /** Cells added behind that are not due change nothing in the count of those that are. */
  lemma CallbackKeepsCount(s: St, t: St, k: nat, q: seq<nat>, r: seq<nat>)
    requires |s.cells| <= |t.cells| && k <= |q| && SlotFrame(s, t, q, r) && s.now == t.now
    requires (forall j :: 0 <= j < |q| ==> q[j] < |s.cells|) && (forall j :: 0 <= j < |r| ==> r[j] < |t.cells|)
    ensures k <= |r| && DueCount(t.cells, t.now, r[k..]) == DueCount(s.cells, s.now, q[k..])
  {
    hide DueCount;
    DueCountGrows(s.cells, t.cells, s.now, q[k..], r[|q|..]);
    assert q[k..] + r[|q|..] == r[k..];
  }

  lemma InvShape(s: St)
    requires Inv(s)
    ensures Shape(s) && s.abs.now == s.now && WellFormed(s.abs) && (s.firing <==> s.wq != [])
    ensures s.abs.nextId !in s.armed
  {
    hide SumLen, Placed, Filled, Sorted, TimersLink, WaitsLink, QueueLink, BatchLink, OnlyScheduled;
  }

  lemma CutElements(q: seq<nat>, k: nat, r: seq<nat>)
    requires k < |q| && r == q[..k] + q[k + 1..]
    ensures forall j :: 0 <= j < |r| ==> r[j] == q[if j < k then j else j + 1]
    ensures r[k..] == q[k..][1..]
  {
  }

  lemma ReapQueue(s: St, k: nat)
    requires Inv(s) && 0 <= s.working < |s.wheel| && k < |s.wheel[s.working]|
    ensures var t, q := ReapStep(s, s.wheel[s.working][k], s.working), s.wheel[s.working];
      q[k] < |s.loc| && t.wheel[t.working] == q[..k] + q[k + 1..]
  {
    hide SumLen, Struct, Links, OnlyScheduled, Inv, ReapStep, Without;
    InvShape(s);
    WorkingSlotDistinct(s);
    ReapFacts(s, s.wheel[s.working][k], s.working);
    WithoutAt(s.wheel[s.working], k);
  }

  /** Unlinking the cleared cell brings the walk to what followed it. */
  lemma ReapGoesOn(s: St, o: nat, k: nat)
    requires AtCell(s, o, k)
    ensures var t, q := ReapStep(s, s.wheel[s.working][k], s.working), s.wheel[s.working];
      && Walking(t, o, k) && t.wheel[t.working] == q[..k] + q[k + 1..]
      && DueAhead(t, k) == DueAhead(s, k) - 1
  {
    hide SumLen, Struct, Links, OnlyScheduled, DueCount, Inv, ReapStep, Without, Swept;
    InvShape(s);
    WorkingSlotDistinct(s);
    var q := s.wheel[s.working];
    ReapKeepsInv(s, q[k], s.working);
    ReapFacts(s, q[k], s.working);
    ReapQueue(s, k);
    var t := ReapStep(s, q[k], s.working);
    InvShape(t);
    CutElements(q, k, t.wheel[t.working]);
    DueCountHead(s.cells, s.now, q[k..]);
  }

  lemma DueCountHead(cells: seq<Cell>, now: nat, q: seq<nat>)
    requires q != [] && forall k :: 0 <= k < |q| ==> q[k] < |cells|
    ensures DueCount(cells, now, q) ==
      (if Ticks(cells[q[0]].resource) <= now then 1 else 0) + DueCount(cells, now, q[1..])
  {
  }

  lemma SkipGoesOn(s: St, o: nat, k: nat)
    requires Walking(s, o, k) && k < |s.wheel[s.working]| && !Due(s, s.wheel[s.working][k])
    ensures Walking(s, o, k + 1) && DueAhead(s, k + 1) == DueAhead(s, k)
  {
    hide SumLen, Struct, Links, OnlyScheduled, DueCount, Inv;
    InvShape(s);
    var q := s.wheel[s.working];
    assert q[k..][1..] == q[k + 1..];
    DueCountHead(s.cells, s.now, q[k..]);
  }

  /** `t` walks the slot and time that `s` does, and has only gained cells behind that are not due. */
  ghost predicate Behind(s: St, t: St) {
    && t.working == s.working && t.now == s.now && 0 <= s.working < |s.wheel| && |t.wheel| == |s.wheel|
    && s.wheel[s.working] <= t.wheel[s.working]
    && forall j :: |s.wheel[s.working]| <= j < |t.wheel[s.working]| ==>
         t.wheel[s.working][j] < |t.cells| && !Due(t, t.wheel[s.working][j])
  }

  lemma WalkingShape(s: St, o: nat, k: nat)
    requires Walking(s, o, k)
    ensures Shape(s) && Inv(s) && s.working == o % WHEEL_SIZE && k <= |s.wheel[s.working]| && !s.firing
    ensures forall j :: 0 <= j < |s.wheel[s.working]| ==> s.wheel[s.working][j] < |s.cells|
    ensures s.now == s.abs.now && o <= s.now
  {
    hide Inv, Swept;
    InvShape(s);
  }

  lemma WalkStarts(s: St, o: nat)
    requires Walking(s, o, 0)
    ensures 0 <= s.working < |s.wheel| && (s.wheel[s.working] == [] ==> Walking(s, o, |s.wheel[s.working]|))
  {
    hide Inv, Swept;
    InvShape(s);
  }

  lemma NextInWalk(s: St, o: nat, k: nat)
    requires Walking(s, o, k) && k < |s.wheel[s.working]|
    ensures Shape(s) && s.wheel[s.working][k] < |s.cells|
    ensures var q := s.wheel[s.working];
      NextInQueue(q, q[k]) == if k + 1 < |q| then q[k + 1] else -1
  {
    hide Inv, Swept;
    InvShape(s);
    WorkingSlotDistinct(s);
    NextInQueueAt(s.wheel[s.working], k);
  }

  lemma FireInWalk(s: St, o: nat, k: nat)
    requires Walking(s, o, k) && k < |s.wheel[s.working]|
    requires var c := s.wheel[s.working][k]; Due(s, c) && s.cells[c].cb != 0
    ensures var c := s.wheel[s.working][k];
      && c < |s.serial|
      && var t := s.(cells := s.cells[c := s.cells[c].(cb := 0)],
          abs := s.abs.(timers := s.abs.timers - {s.serial[c]}));
      && AtCell(t, o, k) && Inv(t) && Step(s.abs, Fire(s.serial[c])) == Some(t.abs)
      && DueAhead(t, k) == DueAhead(s, k)
      && s.serial[c] in s.armed && s.armed[s.serial[c]] == Call(s.cells[c].cb, s.cells[c].arg, 0, -1)
  {
    hide Inv, Step, DueAhead, Swept;
    FireGoesToCell(s, o, k);
    InvShape(s);
    WorkingSlotDistinct(s);
    LiveCellArmed(s, s.wheel[s.working][k]);
  }

  lemma BehindAfterCallback(s: St, t: St, u: St, o: nat, k: nat)
    requires AtCell(t, o, k) && Frame(t, u) && Inv(u)
    requires t.wheel == s.wheel && t.working == s.working && t.now == s.now
    requires t.home == s.home && t.armed == s.armed && t.abs.nextId == s.abs.nextId
    ensures AtCell(u, o, k) && DueAhead(u, k) == DueAhead(t, k) && Behind(s, u) && Remembers(s, u)
  {
    hide Inv, DueAhead, Swept, SlotFrame;
    CallbackKeepsCell(t, u, o, k);
    InvShape(t);
    InvShape(u);
  }

  lemma CancelledInWalk(s: St, o: nat, k: nat)
    requires Walking(s, o, k) && k < |s.wheel[s.working]|
    requires var c := s.wheel[s.working][k]; Due(s, c) && s.cells[c].cb == 0
    ensures AtCell(s, o, k) && Behind(s, s)
  {
    hide Inv, DueAhead, Swept;
    InvShape(s);
  }

  /** Once the served cell is unlinked, the walk stands at the cell that followed it in the old queue. */
  lemma ServedGoesOn(s: St, t: St, o: nat, k: nat)
    requires AtCell(t, o, k) && Behind(s, t) && k < |s.wheel[s.working]|
    ensures var c := t.wheel[t.working][k];
      && Shape(t) && c < |t.loc| && 0 <= t.working < WHEEL_SIZE && t.working == s.working && t.now == s.now
          && Struct(FromSlot(t, c, t.working), c)
      && c == s.wheel[s.working][k]
    ensures var u, w := ReapStep(t, t.wheel[t.working][k], t.working), t.working;
      && Walking(u, o, k) && Inv(u) && DueAhead(u, k) == DueAhead(t, k) - 1
      && u.working == w && u.now == t.now && u.abs == t.abs && |u.wheel| == |t.wheel|
      && (if k + 1 < |s.wheel[w]| then k < |u.wheel[w]| && u.wheel[w][k] == s.wheel[w][k + 1]
          else Walking(u, o, |u.wheel[w]|))
  {
    hide Inv, DueAhead, Swept, ReapStep, Struct, FromSlot;
    InvShape(t);
    WorkingSlotDistinct(t);
    var w := t.working;
    var q, c := t.wheel[w], t.wheel[w][k];
    ReapGoesOn(t, o, k);
    ReapFacts(t, c, w);
    FromSlotOfInv(t, c, w);
    var u := ReapStep(t, c, w);
    InvShape(u);
    if k + 1 < |s.wheel[w]| {
      assert u.wheel[w][k] == q[k + 1];
    } else {
      assert forall j :: k <= j < |u.wheel[w]| ==> u.wheel[w][j] == q[j + 1];
    }
  }

  lemma FromSlotOfInv(s: St, c: nat, i: nat)
    requires Inv(s) && c < |s.loc| && s.loc[c] == Slot(i)
    ensures i < WHEEL_SIZE && Struct(FromSlot(s, c, i), c)
  {
    hide Links, OnlyScheduled, FromSlot, Holds, Filled, Sorted, SumLen;
    FromSlotKeepsStruct(s, c, i);
  }

  /** Entering slot `o` starts its walk. */
  lemma EnterStartsWalk(s: St, o: nat)
    requires Inv(s) && NoTombstones(s) && !s.firing && Swept(s.abs, o) && o <= s.now
    ensures Inv(EnterStep(s, o % WHEEL_SIZE, false)) && Walking(EnterStep(s, o % WHEEL_SIZE, false), o, 0)
  {
    hide SumLen, Struct, Links, OnlyScheduled, Inv;
    EnterKeepsInv(s, o % WHEEL_SIZE, false);
    var t := EnterStep(s, o % WHEEL_SIZE, false);
    InvShape(t);
    WorkingSlotDistinct(t);
  }

  // --------------------------------------------------------- the second sweep

  ghost predicate Sweeping(s: St, o: nat, k: nat) {
    && Inv(s) && s.working == o % WHEEL_SIZE && !s.firing && Swept(s.abs, o + 1)
    && k <= |s.wheel[s.working]|
    && (forall j :: 0 <= j < |s.wheel[s.working]| ==> s.wheel[s.working][j] < |s.cells|)
    && (forall j :: 0 <= j < k ==> s.cells[s.wheel[s.working][j]].cb != 0)
  }

  lemma SweepReaps(s: St, o: nat, k: nat)
    requires Sweeping(s, o, k) && k < |s.wheel[s.working]| && s.cells[s.wheel[s.working][k]].cb == 0
    ensures var t, q := ReapStep(s, s.wheel[s.working][k], s.working), s.wheel[s.working];
      Sweeping(t, o, k) && t.wheel[t.working] == q[..k] + q[k + 1..]
  {
    hide SumLen, Struct, Links, OnlyScheduled, Inv, ReapStep, Without, Swept;
    InvShape(s);
    WorkingSlotDistinct(s);
    var q := s.wheel[s.working];
    ReapKeepsInv(s, q[k], s.working);
    ReapFacts(s, q[k], s.working);
    ReapQueue(s, k);
    var t := ReapStep(s, q[k], s.working);
    InvShape(t);
    CutElements(q, k, t.wheel[t.working]);
  }

  /** A swept slot leaves no tombstone anywhere. */
  lemma SweptLeavesNone(s: St)
    requires Inv(s) && 0 <= s.working
    requires forall j :: 0 <= j < |s.wheel[s.working]| ==>
               s.wheel[s.working][j] < |s.cells| && s.cells[s.wheel[s.working][j]].cb != 0
    ensures NoTombstones(s)
  {
    hide SumLen, Links, OnlyScheduled, Sorted;
    forall c | 0 <= c < |s.cells| && s.loc[c].Slot? ensures s.cells[c].cb != 0 {
      assert CellOk(s.cells[c], s.loc[c], s.serial[c], s.working, s.abs.nextId);
      if s.loc[c].i == s.working {
        HoldsMember(s.loc, s.wheel[s.working], Slot(s.working), c);
      }
    }
  }

  lemma SweepStarts(s: St, o: nat)
    requires Sweeping(s, o, 0)
    ensures 0 <= s.working < |s.wheel|
  {
    hide Inv, Swept;
    InvShape(s);
  }

  lemma NextInSweep(s: St, o: nat, k: nat)
    requires Sweeping(s, o, k) && k < |s.wheel[s.working]|
    ensures var q, w := s.wheel[s.working], s.working;
      && Shape(s) && 0 <= w && q[k] < |s.cells| && NextInQueue(q, q[k]) == (if k + 1 < |q| then q[k + 1] else -1)
      && (s.cells[q[k]].cb != 0 ==> Sweeping(s, o, k + 1))
      && (s.cells[q[k]].cb == 0 ==>
            && Struct(FromSlot(s, q[k], w), q[k])
            && var u := Destroy(FromSlot(s, q[k], w), q[k]);
            && Sweeping(u, o, k) && Inv(u) && u.abs == s.abs && u.working == w && |u.wheel| == |s.wheel|
            && u.wheel[w] == q[..k] + q[k + 1..])
  {
    hide Inv, Swept, Struct, FromSlot, Destroy;
    InvShape(s);
    WorkingSlotDistinct(s);
    var q, w := s.wheel[s.working], s.working;
    NextInQueueAt(q, k);
    if s.cells[q[k]].cb == 0 {
      SweepReaps(s, o, k);
      FromSlotOfInv(s, q[k], w);
      ReapFacts(s, q[k], w);
      InvShape(ReapStep(s, q[k], w));
    }
  }

  lemma WalkEnds(s: St, o: nat)
    requires 0 <= s.working < |s.wheel| && Walking(s, o, |s.wheel[s.working]|)
    ensures !s.firing && Swept(s.abs, o + 1)
    ensures s.pending ==> Sweeping(s, o, 0)
    ensures !s.pending ==> NoTombstones(s)
  {
    hide Inv, Swept, NoTombstones;
    InvShape(s);
    SlotIsSwept(s, o);
    if !s.pending { SweptLeavesNone(s); }
  }

  lemma SweepEnds(s: St, o: nat)
    requires 0 <= s.working < |s.wheel| && Sweeping(s, o, |s.wheel[s.working]|)
    ensures !s.firing && Swept(s.abs, o + 1) && NoTombstones(s)
  {
    hide Inv, Swept, NoTombstones;
    InvShape(s);
    SweptLeavesNone(s);
  }

  /** Leaving the wheel once every slot has been walked: nothing is due, and the scheduler is at rest. */
  lemma LeaveWheel(s: St)
    requires Inv(s) && NoTombstones(s) && !s.firing && Swept(s.abs, s.now + 1)
    ensures var t := EnterStep(s, -1, s.pending); Inv(t) && NoTombstones(t) && t.wq == [] && NothingDue(t.abs)
  {
    hide Inv;
    InvShape(s);
    EnterKeepsInv(s, -1, s.pending);
    AllSwept(s.abs);
    InvShape(EnterStep(s, -1, s.pending));
  }

  lemma StartUpdate(s: St, to: nat)
    requires Inv(s) && NoTombstones(s) && s.wq == [] && NothingDue(s.abs) && s.now <= to
    ensures var t := AdvanceStep(s, to);
      && Inv(t) && NoTombstones(t) && !t.firing && Swept(t.abs, s.now + 1)
      && Step(s.abs, Advance(to)) == Some(t.abs)
  {
    hide Inv;
    InvShape(s);
    AdvanceKeepsInv(s, to);
  }
}
