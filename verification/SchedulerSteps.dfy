/**
 The operations a program, or a running callback, may apply to the scheduler, as
 steps on snapshots.  Each keeps the invariant, answers to one event of the abstract
 machine, and disturbs a walk in progress only in the ways `Frame` allows.
 */
module SchedulerSteps {
  import opened Options
  import opened SchedulerSpec
  import opened SchedulerTicks
  import opened SchedulerState

  /** NR_async_timer_set, the deadline being stored as `d`. */
  ghost function SetStep(s: St, d: int, fn: nat, arg: nat, bp: int): St
    requires Inv(s)
  {
    CreateKeepsStruct(s, Cell(fn, arg, -1, d, bp));
    var c := NextCell(s);
    var s1 := Create(s, Cell(fn, arg, -1, d, bp));
    ToSlot(s1, c, Ticks(d) % WHEEL_SIZE).(home := s1.home[s1.abs.nextId := c],
      armed := s1.armed[s1.abs.nextId := Call(fn, arg, 0, -1)], abs := Next(s1.abs, Set(s1.abs.nextId, Ticks(d))))
  }

  /** NR_async_schedule. */
  ghost function ScheduleStep(s: St, fn: nat, arg: nat, bp: int): St
    requires Inv(s)
  {
    CreateKeepsStruct(s, Cell(fn, arg, -1, -1, bp));
    var s1 := Create(s, Cell(fn, arg, -1, -1, bp));
    ToQueue(s1, NextCell(s)).(armed := s1.armed[s1.abs.nextId := Call(fn, arg, -1, -1)],
        abs := Next(s1.abs, Schedule(s1.abs.nextId)))
  }

  // ----------------------------------------------------------------- framing

  /** What is recorded for a number handed out stays. */
  ghost predicate Remembers(s: St, t: St) {
    && s.abs.nextId <= t.abs.nextId
    && (forall id :: 0 <= id < s.abs.nextId ==> (id in t.home <==> id in s.home))
    && (forall id :: 0 <= id < s.abs.nextId ==> (id in t.armed <==> id in s.armed))
    && (forall id :: id in s.home && id < s.abs.nextId ==> t.home[id] == s.home[id])
    && (forall id :: id in s.armed && id < s.abs.nextId ==> t.armed[id] == s.armed[id])
  }

  lemma RemembersStill(s: St, t: St, u: St)
    requires s == t || Remembers(s, t)
    requires u.home == t.home && u.armed == t.armed && u.abs.nextId == t.abs.nextId
    ensures Remembers(s, u)
  {
  }

  lemma RemembersOn(s: St, t: St, u: St)
    requires Remembers(s, t) && Remembers(t, u)
    ensures Remembers(s, u)
  {
  }

  /** What an operation may do to a slot being walked, a batch being run, and the clock. */
  ghost predicate Frame(s: St, t: St) {
    && t.now == s.now && t.working == s.working && t.firing == s.firing && t.wq == s.wq
    && t.abs.prev == s.abs.prev && t.abs.now == s.abs.now
    && (s.pending ==> t.pending) && Remembers(s, t)
    && |s.cells| <= |t.cells| && |s.wheel| == |t.wheel|
    && (forall id :: id in t.abs.timers && t.abs.timers[id] <= t.now ==>
        id in s.abs.timers && s.abs.timers[id] == t.abs.timers[id])
    && (forall k :: 0 <= k < |s.wq| ==> s.wq[k] < |s.cells|)
    && (0 <= s.working < |s.wheel| ==> SlotFrame(s, t, s.wheel[s.working], t.wheel[s.working]))
  }

  /** The queue of the slot being walked only grows, by timers that are not due, and is only tombstoned. */
  ghost predicate SlotFrame(s: St, t: St, q: seq<nat>, r: seq<nat>)
    requires |s.cells| <= |t.cells|
  {
    && q <= r
    && (forall k :: 0 <= k < |r| ==> r[k] < |t.cells|)
    && (forall k :: 0 <= k < |q| ==>
          && q[k] < |s.cells| && q[k] < |s.serial| && q[k] < |t.serial|
          && t.cells[q[k]].resource == s.cells[q[k]].resource && t.serial[q[k]] == s.serial[q[k]]
          && (t.cells[q[k]].cb == s.cells[q[k]].cb || (t.cells[q[k]].cb == 0 && t.pending)))
    && (forall k :: |q| <= k < |r| ==>
          Ticks(t.cells[r[k]].resource) > t.now && (t.cells[r[k]].cb == 0 ==> t.pending))
  }

  lemma FrameReflexive(s: St)
    requires Inv(s)
    ensures Frame(s, s)
  {
    if 0 <= s.working { assert Holds(s.loc, s.wheel[s.working], Slot(s.working)); }
  }

  lemma FrameRemembers(s: St, t: St)
    requires Frame(s, t)
    ensures Remembers(s, t)
  {
  }

  lemma FrameTransitive(s: St, t: St, u: St)
    requires Frame(s, t) && Frame(t, u)
    ensures Frame(s, u)
  {
    if 0 <= s.working < |s.wheel| {
      var q, r, p := s.wheel[s.working], t.wheel[s.working], u.wheel[s.working];
      assert forall k :: 0 <= k < |q| ==> q[k] == r[k];
      forall k | |q| <= k < |p|
        ensures Ticks(u.cells[p[k]].resource) > u.now && (u.cells[p[k]].cb == 0 ==> u.pending)
      {
        if k < |r| { assert r[k] == p[k]; }
      }
    }
  }

  // -------------------------------------------------- links across one change

  /** `t` is `s` but for cell `c`, which is new or changes place. */
  ghost predicate OnlyCell(s: St, t: St, c: nat) {
    && |s.cells| == |s.loc| == |s.serial| && |t.cells| == |t.loc| == |t.serial|
    && |s.cells| <= |t.cells| && c < |t.cells| && (|t.cells| == |s.cells| || |t.cells| == |s.cells| + 1 == c + 1)
    && (forall b :: 0 <= b < |s.cells| && b != c ==>
          t.cells[b] == s.cells[b] && t.loc[b] == s.loc[b] && t.serial[b] == s.serial[b])
  }

  lemma {:induction false} LiveItemsSame(cells: seq<Cell>, serial: seq<nat>, cells2: seq<Cell>, serial2: seq<nat>,
      q: seq<nat>)
    requires forall k :: 0 <= k < |q| ==> q[k] < |cells| && q[k] < |serial| && q[k] < |cells2| && q[k] < |serial2|
    requires forall k :: 0 <= k < |q| ==> cells[q[k]] == cells2[q[k]] && serial[q[k]] == serial2[q[k]]
    ensures LiveItems(cells, serial, q) == LiveItems(cells2, serial2, q)
  {
    if q != [] {
      LiveItemsSame(cells, serial, cells2, serial2, q[1..]);
    }
  }

  lemma QueueLinkSame(s: St, t: St, c: nat)
    requires Shape(s) && Shape(t) && QueueLink(s) && OnlyCell(s, t, c)
    requires t.qHead == s.qHead && t.abs.queued == s.abs.queued
    requires forall k :: 0 <= k < |s.qHead| ==> s.qHead[k] != c
    ensures QueueLink(t)
    ensures OnlyScheduled(s.cells, s.qHead) ==> OnlyScheduled(t.cells, t.qHead)
  {
  }

  lemma BatchLinkSame(s: St, t: St, c: nat)
    requires Shape(s) && Shape(t) && BatchLink(s) && OnlyCell(s, t, c)
    requires t.wq == s.wq && t.firing == s.firing && t.abs.batch == s.abs.batch
    requires forall k :: 0 <= k < |s.wq| ==> s.wq[k] != c
    ensures BatchLink(t)
  {
    LiveItemsSame(s.cells, s.serial, t.cells, t.serial, Unrun(s));
  }

  lemma WaitsLinkSame(s: St, t: St, c: nat)
    requires Shape(s) && Shape(t) && WaitsLink(s) && OnlyCell(s, t, c)
    requires t.vec == s.vec && t.abs.waits == s.abs.waits
    requires forall v :: 0 <= v < VEC_SIZE ==> s.vec[v] != c
    ensures WaitsLink(t)
  {
  }

  lemma TimersLinkSame(s: St, t: St, c: nat)
    requires Shape(s) && Shape(t) && TimersLink(s) && OnlyCell(s, t, c)
    requires t.home == s.home && t.abs.timers == s.abs.timers
    requires c < |s.loc| ==> !s.loc[c].Slot?
    requires !t.loc[c].Slot?
    ensures TimersLink(t)
  {
  }

  lemma ArmedLinkSame(s: St, t: St, c: nat)
    requires Shape(s) && Shape(t) && ArmedLink(s) && OnlyCell(s, t, c)
    requires t.armed == s.armed && t.abs.nextId == s.abs.nextId
    requires InUse(t.loc[c]) && t.cells[c].cb != 0 ==>
      c < |s.cells| && InUse(s.loc[c]) && t.serial[c] == s.serial[c] && s.cells[c].cb != 0
          && CallOf(t.cells[c], t.loc[c]) == CallOf(s.cells[c], s.loc[c])
    ensures ArmedLink(t)
  {
  }

  lemma ArmedLinkGrows(s: St, t: St, c: nat, k: Call)
    requires Shape(s) && Shape(t) && ArmedLink(s) && OnlyCell(s, t, c)
    requires t.armed == s.armed[s.abs.nextId := k] && t.abs.nextId == s.abs.nextId + 1
    requires t.serial[c] == s.abs.nextId && k == CallOf(t.cells[c], t.loc[c])
    ensures ArmedLink(t)
  {
  }

  // ---------------------------------------------------------------- new cells

  lemma CreateFacts(s: St, x: Cell)
    requires Shape(s) && Placed(s, -1)
    ensures s.freeQ != [] ==> s.freeQ[0] < |s.cells|
    ensures var t, c := Create(s, x), NextCell(s);
      && OnlyCell(s, t, c) && t.cells[c] == x && t.serial[c] == s.abs.nextId && t.loc[c] == Held
      && t == s.(cells := t.cells, freeQ := t.freeQ, loc := t.loc, serial := t.serial)
    ensures NextCell(s) < |s.loc| ==> s.loc[NextCell(s)] == Free
  {
    if s.freeQ != [] { HoldsElement(s.loc, s.freeQ, Free, 0); }
  }

  /** A cell that is free or not yet allocated is in no queue. */
  lemma NotQueued(s: St, c: nat)
    requires Shape(s) && Placed(s, -1) && (c < |s.loc| ==> s.loc[c] == Free)
    ensures forall k :: 0 <= k < |s.qHead| ==> s.qHead[k] != c
    ensures forall k :: 0 <= k < |s.wq| ==> s.wq[k] != c
    ensures forall v :: 0 <= v < VEC_SIZE ==> s.vec[v] != c
    ensures forall i, k :: 0 <= i < WHEEL_SIZE && 0 <= k < |s.wheel[i]| ==> s.wheel[i][k] != c
  {
    forall i, k | 0 <= i < WHEEL_SIZE && 0 <= k < |s.wheel[i]| ensures s.wheel[i][k] != c {
      HoldsElement(s.loc, s.wheel[i], Slot(i), k);
    }
  }

  lemma WheelInRange(s: St)
    requires Shape(s) && Placed(s, -1)
    ensures forall i, k :: 0 <= i < WHEEL_SIZE && 0 <= k < |s.wheel[i]| ==>
              s.wheel[i][k] < |s.loc| && s.loc[s.wheel[i][k]] == Slot(i)
    ensures forall k :: 0 <= k < |s.wq| ==> s.wq[k] < |s.cells|
  {
    forall i, k | 0 <= i < WHEEL_SIZE && 0 <= k < |s.wheel[i]|
      ensures s.wheel[i][k] < |s.loc| && s.loc[s.wheel[i][k]] == Slot(i)
    {
      HoldsElement(s.loc, s.wheel[i], Slot(i), k);
    }
  }

  lemma SerialBelow(s: St)
    requires Shape(s) && Filled(s)
    ensures forall b :: 0 <= b < |s.serial| && s.loc[b].Slot? ==> s.serial[b] < s.abs.nextId
  {
    forall b | 0 <= b < |s.serial| && s.loc[b].Slot? ensures s.serial[b] < s.abs.nextId {
      assert CellOk(s.cells[b], s.loc[b], s.serial[b], s.working, s.abs.nextId);
    }
  }

  /** A slot's queue that stays, or gains one live timer that is not due, is framed. */
  lemma SlotFrameGrows(s: St, t: St, c: nat, q: seq<nat>, r: seq<nat>)
    requires OnlyCell(s, t, c)
    requires forall k :: 0 <= k < |q| ==> q[k] < |s.cells| && q[k] != c
    requires r == q || (r == q + [c] && Ticks(t.cells[c].resource) > t.now && t.cells[c].cb != 0)
    ensures SlotFrame(s, t, q, r)
  {
    assert forall k :: 0 <= k < |q| ==> r[k] == q[k];
  }

  // ---------------------------------------------------------------- timer set

  lemma SetFacts(s: St, d: int, fn: nat, arg: nat, bp: int)
    requires Inv(s)
    ensures var t, c, i := SetStep(s, d, fn, arg, bp), NextCell(s), Ticks(d) % WHEEL_SIZE;
      && OnlyCell(s, t, c) && t.cells[c] == Cell(fn, arg, -1, d, i) && t.serial[c] == s.abs.nextId
          && t.loc[c] == Slot(i)
      && t == s.(cells := t.cells, freeQ := t.freeQ, loc := t.loc, serial := t.serial,
                 wheel := s.wheel[i := s.wheel[i] + [c]], timersSet := s.timersSet + 1,
                 home := s.home[s.abs.nextId := c],
                 armed := s.armed[s.abs.nextId := Call(fn, arg, 0, -1)],
                 abs := Next(s.abs, Set(s.abs.nextId, Ticks(d))))
    ensures NextCell(s) < |s.loc| ==> s.loc[NextCell(s)] == Free
  {
    hide Holds, Placed, Filled, Sorted, Links, Create;
    CreateFacts(s, Cell(fn, arg, -1, d, bp));
  }

  lemma SetUnfolds(s: St, d: int, fn: nat, arg: nat, bp: int)
    requires Inv(s)
    ensures var s1, c, i := Create(s, Cell(fn, arg, -1, d, bp)), NextCell(s), Ticks(d) % WHEEL_SIZE;
      && Shape(s1) && c < |s1.cells|
      && SetStep(s, d, fn, arg, bp) ==
         ToSlot(s1, c, i).(home := s1.home[s1.abs.nextId := c],
      armed := s1.armed[s1.abs.nextId := Call(fn, arg, 0, -1)], abs := Next(s1.abs, Set(s1.abs.nextId, Ticks(d))))
  {
    hide Placed, Filled, Sorted, SumLen, Links, OnlyScheduled;
    CreateKeepsStruct(s, Cell(fn, arg, -1, d, bp));
  }

  lemma SetKeepsStruct(s: St, d: int, fn: nat, arg: nat, bp: int)
    requires Inv(s) && s.now < Ticks(d) && fn != 0
    ensures Struct(SetStep(s, d, fn, arg, bp), -1)
  {
    hide Holds, SlotSorted, SumLen, Create, Links, ToSlot, OnlyScheduled;
    var x, c := Cell(fn, arg, -1, d, bp), NextCell(s);
    CreateKeepsStruct(s, x);
    CreateFacts(s, x);
    SetFacts(s, d, fn, arg, bp);
    ToSlotKeepsStruct(Create(s, x), c, Ticks(d) % WHEEL_SIZE, s.abs.nextId);
    assert SetStep(s, d, fn, arg, bp) ==
      ToSlot(Create(s, x), c, Ticks(d) % WHEEL_SIZE).(home := s.home[s.abs.nextId := c],
                 armed := s.armed[s.abs.nextId := Call(fn, arg, 0, -1)],
                 abs := Next(s.abs, Set(s.abs.nextId, Ticks(d))));
  }

  lemma SetKeepsTimersLink(s: St, d: int, fn: nat, arg: nat, bp: int)
    requires Inv(s) && s.now < Ticks(d) && fn != 0
    ensures var t := SetStep(s, d, fn, arg, bp); Shape(t) && TimersLink(t)
  {
    hide Holds, Placed, Sorted, WaitsLink, QueueLink, BatchLink, ArmedLink, OnlyScheduled, SetStep, CellOk;
    SetFacts(s, d, fn, arg, bp);
    SerialBelow(s);
    var t := SetStep(s, d, fn, arg, bp);
    var n, c := s.abs.nextId, NextCell(s);
    assert n !in s.abs.timers;
    forall b | 0 <= b < |t.cells| && t.loc[b].Slot? && t.cells[b].cb != 0
      ensures && t.serial[b] in t.abs.timers && t.abs.timers[t.serial[b]] == Ticks(t.cells[b].resource)
              && t.serial[b] in t.home && t.home[t.serial[b]] == b
    {
      if b != c { assert s.serial[b] < n; }
    }
  }

  lemma SetKeepsInv(s: St, d: int, fn: nat, arg: nat, bp: int)
    requires Inv(s) && s.now < Ticks(d) && fn != 0
    ensures Inv(SetStep(s, d, fn, arg, bp))
    ensures Step(s.abs, Set(s.abs.nextId, Ticks(d))) == Some(SetStep(s, d, fn, arg, bp).abs)
  {
    hide Holds, Placed, Filled, Sorted, SumLen, WaitsLink, QueueLink, BatchLink, ArmedLink, TimersLink,
        OnlyScheduled, SetStep, WellFormed;
    SetKeepsStruct(s, d, fn, arg, bp);
    SetKeepsTimersLink(s, d, fn, arg, bp);
    SetFacts(s, d, fn, arg, bp);
    NotQueued(s, NextCell(s));
    var t := SetStep(s, d, fn, arg, bp);
    QueueLinkSame(s, t, NextCell(s));
    BatchLinkSame(s, t, NextCell(s));
    WaitsLinkSame(s, t, NextCell(s));
    ArmedLinkGrows(s, t, NextCell(s), Call(fn, arg, 0, -1));
    StepKeepsWellFormed(s.abs, Set(s.abs.nextId, Ticks(d)));
  }

  lemma SetFrames(s: St, d: int, fn: nat, arg: nat, bp: int)
    requires Inv(s) && s.now < Ticks(d) && fn != 0
    ensures Frame(s, SetStep(s, d, fn, arg, bp))
  {
    hide Holds, Placed, Filled, Sorted, SumLen, WaitsLink, QueueLink, BatchLink, ArmedLink, TimersLink,
        OnlyScheduled, SetStep, SlotFrame;
    SetFacts(s, d, fn, arg, bp);
    NotQueued(s, NextCell(s));
    WheelInRange(s);
    if 0 <= s.working {
      var t := SetStep(s, d, fn, arg, bp);
      SlotFrameGrows(s, t, NextCell(s), s.wheel[s.working], t.wheel[s.working]);
    }
  }

  // ----------------------------------------------------------------- schedule

  lemma ScheduleFacts(s: St, fn: nat, arg: nat, bp: int)
    requires Inv(s)
    ensures var t, c := ScheduleStep(s, fn, arg, bp), NextCell(s);
      && OnlyCell(s, t, c) && t.cells[c] == Cell(fn, arg, -1, -1, bp) && t.serial[c] == s.abs.nextId
          && t.loc[c] == Queued
      && t == s.(cells := t.cells, freeQ := t.freeQ, loc := t.loc, serial := t.serial,
                 qHead := s.qHead + [c], armed := s.armed[s.abs.nextId := Call(fn, arg, -1, -1)],
                 abs := Next(s.abs, Schedule(s.abs.nextId)))
    ensures NextCell(s) < |s.loc| ==> s.loc[NextCell(s)] == Free
  {
    hide Holds, Placed, Filled, Sorted, Links, Create;
    CreateFacts(s, Cell(fn, arg, -1, -1, bp));
  }

  lemma ScheduleUnfolds(s: St, fn: nat, arg: nat, bp: int)
    requires Inv(s)
    ensures var s1, c := Create(s, Cell(fn, arg, -1, -1, bp)), NextCell(s);
      && c < |s1.loc| && ScheduleStep(s, fn, arg, bp) ==
          ToQueue(s1, c).(armed := s1.armed[s1.abs.nextId := Call(fn, arg, -1, -1)],
              abs := Next(s1.abs, Schedule(s1.abs.nextId)))
  {
    hide Placed, Filled, Sorted, SumLen, Links, OnlyScheduled;
    CreateKeepsStruct(s, Cell(fn, arg, -1, -1, bp));
  }

  lemma ScheduleKeepsStruct(s: St, fn: nat, arg: nat, bp: int)
    requires Inv(s) && fn != 0
    ensures Struct(ScheduleStep(s, fn, arg, bp), -1)
  {
    hide Holds, SlotSorted, SumLen, Create, Links, ToQueue, OnlyScheduled;
    var x, c := Cell(fn, arg, -1, -1, bp), NextCell(s);
    CreateKeepsStruct(s, x);
    CreateFacts(s, x);
    ScheduleFacts(s, fn, arg, bp);
    ToQueueKeepsStruct(Create(s, x), c);
    assert ScheduleStep(s, fn, arg, bp) == ToQueue(Create(s, x), c)
      .(armed := s.armed[s.abs.nextId := Call(fn, arg, -1, -1)], abs := Next(s.abs, Schedule(s.abs.nextId)));
  }

  lemma QueueLinkGrows(s: St, t: St, c: nat)
    requires Shape(s) && Shape(t) && QueueLink(s) && OnlyScheduled(s.cells, s.qHead) && OnlyCell(s, t, c)
    requires t.qHead == s.qHead + [c] && t.abs.queued == s.abs.queued + [Item(t.serial[c], -1)] && t.cells[c].how == -1
    requires forall k :: 0 <= k < |s.qHead| ==> s.qHead[k] != c
    ensures QueueLink(t) && OnlyScheduled(t.cells, t.qHead)
  {
    assert forall k :: 0 <= k < |s.qHead| ==> t.qHead[k] == s.qHead[k];
  }

  lemma ScheduleKeepsInv(s: St, fn: nat, arg: nat, bp: int)
    requires Inv(s) && fn != 0
    ensures Inv(ScheduleStep(s, fn, arg, bp))
    ensures Step(s.abs, Schedule(s.abs.nextId)) == Some(ScheduleStep(s, fn, arg, bp).abs)
  {
    hide Holds, Placed, Filled, Sorted, SumLen, WaitsLink, QueueLink, BatchLink, ArmedLink, TimersLink,
        OnlyScheduled, ScheduleStep, WellFormed;
    ScheduleKeepsStruct(s, fn, arg, bp);
    ScheduleFacts(s, fn, arg, bp);
    NotQueued(s, NextCell(s));
    var t, c := ScheduleStep(s, fn, arg, bp), NextCell(s);
    QueueLinkGrows(s, t, c);
    BatchLinkSame(s, t, c);
    WaitsLinkSame(s, t, c);
    TimersLinkSame(s, t, c);
    ArmedLinkGrows(s, t, c, Call(fn, arg, -1, -1));
    StepKeepsWellFormed(s.abs, Schedule(s.abs.nextId));
  }

  lemma ScheduleFrames(s: St, fn: nat, arg: nat, bp: int)
    requires Inv(s) && fn != 0
    ensures Frame(s, ScheduleStep(s, fn, arg, bp))
  {
    hide Holds, Placed, Filled, Sorted, SumLen, WaitsLink, QueueLink, BatchLink, ArmedLink, TimersLink,
        OnlyScheduled, ScheduleStep, SlotFrame;
    ScheduleFacts(s, fn, arg, bp);
    NotQueued(s, NextCell(s));
    WheelInRange(s);
    if 0 <= s.working {
      var t := ScheduleStep(s, fn, arg, bp);
      SlotFrameGrows(s, t, NextCell(s), s.wheel[s.working], t.wheel[s.working]);
    }
  }

  // ------------------------------------------------------------- timer cancel

  /** NR_async_timer_cancel on a live handle: a tombstone in the slot being walked, a removal anywhere else. */
  ghost function UnsetStep(s: St, c: nat): St
    requires Shape(s) && c < |s.cells| && s.loc[c].Slot? && s.loc[c].i < WHEEL_SIZE
  {
    if s.cells[c].cb == 0 then s
    else if s.loc[c].i == s.working then
      s.(cells := s.cells[c := s.cells[c].(cb := 0)], pending := true, abs := Next(s.abs, Unset(s.serial[c])))
    else
      Destroy(FromSlot(s, c, s.loc[c].i), c).(abs := Next(s.abs, Unset(s.serial[c])))
  }

  lemma TimersLinkLoses(s: St, t: St, c: nat)
    requires Shape(s) && Shape(t) && TimersLink(s) && OnlyCell(s, t, c) && |t.cells| == |s.cells|
    requires s.loc[c].Slot? && s.cells[c].cb != 0 && t.home == s.home
    requires t.abs.timers == s.abs.timers - {s.serial[c]}
    requires !t.loc[c].Slot? || t.cells[c].cb == 0
    ensures TimersLink(t)
  {
    forall b | 0 <= b < |t.cells| && t.loc[b].Slot? && t.cells[b].cb != 0
      ensures && t.serial[b] in t.abs.timers && t.abs.timers[t.serial[b]] == Ticks(t.cells[b].resource)
              && t.serial[b] in t.home && t.home[t.serial[b]] == b
    {
      assert b != c && s.home[s.serial[b]] == b && s.home[s.serial[c]] == c;
    }
  }

  lemma OtherQueuesLack(s: St, c: nat)
    requires Shape(s) && Placed(s, -1) && c < |s.loc| && s.loc[c] != Queued && s.loc[c] != Batch
    ensures forall k :: 0 <= k < |s.qHead| ==> s.qHead[k] != c
    ensures forall k :: 0 <= k < |s.wq| ==> s.wq[k] != c
    ensures !s.loc[c].Sock? ==> forall v :: 0 <= v < VEC_SIZE ==> s.vec[v] != c
  {
    forall v | 0 <= v < VEC_SIZE && !s.loc[c].Sock? ensures s.vec[v] != c {
      assert s.vec[v] == -1 || s.loc[s.vec[v]] == Sock(v);
    }
  }

  lemma TombstoneKeepsStruct(s: St, c: nat)
    requires Struct(s, -1) && c < |s.cells| && s.loc[c].Slot? && s.loc[c].i == s.working
    ensures Struct(s.(cells := s.cells[c := s.cells[c].(cb := 0)]), -1)
  {
    hide Holds, SlotSorted, SumLen;
  }

  lemma DestroyFromKeepsAbs(s: St, c: nat, i: nat)
    requires Shape(s) && c < |s.loc| && i < WHEEL_SIZE
    ensures Destroy(FromSlot(s, c, i), c).abs == s.abs
  {
  }

  lemma UnsetKeepsStruct(s: St, c: nat)
    requires Inv(s) && c < |s.cells| && s.loc[c].Slot?
    ensures s.loc[c].i < WHEEL_SIZE && Struct(UnsetStep(s, c), -1)
  {
    hide Holds, SlotSorted, SumLen, Links, OnlyScheduled, FromSlot, Destroy;
    if s.cells[c].cb != 0 {
      if s.loc[c].i == s.working {
        TombstoneKeepsStruct(s, c);
      } else {
        FromSlotKeepsStruct(s, c, s.loc[c].i);
        DestroyKeepsStruct(FromSlot(s, c, s.loc[c].i), c);
        var t := Destroy(FromSlot(s, c, s.loc[c].i), c);
        assert t.abs == s.abs by { DestroyFromKeepsAbs(s, c, s.loc[c].i); }
      }
    }
  }

  lemma UnsetFacts(s: St, c: nat)
    requires Shape(s) && c < |s.cells| && s.loc[c].Slot? && s.loc[c].i < WHEEL_SIZE && s.cells[c].cb != 0
    ensures var t := UnsetStep(s, c);
      && OnlyCell(s, t, c) && |t.cells| == |s.cells| && (t.loc[c] == Free || t.cells[c].cb == 0)
      && t.cells[c].resource == s.cells[c].resource && t.serial == s.serial
      && t == s.(cells := t.cells, wheel := t.wheel, freeQ := t.freeQ, loc := t.loc, pending := t.pending,
                 timersSet := t.timersSet, abs := Next(s.abs, Unset(s.serial[c])))
      && (s.pending ==> t.pending)
      && (if s.loc[c].i == s.working then t.cells[c].cb == 0 && t.pending else t.cells[c].cb == s.cells[c].cb)
      && (0 <= s.working ==> t.wheel[s.working] == s.wheel[s.working]) && |t.wheel| == |s.wheel|
  {
    hide Holds, Filled, Sorted, SumLen, Links, OnlyScheduled, Without;
  }

  lemma UnsetKeepsInv(s: St, c: nat)
    requires Inv(s) && c < |s.cells| && s.loc[c].Slot?
    ensures s.loc[c].i < WHEEL_SIZE && Inv(UnsetStep(s, c))
    ensures s.cells[c].cb != 0 ==> Step(s.abs, Unset(s.serial[c])) == Some(UnsetStep(s, c).abs)
  {
    hide Holds, Filled, Sorted, SumLen, WaitsLink, QueueLink, BatchLink, ArmedLink, OnlyScheduled, WellFormed,
        UnsetStep, Placed;
    UnsetKeepsStruct(s, c);
    if s.cells[c].cb == 0 {
      UnsetNothing(s, c);
    } else {
      var t := UnsetStep(s, c);
      UnsetFacts(s, c);
      OtherQueuesLack(s, c);
      QueueLinkSame(s, t, c);
      BatchLinkSame(s, t, c);
      WaitsLinkSame(s, t, c);
      TimersLinkLoses(s, t, c);
      ArmedLinkSame(s, t, c);
      StepKeepsWellFormed(s.abs, Unset(s.serial[c]));
    }
  }

  lemma UnsetUnfolds(s: St, c: nat)
    requires Inv(s) && c < |s.cells| && s.loc[c].Slot?
    ensures s.loc[c].i < WHEEL_SIZE && s.cells[c].backptr == s.loc[c].i && Shape(s)
    ensures s.cells[c].cb == 0 ==> UnsetStep(s, c) == s
    ensures s.cells[c].cb != 0 && s.loc[c].i == s.working ==>
      UnsetStep(s, c) ==
      s.(cells := s.cells[c := s.cells[c].(cb := 0)], pending := true, abs := Next(s.abs, Unset(s.serial[c])))
    ensures s.cells[c].cb != 0 && s.loc[c].i != s.working ==>
      && Struct(FromSlot(s, c, s.loc[c].i), c)
      && UnsetStep(s, c) == Destroy(FromSlot(s, c, s.loc[c].i), c).(abs := Next(s.abs, Unset(s.serial[c])))
  {
    hide Holds, Sorted, SumLen, Links, OnlyScheduled, Without;
    assert CellOk(s.cells[c], s.loc[c], s.serial[c], s.working, s.abs.nextId);
    FromSlotKeepsStruct(s, c, s.loc[c].i);
  }

  lemma UnsetNothing(s: St, c: nat)
    requires Shape(s) && c < |s.cells| && s.loc[c].Slot? && s.loc[c].i < WHEEL_SIZE && s.cells[c].cb == 0
    ensures UnsetStep(s, c) == s
  {
  }

  lemma UnsetFrames(s: St, c: nat)
    requires Inv(s) && c < |s.cells| && s.loc[c].Slot?
    ensures s.loc[c].i < WHEEL_SIZE && Frame(s, UnsetStep(s, c))
  {
    hide Holds, Filled, Sorted, SumLen, WaitsLink, QueueLink, BatchLink, ArmedLink, TimersLink, OnlyScheduled,
        WellFormed, UnsetStep;
    WheelInRange(s);
    if s.cells[c].cb == 0 {
      UnsetNothing(s, c);
      FrameReflexive(s);
    } else {
      UnsetFacts(s, c);
      if 0 <= s.working {
        SlotFrameTombstone(s, UnsetStep(s, c), c, s.wheel[s.working]);
      }
    }
  }

  lemma SlotFrameTombstone(s: St, t: St, c: nat, q: seq<nat>)
    requires OnlyCell(s, t, c) && |t.cells| == |s.cells| && t.serial == s.serial
    requires t.cells[c].resource == s.cells[c].resource
    requires t.cells[c].cb == s.cells[c].cb || (t.cells[c].cb == 0 && t.pending) || c !in q
    requires forall k :: 0 <= k < |q| ==> q[k] < |s.cells|
    ensures SlotFrame(s, t, q, q)
  {
  }

  // --------------------------------------------------------- descriptors: drop

  /** The callback armed for `v`, if any, is destroyed. */
  ghost function DropStep(s: St, v: nat): St
    requires Inv(s) && v < VEC_SIZE
  {
    if s.vec[v] == -1 then s
    else
      assert s.loc[s.vec[v]] == Sock(v);
      Destroy(FromVec(s, s.vec[v], v), s.vec[v]).(abs := s.abs.(waits := s.abs.waits - {v}))
  }

  lemma DropFacts(s: St, v: nat)
    requires Inv(s) && v < VEC_SIZE && s.vec[v] != -1
    ensures 0 <= s.vec[v] < |s.loc| && s.loc[s.vec[v]] == Sock(v)
    ensures var t, c := DropStep(s, v), s.vec[v];
      && t.loc == s.loc[c := Free] && t.freeQ == s.freeQ + [c]
      && t == s.(loc := t.loc, freeQ := t.freeQ, vec := s.vec[v := -1], abs := s.abs.(waits := s.abs.waits - {v}))
  {
    hide Holds, Filled, Sorted, SumLen, Links, OnlyScheduled;
    assert s.loc[s.vec[v]] == Sock(v);
  }

  lemma DropKeepsStruct(s: St, v: nat)
    requires Inv(s) && v < VEC_SIZE && s.vec[v] != -1
    ensures Struct(DropStep(s, v), -1)
  {
    hide Holds, SlotSorted, Sorted, SumLen, Links, OnlyScheduled, Without, Destroy, Filled;
    DropFacts(s, v);
    var c := s.vec[v];
    FromVecKeepsStruct(s, c, v);
    var u := FromVec(s, c, v);
    DestroyKeepsStruct(u, c);
    DestroyFromVecKeepsAbs(s, c, v);
    StructIgnoresWaits(Destroy(u, c), s.abs.(waits := s.abs.waits - {v}));
  }

  lemma DestroyFromVecKeepsAbs(s: St, c: nat, v: nat)
    requires c < |s.loc| && v < |s.vec|
    ensures Destroy(FromVec(s, c, v), c).abs == s.abs
  {
  }

  lemma StructIgnoresWaits(s: St, a: Abs)
    requires Struct(s, -1) && a.nextId == s.abs.nextId
    ensures Struct(s.(abs := a), -1)
  {
    hide Holds, SlotSorted, SumLen;
  }

  lemma DropKeepsWaitsLink(s: St, v: nat)
    requires Inv(s) && v < VEC_SIZE && s.vec[v] != -1
    ensures Shape(DropStep(s, v)) && WaitsLink(DropStep(s, v))
  {
    hide Holds, Filled, Sorted, SumLen, QueueLink, BatchLink, ArmedLink, TimersLink, OnlyScheduled, DropStep,
        WellFormed, Placed;
    DropFacts(s, v);
  }

  lemma DroppedWellFormed(a: Abs, v: nat)
    requires WellFormed(a)
    ensures WellFormed(a.(waits := a.waits - {v}))
  {
  }

  lemma DropKeepsInv(s: St, v: nat)
    requires Inv(s) && v < VEC_SIZE
    ensures Inv(DropStep(s, v)) && DropStep(s, v).vec[v] == -1
  {
    hide Holds, Filled, Sorted, SumLen, QueueLink, BatchLink, ArmedLink, TimersLink, WaitsLink, OnlyScheduled,
        DropStep, WellFormed;
    if s.vec[v] == -1 {
      DropNothing(s, v);
    } else {
      DropKeepsStruct(s, v);
      DropFacts(s, v);
      DropKeepsWaitsLink(s, v);
      DroppedWellFormed(s.abs, v);
      var t, c := DropStep(s, v), s.vec[v];
      OtherQueuesLack(s, c);
      QueueLinkSame(s, t, c);
      BatchLinkSame(s, t, c);
      TimersLinkSame(s, t, c);
      ArmedLinkSame(s, t, c);
    }
  }

  lemma DropUnfolds(s: St, v: nat)
    requires Inv(s) && v < VEC_SIZE
    ensures Shape(s)
    ensures s.vec[v] == -1 ==> DropStep(s, v) == s
    ensures s.vec[v] != -1 ==>
      && 0 <= s.vec[v] < |s.loc| && Struct(FromVec(s, s.vec[v], v), s.vec[v])
      && DropStep(s, v) == Destroy(FromVec(s, s.vec[v], v), s.vec[v]).(abs := s.abs.(waits := s.abs.waits - {v}))
  {
    hide Holds, Filled, Sorted, SumLen, Links, OnlyScheduled;
    if s.vec[v] != -1 {
      assert s.loc[s.vec[v]] == Sock(v);
      FromVecKeepsStruct(s, s.vec[v], v);
    }
  }

  lemma DropNothing(s: St, v: nat)
    requires Inv(s) && v < VEC_SIZE && s.vec[v] == -1
    ensures DropStep(s, v) == s
  {
  }

  lemma DropFrames(s: St, v: nat)
    requires Inv(s) && v < VEC_SIZE
    ensures Frame(s, DropStep(s, v))
  {
    hide Holds, Filled, Sorted, SumLen, WaitsLink, QueueLink, BatchLink, ArmedLink, TimersLink, OnlyScheduled,
        WellFormed;
    WheelInRange(s);
    if s.vec[v] == -1 { FrameReflexive(s); } else { DropFacts(s, v); }
  }

  // ---------------------------------------------------------- descriptors: arm

  ghost function ArmStep(s: St, v: nat, x: Cell): St
    requires Inv(s) && v < VEC_SIZE
  {
    CreateKeepsStruct(s, x);
    var s1 := Create(s, x);
    ToVec(s1, NextCell(s), v).(armed := s1.armed[s1.abs.nextId := Call(x.cb, x.arg, x.resource, x.how)],
      abs := Next(s1.abs, Wait(s1.abs.nextId, v)))
  }

  lemma ArmFacts(s: St, v: nat, x: Cell)
    requires Inv(s) && v < VEC_SIZE
    ensures var t, c := ArmStep(s, v, x), NextCell(s);
      && OnlyCell(s, t, c) && t.cells[c] == x && t.serial[c] == s.abs.nextId && t.loc[c] == Sock(v)
      && t == s.(cells := t.cells, freeQ := t.freeQ, loc := t.loc, serial := t.serial,
                 vec := s.vec[v := c], armed := s.armed[s.abs.nextId := Call(x.cb, x.arg, x.resource, x.how)],
                 abs := Next(s.abs, Wait(s.abs.nextId, v)))
    ensures NextCell(s) < |s.loc| ==> s.loc[NextCell(s)] == Free
  {
    hide Holds, Placed, Filled, Sorted, Links, Create;
    CreateFacts(s, x);
  }

  lemma ArmUnfolds(s: St, v: nat, x: Cell)
    requires Inv(s) && v < VEC_SIZE
    ensures var s1, c := Create(s, x), NextCell(s);
      && Shape(s1) && c < |s1.loc| && ArmStep(s, v, x) ==
          ToVec(s1, c, v).(armed := s1.armed[s1.abs.nextId := Call(x.cb, x.arg, x.resource, x.how)],
      abs := Next(s1.abs, Wait(s1.abs.nextId, v)))
  {
    hide Placed, Filled, Sorted, SumLen, Links, OnlyScheduled;
    CreateKeepsStruct(s, x);
  }

  lemma ArmKeepsStruct(s: St, v: nat, x: Cell)
    requires Inv(s) && v < VEC_SIZE && s.vec[v] == -1
    requires x.cb != 0 && 0 <= x.how <= 1 && 0 <= x.resource && KeyOf(x) == v
    ensures Struct(ArmStep(s, v, x), -1)
  {
    hide Holds, SlotSorted, SumLen, Create, Links, ToVec, OnlyScheduled;
    CreateKeepsStruct(s, x);
    CreateFacts(s, x);
    ArmFacts(s, v, x);
    ToVecKeepsStruct(Create(s, x), NextCell(s), v);
    assert ArmStep(s, v, x) == ToVec(Create(s, x), NextCell(s), v)
      .(armed := s.armed[s.abs.nextId := Call(x.cb, x.arg, x.resource, x.how)],
          abs := Next(s.abs, Wait(s.abs.nextId, v)));
  }

  lemma ArmKeepsInv(s: St, v: nat, x: Cell)
    requires Inv(s) && v < VEC_SIZE && s.vec[v] == -1
    requires x.cb != 0 && 0 <= x.how <= 1 && 0 <= x.resource && KeyOf(x) == v
    ensures Inv(ArmStep(s, v, x))
    ensures Step(s.abs, Wait(s.abs.nextId, v)) == Some(ArmStep(s, v, x).abs)
  {
    hide Holds, Placed, Filled, Sorted, SumLen, QueueLink, BatchLink, ArmedLink, TimersLink, OnlyScheduled, ArmStep,
        WellFormed;
    ArmKeepsStruct(s, v, x);
    ArmFacts(s, v, x);
    NotQueued(s, NextCell(s));
    var t, c := ArmStep(s, v, x), NextCell(s);
    QueueLinkSame(s, t, c);
    BatchLinkSame(s, t, c);
    TimersLinkSame(s, t, c);
    ArmedLinkGrows(s, t, c, Call(x.cb, x.arg, x.resource, x.how));
    StepKeepsWellFormed(s.abs, Wait(s.abs.nextId, v));
  }

  lemma ArmFrames(s: St, v: nat, x: Cell)
    requires Inv(s) && v < VEC_SIZE
    ensures Frame(s, ArmStep(s, v, x))
  {
    hide Holds, Placed, Filled, Sorted, SumLen, WaitsLink, QueueLink, BatchLink, ArmedLink, TimersLink,
        OnlyScheduled, ArmStep, SlotFrame;
    ArmFacts(s, v, x);
    NotQueued(s, NextCell(s));
    WheelInRange(s);
    if 0 <= s.working {
      var t := ArmStep(s, v, x);
      SlotFrameGrows(s, t, NextCell(s), s.wheel[s.working], t.wheel[s.working]);
    }
  }

  /** Re-arming a descriptor: dropping and arming together answer to one `Wait`. */
  lemma WaitAnswers(s: St, v: nat, x: Cell)
    requires Inv(s) && v < VEC_SIZE && x.cb != 0 && 0 <= x.how <= 1 && 0 <= x.resource && KeyOf(x) == v
    ensures Inv(DropStep(s, v))
    ensures Step(s.abs, Wait(s.abs.nextId, v)) == Some(ArmStep(DropStep(s, v), v, x).abs)
  {
    hide Holds, Placed, Filled, Sorted, SumLen, QueueLink, BatchLink, ArmedLink, TimersLink, OnlyScheduled, ArmStep,
        WellFormed, DropStep;
    DropKeepsInv(s, v);
    var d := DropStep(s, v);
    ArmFacts(d, v, x);
    if s.vec[v] == -1 { DropNothing(s, v); } else { DropFacts(s, v); }
    assert d.abs.waits[v := s.abs.nextId] == s.abs.waits[v := s.abs.nextId];
  }

  // ------------------------------------------------------- descriptors: cancel

  /** The first cell of `q` for the descriptor, or -1. */
  function FirstMatch(cells: seq<Cell>, q: seq<nat>, sock: nat, how: nat): (c: int)
    requires forall k :: 0 <= k < |q| ==> q[k] < |cells|
    ensures c != -1 ==> c in q && cells[c].resource == sock && cells[c].how == how
    ensures c == -1 ==> forall k :: 0 <= k < |q| ==> !(cells[q[k]].resource == sock && cells[q[k]].how == how)
  {
    if q == [] then -1
    else if cells[q[0]].resource == sock && cells[q[0]].how == how then q[0]
    else FirstMatch(cells, q[1..], sock, how)
  }

  lemma MatchFurther(cells: seq<Cell>, q: seq<nat>, c: nat, sock: nat, how: nat)
    requires 0 < c < |q| && forall k :: 1 <= k < |q| ==> q[k] < |cells|
    requires !(cells[q[c]].resource == sock && cells[q[c]].how == how)
    ensures FirstMatch(cells, q[c..], sock, how) == FirstMatch(cells, q[c + 1..], sock, how)
  {
    assert q[c..][1..] == q[c + 1..];
  }

  lemma MatchHere(cells: seq<Cell>, q: seq<nat>, c: nat, sock: nat, how: nat)
    requires 0 < c <= |q| && forall k :: 1 <= k < |q| ==> q[k] < |cells|
    requires c < |q| ==> cells[q[c]].resource == sock && cells[q[c]].how == how
    ensures FirstMatch(cells, q[c..], sock, how) == if c < |q| then q[c] else -1
  {
  }

  /** The first queued callback for the descriptor is marked cancelled. */
  ghost function MarkStep(s: St, sock: nat, how: nat): St
    requires Inv(s) && how <= 1
  {
    var m := FirstMatch(s.cells, Unrun(s), sock, how);
    var a := Next(s.abs, Cancel(2 * sock + how));
    if m == -1 then s.(abs := a) else s.(cells := s.cells[m := s.cells[m].(cb := 0)], abs := a)
  }

  lemma {:induction false} WithoutAbsentKey(items: seq<Item>, key: int)
    requires forall k :: 0 <= k < |items| ==> items[k].key != key
    ensures WithoutKey(items, key) == items
  {
    if items != [] { WithoutAbsentKey(items[1..], key); }
  }

  lemma {:induction false} LiveItemsKeys(cells: seq<Cell>, serial: seq<nat>, q: seq<nat>, key: int)
    requires forall k :: 0 <= k < |q| ==> q[k] < |cells| && q[k] < |serial| && KeyOf(cells[q[k]]) != key
    ensures forall k :: 0 <= k < |LiveItems(cells, serial, q)| ==> LiveItems(cells, serial, q)[k].key != key
  {
    if q != [] { LiveItemsKeys(cells, serial, q[1..], key); }
  }

  lemma WithoutKeyCons(x: Item, rest: seq<Item>, key: int)
    ensures WithoutKey([x] + rest, key) == if x.key == key then WithoutKey(rest, key) else [x] + WithoutKey(rest, key)
  {
    assert ([x] + rest)[1..] == rest;
  }

  /** Marking the one cell that carries a key removes exactly that key from the live callbacks. */
  lemma {:induction false} MarkingRemovesKey(cells: seq<Cell>, serial: seq<nat>, q: seq<nat>, m: nat, key: int)
    requires forall k :: 0 <= k < |q| ==> q[k] < |cells| && q[k] < |serial|
    requires m in q && KeyOf(cells[m]) == key
    requires forall j, k :: 0 <= j < k < |q| ==> q[j] != q[k]
    requires forall k :: 0 <= k < |q| && KeyOf(cells[q[k]]) == key ==> q[k] == m
    ensures LiveItems(cells[m := cells[m].(cb := 0)], serial, q) == WithoutKey(LiveItems(cells, serial, q), key)
  {
    hide WithoutKey;
    var marked := cells[m := cells[m].(cb := 0)];
    var tail := q[1..];
    var rest := LiveItems(cells, serial, tail);
    WithoutKeyCons(ItemOf(cells, serial, q[0]), rest, key);
    if q[0] == m {
      forall k | 0 <= k < |tail| ensures KeyOf(cells[tail[k]]) != key && tail[k] != m { assert tail[k] == q[k + 1]; }
      LiveItemsSame(cells, serial, marked, serial, tail);
      LiveItemsKeys(cells, serial, tail, key);
      WithoutAbsentKey(rest, key);
    } else {
      MarkingRemovesKey(cells, serial, tail, m, key);
      assert KeyOf(cells[q[0]]) != key;
    }
  }

  /** What is still to be run lies in the working queue, each cell and each descriptor once. */
  lemma UnrunFacts(s: St)
    requires Inv(s)
    ensures forall k :: 0 <= k < |Unrun(s)| ==>
        Unrun(s)[k] < |s.cells| && s.loc[Unrun(s)[k]] == Batch && KeyOk(s.cells[Unrun(s)[k]])
    ensures forall j, k :: 0 <= j < k < |Unrun(s)| ==> Unrun(s)[j] != Unrun(s)[k]
    ensures KeysUnique(s.cells, Unrun(s))
  {
    hide Sorted, SumLen, WaitsLink, QueueLink, TimersLink, OnlyScheduled, WellFormed, LiveItems;
    forall k | 0 <= k < |s.wq| ensures KeyOk(s.cells[s.wq[k]]) {
      assert CellOk(s.cells[s.wq[k]], s.loc[s.wq[k]], s.serial[s.wq[k]], s.working, s.abs.nextId);
    }
  }

  lemma MarkedItems(s: St, sock: nat, how: nat)
    requires Inv(s) && how <= 1
    ensures var t := MarkStep(s, sock, how);
      LiveItems(t.cells, s.serial, Unrun(s)) == WithoutKey(LiveItems(s.cells, s.serial, Unrun(s)), 2 * sock + how)
  {
    hide Filled, Sorted, SumLen, Links, OnlyScheduled, WellFormed, LiveItems, WithoutKey, Unrun, Placed;
    var q, key := Unrun(s), 2 * sock + how;
    UnrunFacts(s);
    var m := FirstMatch(s.cells, q, sock, how);
    if m == -1 {
      forall k | 0 <= k < |q| ensures KeyOf(s.cells[q[k]]) != key { }
      LiveItemsKeys(s.cells, s.serial, q, key);
      WithoutAbsentKey(LiveItems(s.cells, s.serial, q), key);
    } else {
      var j :| 0 <= j < |q| && q[j] == m;
      forall k | 0 <= k < |q| && KeyOf(s.cells[q[k]]) == key ensures q[k] == m {
        assert KeyOf(s.cells[q[j]]) == key;
      }
      MarkingRemovesKey(s.cells, s.serial, q, m, key);
    }
  }

  lemma MarkFacts(s: St, sock: nat, how: nat)
    requires Inv(s) && how <= 1
    ensures var t, m := MarkStep(s, sock, how), FirstMatch(s.cells, Unrun(s), sock, how);
      && t == s.(cells := t.cells, abs := Next(s.abs, Cancel(2 * sock + how))) && |t.cells| == |s.cells|
      && (forall c :: 0 <= c < |s.cells| ==> t.cells[c] == s.cells[c] || (c == m && t.cells[c] == s.cells[c].(cb := 0)))
      && (m != -1 ==> 0 <= m < |s.loc| && s.loc[m] == Batch)
  {
    hide Filled, Sorted, SumLen, Links, OnlyScheduled, WellFormed, LiveItems, WithoutKey, Unrun, Placed;
    UnrunFacts(s);
  }

  lemma MarkUnfolds(s: St, sock: nat, how: nat)
    requires Inv(s) && how <= 1
    ensures s.wq != [] <==> s.firing
    ensures forall k :: 0 <= k < |Unrun(s)| ==> Unrun(s)[k] < |s.cells|
    ensures var m, a := FirstMatch(s.cells, Unrun(s), sock, how), Next(s.abs, Cancel(2 * sock + how));
      && (m != -1 ==> 0 <= m < |s.cells|)
      && MarkStep(s, sock, how) ==
         if m == -1 then s.(abs := a) else s.(cells := s.cells[m := s.cells[m].(cb := 0)], abs := a)
  {
    hide Struct, Links, OnlyScheduled, LiveItems, WithoutKey, Unrun;
    UnrunFacts(s);
  }

  lemma MarkKeepsStruct(s: St, sock: nat, how: nat)
    requires Inv(s) && how <= 1
    ensures Struct(MarkStep(s, sock, how), -1)
  {
    hide Holds, SlotSorted, SumLen, Links, OnlyScheduled, MarkStep;
    MarkFacts(s, sock, how);
  }

  lemma MarkKeepsTimersLink(s: St, sock: nat, how: nat)
    requires Inv(s) && how <= 1
    ensures var t := MarkStep(s, sock, how); Shape(t) && TimersLink(t)
  {
    hide Holds, Sorted, SumLen, BatchLink, WaitsLink, QueueLink, MarkStep, WellFormed, Filled, Placed;
    MarkFacts(s, sock, how);
  }

  lemma MarkKeepsWaitsLink(s: St, sock: nat, how: nat)
    requires Inv(s) && how <= 1 && 2 * sock + how < VEC_SIZE && s.vec[2 * sock + how] == -1
    ensures var t := MarkStep(s, sock, how); Shape(t) && WaitsLink(t)
  {
    hide Holds, Sorted, SumLen, BatchLink, ArmedLink, TimersLink, QueueLink, MarkStep, WellFormed, Filled, Placed;
    MarkFacts(s, sock, how);
    assert s.abs.waits - {2 * sock + how} == s.abs.waits;
  }

  lemma MarkKeepsQueueLink(s: St, sock: nat, how: nat)
    requires Inv(s) && how <= 1
    ensures var t := MarkStep(s, sock, how); Shape(t) && QueueLink(t) && OnlyScheduled(t.cells, t.qHead)
  {
    hide Holds, Sorted, SumLen, BatchLink, ArmedLink, TimersLink, WaitsLink, MarkStep, WellFormed, Filled;
    MarkFacts(s, sock, how);
    WithoutAbsentKey(s.abs.queued, 2 * sock + how);
    var t := MarkStep(s, sock, how);
    forall k | 0 <= k < |s.qHead| ensures t.cells[s.qHead[k]] == s.cells[s.qHead[k]] {
      HoldsElement(s.loc, s.qHead, Queued, k);
    }
  }

  lemma MarkKeepsBatchLink(s: St, sock: nat, how: nat)
    requires Inv(s) && how <= 1
    ensures var t := MarkStep(s, sock, how); Shape(t) && BatchLink(t)
  {
    hide Placed, Sorted, SumLen, Filled, QueueLink, WaitsLink, TimersLink, MarkStep, WellFormed, LiveItems, WithoutKey;
    MarkFacts(s, sock, how);
    MarkedItems(s, sock, how);
  }

  lemma MarkKeepsArmedLink(s: St, sock: nat, how: nat)
    requires Inv(s) && how <= 1
    ensures var t := MarkStep(s, sock, how); Shape(t) && ArmedLink(t)
  {
    hide Holds, Sorted, SumLen, BatchLink, TimersLink, WaitsLink, QueueLink, MarkStep, WellFormed, Filled, Placed;
    MarkFacts(s, sock, how);
  }

  lemma MarkKeepsInv(s: St, sock: nat, how: nat)
    requires Inv(s) && how <= 1 && 2 * sock + how < VEC_SIZE && s.vec[2 * sock + how] == -1
    ensures Inv(MarkStep(s, sock, how))
    ensures Step(s.abs, Cancel(2 * sock + how)) == Some(MarkStep(s, sock, how).abs)
  {
    hide Struct, BatchLink, QueueLink, WaitsLink, TimersLink, OnlyScheduled, MarkStep, WellFormed;
    MarkFacts(s, sock, how);
    MarkKeepsStruct(s, sock, how);
    MarkKeepsTimersLink(s, sock, how);
    MarkKeepsWaitsLink(s, sock, how);
    MarkKeepsQueueLink(s, sock, how);
    MarkKeepsBatchLink(s, sock, how);
    MarkKeepsArmedLink(s, sock, how);
    StepKeepsWellFormed(s.abs, Cancel(2 * sock + how));
  }

  lemma MarkFrames(s: St, sock: nat, how: nat)
    requires Inv(s) && how <= 1
    ensures Frame(s, MarkStep(s, sock, how))
  {
    hide Holds, Filled, Sorted, SumLen, Links, OnlyScheduled, MarkStep;
    MarkFacts(s, sock, how);
    WheelInRange(s);
    if 0 <= s.working {
      var q := s.wheel[s.working];
      assert forall k :: 0 <= k < |q| ==> s.loc[q[k]] == Slot(s.working);
    }
  }

  /** Cancelling: dropping the armed callback and marking the queued one answer to one `Cancel`. */
  lemma CancelAnswers(s: St, sock: nat, how: nat)
    requires Inv(s) && how <= 1 && 2 * sock + how < VEC_SIZE
    ensures Inv(DropStep(s, 2 * sock + how))
    ensures Step(s.abs, Cancel(2 * sock + how)) == Some(MarkStep(DropStep(s, 2 * sock + how), sock, how).abs)
  {
    hide Placed, Filled, Sorted, SumLen, Links, OnlyScheduled, MarkStep, WellFormed, DropStep;
    var v := 2 * sock + how;
    DropKeepsInv(s, v);
    var d := DropStep(s, v);
    MarkFacts(d, sock, how);
    if s.vec[v] == -1 { DropNothing(s, v); } else { DropFacts(s, v); }
    assert d.abs.waits - {v} == s.abs.waits - {v};
  }

  lemma WaitCompletes(s: St, v: nat, x: Cell)
    requires Inv(s) && v < VEC_SIZE && x.cb != 0 && 0 <= x.how <= 1 && 0 <= x.resource && KeyOf(x) == v
    ensures Inv(DropStep(s, v))
    ensures var t := ArmStep(DropStep(s, v), v, x);
      Inv(t) && Frame(s, t) && Step(s.abs, Wait(s.abs.nextId, v)) == Some(t.abs)
  {
    hide Inv, Frame, Step, DropStep, ArmStep;
    DropKeepsInv(s, v);
    DropFrames(s, v);
    var d := DropStep(s, v);
    ArmKeepsInv(d, v, x);
    ArmFrames(d, v, x);
    FrameTransitive(s, d, ArmStep(d, v, x));
    WaitAnswers(s, v, x);
  }

  lemma CancelCompletes(s: St, sock: nat, how: nat)
    requires Inv(s) && how <= 1 && 2 * sock + how < VEC_SIZE
    ensures Inv(DropStep(s, 2 * sock + how))
    ensures var t := MarkStep(DropStep(s, 2 * sock + how), sock, how);
      Inv(t) && Frame(s, t) && Step(s.abs, Cancel(2 * sock + how)) == Some(t.abs)
  {
    hide Inv, Frame, Step, DropStep, MarkStep;
    var v := 2 * sock + how;
    DropKeepsInv(s, v);
    DropFrames(s, v);
    var d := DropStep(s, v);
    MarkKeepsInv(d, sock, how);
    MarkFrames(d, sock, how);
    FrameTransitive(s, d, MarkStep(d, sock, how));
    CancelAnswers(s, sock, how);
  }
}
