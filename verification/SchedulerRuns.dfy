/**
 What a program can rely on over a whole run of the event loop, whatever its callbacks do:
 the wheel is the bag of pending timers, and nothing is called twice.
 */
module SchedulerRuns {
  import opened SchedulerFifo
  import opened SchedulerSpec
  import opened SchedulerTicks
  import opened SchedulerState
  import opened SchedulerSteps
  import opened SchedulerScripts
  import opened SchedulerWalk
  import opened EventLoops
  import opened Options
  import Timevals

  // ------------------------------------------------------ the wheel as a bag

  /** The timers in the first `n` slots. */
  ghost function IdsBelow(s: St, n: nat): set<nat>
    requires |s.wheel| == WHEEL_SIZE && n <= WHEEL_SIZE
    requires forall i, k :: 0 <= i < WHEEL_SIZE && 0 <= k < |s.wheel[i]| ==> s.wheel[i][k] < |s.serial|
  {
    set i, k | 0 <= i < n && 0 <= k < |s.wheel[i]| :: s.serial[s.wheel[i][k]]
  }

  ghost function IdsIn(serial: seq<nat>, q: seq<nat>): set<nat>
    requires forall k :: 0 <= k < |q| ==> q[k] < |serial|
  {
    set k | 0 <= k < |q| :: serial[q[k]]
  }

  lemma {:induction false} CountIds(serial: seq<nat>, q: seq<nat>)
    requires forall k :: 0 <= k < |q| ==> q[k] < |serial|
    requires forall j, k :: 0 <= j < k < |q| ==> serial[q[j]] != serial[q[k]]
    ensures |IdsIn(serial, q)| == |q|
  {
    if q == [] {
      assert IdsIn(serial, q) == {};
    } else {
      var n := |q| - 1;
      CountIds(serial, q[..n]);
      assert IdsIn(serial, q) == IdsIn(serial, q[..n]) + {serial[q[n]]};
      assert serial[q[n]] !in IdsIn(serial, q[..n]);
    }
  }

  /** What the invariant says of the cells in one slot. */
  lemma SlotHolds(s: St, i: nat, k: nat)
    requires Inv(s) && AtRest(s) && i < WHEEL_SIZE && |s.wheel| == WHEEL_SIZE && k < |s.wheel[i]|
    ensures var c := s.wheel[i][k];
      && c < |s.cells| == |s.serial| && s.cells[c].cb != 0 && s.serial[c] in s.abs.timers
      && s.abs.timers[s.serial[c]] == Ticks(s.cells[c].resource) && s.now < Ticks(s.cells[c].resource)
          && Ticks(s.cells[c].resource) % WHEEL_SIZE == i
      && s.home[s.serial[c]] == c && s.serial[c] in s.home
  {
    hide SumLen, Sorted, WaitsLink, QueueLink, BatchLink, ArmedLink, OnlyScheduled, Holds, CellOk;
    HoldsElement(s.loc, s.wheel[i], Slot(i), k);
    LiveCellPending(s, s.wheel[i][k]);
  }

  /**
   The wheel holds exactly the timers set and neither fired nor cancelled, each live, in the slot of its
   deadline, with the deadline still to come; and `timers_set` is their number.
   */
  lemma WheelIsBag(s: St)
    requires Inv(s) && AtRest(s)
    ensures |s.wheel| == WHEEL_SIZE
    ensures forall i, k :: 0 <= i < WHEEL_SIZE && 0 <= k < |s.wheel[i]| ==>
              var c := s.wheel[i][k];
              && c < |s.cells| == |s.serial| && s.cells[c].cb != 0 && s.serial[c] in s.abs.timers
              && s.abs.timers[s.serial[c]] == Ticks(s.cells[c].resource) && s.now < Ticks(s.cells[c].resource)
                  && Ticks(s.cells[c].resource) % WHEEL_SIZE == i
    ensures forall id :: id in s.abs.timers ==>
              exists k :: 0 <= k < |s.wheel[s.abs.timers[id] % WHEEL_SIZE]|
                  && s.serial[s.wheel[s.abs.timers[id] % WHEEL_SIZE][k]] == id
    ensures s.timersSet == |s.abs.timers|
  {
    hide Inv, AtRest;
    InvShape(s);
    forall i, k | 0 <= i < WHEEL_SIZE && 0 <= k < |s.wheel[i]|
      ensures var c := s.wheel[i][k];
        && c < |s.cells| == |s.serial| && s.cells[c].cb != 0 && s.serial[c] in s.abs.timers
        && s.abs.timers[s.serial[c]] == Ticks(s.cells[c].resource) && s.now < Ticks(s.cells[c].resource)
            && Ticks(s.cells[c].resource) % WHEEL_SIZE == i
    {
      SlotHolds(s, i, k);
    }
    forall id | id in s.abs.timers
      ensures exists k ::
          0 <= k < |s.wheel[s.abs.timers[id] % WHEEL_SIZE]| && s.serial[s.wheel[s.abs.timers[id] % WHEEL_SIZE][k]] == id
    {
      TimerHome(s, id);
    }
    CountSlots(s, WHEEL_SIZE);
    assert IdsBelow(s, WHEEL_SIZE) == s.abs.timers.Keys;
    assert s.wheel[..WHEEL_SIZE] == s.wheel;
    CountKept(s);
  }

  lemma CountKept(s: St)
    requires Inv(s)
    ensures s.timersSet == SumLen(s.wheel)
  {
    hide SumLen;
  }

  lemma {:induction false} CountSlots(s: St, n: nat)
    requires Inv(s) && AtRest(s) && n <= WHEEL_SIZE == |s.wheel|
    requires forall i, k :: 0 <= i < WHEEL_SIZE && 0 <= k < |s.wheel[i]| ==> s.wheel[i][k] < |s.serial|
    ensures |IdsBelow(s, n)| == SumLen(s.wheel[..n])
  {
    hide Inv, AtRest, IdsBelow, IdsIn;
    IdsBelowMore(s, n);
    if n > 0 {
      CountSlots(s, n - 1);
      SlotDistinct(s, n - 1);
      CountIds(s.serial, s.wheel[n - 1]);
      SlotsApart(s, n - 1);
      assert s.wheel[..n][..n - 1] == s.wheel[..n - 1];
    }
  }

  lemma IdsBelowMore(s: St, n: nat)
    requires n <= WHEEL_SIZE == |s.wheel|
    requires forall i, k :: 0 <= i < WHEEL_SIZE && 0 <= k < |s.wheel[i]| ==> s.wheel[i][k] < |s.serial|
    ensures IdsBelow(s, n) == if n == 0 then {} else IdsBelow(s, n - 1) + IdsIn(s.serial, s.wheel[n - 1])
  {
  }

  lemma SlotDistinct(s: St, i: nat)
    requires Inv(s) && AtRest(s) && i < WHEEL_SIZE == |s.wheel|
    ensures forall k :: 0 <= k < |s.wheel[i]| ==> s.wheel[i][k] < |s.serial|
    ensures forall j, k :: 0 <= j < k < |s.wheel[i]| ==> s.serial[s.wheel[i][j]] != s.serial[s.wheel[i][k]]
  {
    hide SumLen, WaitsLink, QueueLink, BatchLink, ArmedLink, OnlyScheduled, Holds, CellOk, TimersLink;
    assert SlotSorted(s.serial, s.wheel[i]);
  }

  lemma SlotsApart(s: St, n: nat)
    requires Inv(s) && AtRest(s) && n < WHEEL_SIZE == |s.wheel|
    requires forall i, k :: 0 <= i < WHEEL_SIZE && 0 <= k < |s.wheel[i]| ==> s.wheel[i][k] < |s.serial|
    ensures IdsBelow(s, n) !! IdsIn(s.serial, s.wheel[n])
  {
    hide Inv, AtRest;
    forall i, j, k | 0 <= i < n && 0 <= j < |s.wheel[i]| && 0 <= k < |s.wheel[n]|
      ensures s.serial[s.wheel[i][j]] != s.serial[s.wheel[n][k]]
    {
      SlotHolds(s, i, j);
      SlotHolds(s, n, k);
    }
  }

  // -------------------------------------------------------- whole histories

  lemma FiredIsSpent(t: seq<Event>, k: nat, id: nat)
    requires Legal(t) && k < |t| && (t[k] == Fire(id) || t[k] == Run(id))
    ensures Spent(At(t, k + 1), id)
  {
    hide Replay, Legal;
    AtNext(t, k);
    AtWellFormed(t, k);
    var a, b := At(t, k), At(t, k + 1);
    if t[k] == Run(id) {
      forall x | x in b.batch ensures x.id != id {
        var m :| 0 <= m < |b.batch| && b.batch[m] == x;
        assert a.batch[m + 1] == x;
      }
    }
  }

  lemma {:induction false} CalledIsSpent(t: seq<Event>)
    requires Legal(t)
    ensures forall id :: id in FiredIds(t) ==> Spent(At(t, |t|), id)
    ensures forall i, j :: 0 <= i < j < |FiredIds(t)| ==> FiredIds(t)[i] != FiredIds(t)[j]
  {
    hide Spent, Step, Replay;
    if t != [] {
      var n := |t| - 1;
      PrefixLegal(t, n);
      CalledIsSpent(t[..n]);
      SameAt(t, n);
      AtNext(t, n);
      forall id | id in FiredIds(t[..n]) ensures Spent(At(t, |t|), id) && t[n] != Fire(id) && t[n] != Run(id) {
        SpentStep(At(t, n), t[n], id);
      }
      if t[n].Fire? || t[n].Run? {
        FiredIsSpent(t, n, t[n].id);
      }
    }
  }

  /** In every run, each arming is called at most once, and as was recorded at any time since it was armed. */
  lemma NothingCalledTwice(loop: EventLoop, was: St)
    requires loop.Valid() && Remembers(was, loop.Snap())
    ensures |loop.invoked| == |loop.ids|
    ensures forall i, j :: 0 <= i < j < |loop.ids| ==> loop.ids[i] != loop.ids[j]
    ensures forall k :: 0 <= k < |loop.ids| ==> loop.ids[k] in loop.armed && loop.armed[loop.ids[k]] == loop.invoked[k]
    ensures forall k :: 0 <= k < |loop.ids| && loop.ids[k] < was.abs.nextId && loop.ids[k] in was.armed ==>
              loop.invoked[k] == was.armed[loop.ids[k]]
  {
    hide Inv, AtRest, Replay;
    CalledIsSpent(loop.trace);
  }

  /** Whatever is fired or run is called. */
  lemma {:induction false} FiredIsCalled(t: seq<Event>, m: nat, id: nat) returns (k: nat)
    requires m < |t| && (t[m] == Fire(id) || t[m] == Run(id))
    ensures k < |FiredIds(t)| && FiredIds(t)[k] == id
  {
    var n := |t| - 1;
    if m == n {
      k := |FiredIds(t)| - 1;
    } else {
      k := FiredIsCalled(t[..n], m, id);
    }
  }

  lemma {:induction false} CalledWasFired(t: seq<Event>, id: nat) returns (m: nat)
    requires id in FiredIds(t)
    ensures m < |t| && (t[m] == Fire(id) || t[m] == Run(id))
  {
    var n := |t| - 1;
    if id in FiredIds(t[..n]) {
      m := CalledWasFired(t[..n], id);
    } else {
      m := n;
    }
  }

  /** A timer that fires is called once, with the function and argument it was set with. */
  lemma FiresAsSet(loop: EventLoop, was: St, id: nat, m: nat, fn: nat, arg: nat) returns (k: nat)
    requires loop.Valid() && Remembers(was, loop.Snap())
    requires id < was.abs.nextId && id in was.armed && was.armed[id] == Call(fn, arg, 0, -1)
    requires m < |loop.trace| && loop.trace[m] == Fire(id)
    ensures k < |loop.ids| == |loop.invoked| && loop.ids[k] == id && loop.invoked[k] == Call(fn, arg, 0, -1)
    ensures forall j :: 0 <= j < |loop.ids| && j != k ==> loop.ids[j] != id
  {
    hide Inv, AtRest, Replay, Remembers;
    NothingCalledTwice(loop, was);
    k := FiredIsCalled(loop.trace, m, id);
  }

  /** A timer that is cancelled is never called. */
  lemma CancelledIsNeverCalled(t: seq<Event>, m: nat, id: nat)
    requires Legal(t) && m < |t| && t[m] == Unset(id)
    ensures id !in FiredIds(t)
  {
    hide Spent, Step, Replay, FiredIds;
    if id in FiredIds(t) {
      var p := CalledWasFired(t, id);
      if p < m {
        FiredIsSpent(t, p, id);
        SpentForever(t, p + 1, m, id);
      } else {
        UnsetIsSpent(t, m, id);
        SpentForever(t, m + 1, p, id);
      }
    }
  }

  lemma UnsetIsSpent(t: seq<Event>, k: nat, id: nat)
    requires Legal(t) && k < |t| && t[k] == Unset(id)
    ensures Spent(At(t, k + 1), id)
  {
    hide Replay, Legal;
    AtNext(t, k);
    AtWellFormed(t, k);
  }

  /**
   A handle names the timer it was returned for as long as that timer has neither fired nor been cancelled, and no
   longer: only until then does cancelling it end that timer.
   */
  lemma HandleIsTimers(loop: EventLoop, was: St, h: nat, i: nat, id: nat, d: nat)
    requires loop.Callable() && Remembers(was, loop.Snap())
    requires id < was.abs.nextId && id in was.home && was.home[id] == h
    requires i < |loop.trace| && loop.trace[i] == Set(id, d)
    ensures (forall k :: i < k < |loop.trace| ==> loop.trace[k] != Fire(id) && loop.trace[k] != Unset(id)) <==>
            (h < |loop.cells| == |loop.loc| == |loop.serial| && loop.loc[h].Slot? && loop.cells[h].cb != 0
             && loop.serial[h] == id)
  {
    hide Inv, Replay, Logged;
    var s := loop.Snap();
    InvShape(s);
    EveryTimerAccounted(loop.trace, i, id, d);
    if id in loop.abs.timers {
      TimerHome(s, id);
      TimerLive(s, id);
    } else if h < |loop.cells| && loop.loc[h].Slot? && loop.cells[h].cb != 0 {
      LiveCellPending(s, h);
    }
  }

  /** In every run, a timer set is either still pending, or was fired or cancelled, once. */
  lemma EveryTimerAccounted(t: seq<Event>, i: nat, id: nat, d: nat)
    requires Legal(t) && i < |t| && t[i] == Set(id, d)
    ensures id in At(t, |t|).timers <==> forall k :: i < k < |t| ==> t[k] != Fire(id) && t[k] != Unset(id)
    ensures forall j, k :: i < j < k < |t| && (t[j] == Fire(id) || t[j] == Unset(id)) ==>
        t[k] != Fire(id) && t[k] != Unset(id)
  {
    hide Step, Replay;
    if forall k :: i < k < |t| ==> t[k] != Fire(id) && t[k] != Unset(id) {
      TimerPending(t, i, |t|, id, d);
    } else if id in At(t, |t|).timers {
      var j := PendingWasSet(t, |t|, id);
      var k :| i < k < |t| && (t[k] == Fire(id) || t[k] == Unset(id));
      SetOnce(t, i, j, id, d, At(t, |t|).timers[id]);
    }
    forall j, k | i < j < k < |t| && (t[j] == Fire(id) || t[j] == Unset(id)) ensures t[k] != Fire(id)
        && t[k] != Unset(id) {
      TimerEndsOnce(t, j, k, id);
    }
  }

  /** A number is handed out once. */
  lemma SetOnce(t: seq<Event>, i: nat, j: nat, id: nat, d: nat, e: nat)
    requires Legal(t) && i < |t| && j < |t| && t[i] == Set(id, d) && t[j] == Set(id, e)
    ensures i == j
  {
    AtNext(t, i);
    AtNext(t, j);
    if i < j { IdsGrow(t, i + 1, j); } else if j < i { IdsGrow(t, j + 1, i); }
  }

  // ------------------------------------------------------ one event wait

  /** The callbacks an event wait queues for the ready descriptors below `n`. */
  ghost function TakenItems(waits: map<nat, nat>, fds: set<nat>, n: nat): seq<Item> {
    if n == 0 then []
    else TakenItems(waits, fds, n - 1) + if n - 1 in waits && n - 1 in fds then [Item(waits[n - 1], n - 1)] else []
  }

  /** Taking the ready descriptors puts their callbacks behind what was scheduled. */
  lemma {:induction false} TakesQueue(t: seq<Event>, fds: set<nat>, n: nat)
    requires Legal(t)
    ensures var a, takes := Replay(t).value, Takes(Replay(t).value.waits, fds, n);
      && Legal(t + takes)
      && Replay(t + takes).value.queued == a.queued + TakenItems(a.waits, fds, n)
      && forall v :: v >= n && v in a.waits ==>
          v in Replay(t + takes).value.waits && Replay(t + takes).value.waits[v] == a.waits[v]
  {
    hide Replay;
    var a := Replay(t).value;
    if n == 0 {
      assert t + Takes(a.waits, fds, 0) == t && a.queued + TakenItems(a.waits, fds, 0) == a.queued;
    } else {
      TakesQueue(t, fds, n - 1);
      var before, items := Takes(a.waits, fds, n - 1), TakenItems(a.waits, fds, n - 1);
      if n - 1 in a.waits && n - 1 in fds {
        assert t + Takes(a.waits, fds, n) == (t + before) + [Take(n - 1)];
        ReplayOne(t + before, Take(n - 1));
        assert a.queued + TakenItems(a.waits, fds, n) == (a.queued + items) + [Item(a.waits[n - 1], n - 1)];
      } else {
        assert Takes(a.waits, fds, n) == before && TakenItems(a.waits, fds, n) == items;
      }
    }
  }

  /** The stretch ran the callbacks in order, leaving out none but those whose descriptor it cancelled. */
  ghost predicate RanAll(full: seq<Item>, stretch: seq<Event>) {
    && Accounts(full, Runs(stretch), [], Cancelled(stretch))
    && (forall x :: x in full && x.key !in Cancelled(stretch) ==> x.id in Runs(stretch))
    && (Cancelled(stretch) == {} ==> |Runs(stretch)| == |full| && forall i :: 0 <= i < |full| ==>
        Runs(stretch)[i] == full[i].id)
  }

  /** What an event wait that gets to running callbacks has run: the scheduled and then the ready ones. */
  lemma EventWaitRuns(t0: seq<Event>, fds: set<nat>, t1: seq<Event>)
    requires Legal(t0) && Legal(t1) && At(t1, |t1|).batch == []
    requires BatchEvents(t0 + Takes(Replay(t0).value.waits, fds, VEC_SIZE) + [Begin], t1)
    ensures var a, takes := Replay(t0).value, Takes(Replay(t0).value.waits, fds, VEC_SIZE);
      RanAll(a.queued + TakenItems(a.waits, fds, VEC_SIZE), t1[|t0| + |takes| + 1..])
  {
    hide Step, Replay, Takes, TakenItems, RanAll, BatchEvents;
    var a, takes := Replay(t0).value, Takes(Replay(t0).value.waits, fds, VEC_SIZE);
    TakesQueue(t0, fds, VEC_SIZE);
    BatchFollows(t0 + takes, t1);
    SameAt(t1, |t0 + takes|);
    BatchRuns(t1, |t0 + takes|);
  }

  /** Between a capture and the end of its batch all of it is run but what is cancelled. */
  lemma BatchRuns(t: seq<Event>, b: nat)
    requires Legal(t) && b < |t| && t[b] == Begin && At(t, |t|).batch == [] && forall m :: b < m < |t| ==> t[m] != Begin
    ensures RanAll(At(t, b).queued, t[b + 1..])
  {
    hide Step, Accounts, Replay, Legal;
    BatchSemantics(t, b, |t|);
    assert t[b + 1..|t|] == t[b + 1..];
    var full, stretch := At(t, b).queued, t[b + 1..];
    AccountsKeeps(full, Runs(stretch), [], Cancelled(stretch));
    if Cancelled(stretch) == {} { AccountsWhole(full, Runs(stretch)); }
  }

  lemma BatchFollows(from: seq<Event>, to: seq<Event>)
    requires BatchEvents(from + [Begin], to)
    ensures |from| < |to| && to[..|from|] == from && to[|from|] == Begin
    ensures forall m :: |from| < m < |to| ==> to[m] != Begin
  {
  }

  /**
   An event wait on the event loop, and what it has run if it got that far.  Whatever had been scheduled by then has
   been called, unless select failed.
   */
  method WaitAndRun(loop: EventLoop, tv: Option<Timevals.Timeval>, sel: Selected, script: nat -> seq<Op>)
    returns (r: EventLoops.Status, events: nat, ghost calls: nat)
    requires loop.Valid()
    modifies loop, loop.callwheel, loop.socketVec
    ensures loop.Valid() && loop.firstTime == old(loop.firstTime) && Remembers(old(loop.Snap()), loop.Snap())
    ensures old(loop.trace) <= loop.trace && old(loop.invoked) <= loop.invoked
    ensures r == Eod <==> old(loop.abs.waits.Keys) == {} && old(loop.abs.queued) == []
    ensures r == WouldBlock <==>
        && old(loop.abs.waits.Keys) != {} && old(loop.abs.queued) == [] && sel == TimedOut
        && tv.Some? && (tv.value.sec != 0 || tv.value.usec != 0)
    ensures r == Internal <==> old(loop.abs.waits.Keys) != {} && sel == Failed
    ensures r != BadArgs
    ensures r != Ok ==> loop.trace == old(loop.trace) && loop.Snap() == old(loop.Snap()) && events == 0
    ensures r == Ok ==>
      var fds := if sel.Ready? then sel.fds else {};
      var full := old(loop.abs).queued + TakenItems(old(loop.abs).waits, fds, VEC_SIZE);
      var from := old(loop.trace) + Takes(old(loop.abs).waits, fds, VEC_SIZE) + [Begin];
      && events == |full| && BatchEvents(from, loop.trace) && from <= loop.trace && RanAll(full, loop.trace[|from|..])
      && CallsAnswered(from, BookOf(loop.Snap()), script, 0, calls, loop.trace)
    ensures r != Internal ==> forall i, id ::
      0 <= i < |old(loop.trace)| && old(loop.trace)[i] == Event.Schedule(id) ==> id in loop.ids
  {
    hide Step, Accounts, RanAll, Inv, AtRest, Remembers, EventLoop.Snap, Takes, TakenItems, Logged, Replay,
        CallsAnswered;
    ghost var t0, a := loop.trace, loop.abs;
    RestIsIdle(loop);
    r, events, calls := loop.EventWait(tv, sel, script);
    IdsAreCalled(loop);
    if r == Ok {
      ghost var fds := if sel.Ready? then sel.fds else {};
      TakenLength(a.waits, fds, VEC_SIZE);
      BatchFollows(t0 + Takes(a.waits, fds, VEC_SIZE), loop.trace);
      EventWaitRuns(t0, fds, loop.trace);
      ScheduledAreCalled(t0, fds, loop.trace);
    } else {
      ScheduledWereCalled(t0);
    }
  }

  lemma RestIsIdle(loop: EventLoop)
    requires loop.Valid()
    ensures Legal(loop.trace) && Replay(loop.trace) == Some(loop.abs) && loop.abs.batch == []
  {
    hide Struct, TimersLink, WaitsLink, QueueLink, ArmedLink, OnlyScheduled, WellFormed, Replay, Logged;
  }

  lemma IdsAreCalled(loop: EventLoop)
    requires loop.Callable()
    ensures loop.ids == FiredIds(loop.trace) && Legal(loop.trace)
  {
    hide Inv, FiredIds, Replay;
  }

  /** What was scheduled and has not run waits to be run. */
  lemma ScheduledWaits(t: seq<Event>, i: nat, id: nat)
    requires Legal(t) && i < |t| && t[i] == Event.Schedule(id) && At(t, |t|).batch == [] && id !in FiredIds(t)
    ensures Item(id, -1) in At(t, |t|).queued
  {
    hide Step, Replay, FiredIds;
    forall m | i < m < |t| ensures t[m] != Run(id) {
      if t[m] == Run(id) { var k := FiredIsCalled(t, m, id); }
    }
    StaysInLine(t, i, |t|, Item(id, -1));
  }

  lemma ScheduledWereCalled(t: seq<Event>)
    requires Legal(t) && Replay(t).value.batch == []
    ensures Replay(t).value.queued == [] ==>
              forall i, id :: 0 <= i < |t| && t[i] == Event.Schedule(id) ==> id in FiredIds(t)
  {
    hide Step, Replay, FiredIds;
    forall i, id | 0 <= i < |t| && t[i] == Event.Schedule(id) && id !in FiredIds(t)
      ensures Replay(t).value.queued != []
    {
      ScheduledWaits(t, i, id);
    }
  }

  lemma ScheduledAreCalled(t0: seq<Event>, fds: set<nat>, t1: seq<Event>)
    requires Legal(t0) && Legal(t1) && At(t1, |t1|).batch == [] && Replay(t0).value.batch == []
    requires BatchEvents(t0 + Takes(Replay(t0).value.waits, fds, VEC_SIZE) + [Begin], t1)
    ensures forall i, id :: 0 <= i < |t0| && t0[i] == Event.Schedule(id) ==> id in FiredIds(t1)
  {
    hide Step, Replay, Takes, TakenItems, BatchEvents, FiredIds;
    var a, takes := Replay(t0).value, Takes(Replay(t0).value.waits, fds, VEC_SIZE);
    var from := t0 + takes + [Begin];
    EventWaitRuns(t0, fds, t1);
    BatchFollows(t0 + takes, t1);
    forall i, id | 0 <= i < |t0| && t0[i] == Event.Schedule(id) ensures id in FiredIds(t1) {
      assert t1[i] == t0[i];
      if id in FiredIds(t0) {
        var m := CalledWasFired(t0, id);
        assert t1[m] == t0[m];
        var k := FiredIsCalled(t1, m, id);
      } else {
        ScheduledWaits(t0, i, id);
        var full := a.queued + TakenItems(a.waits, fds, VEC_SIZE);
        assert Item(id, -1) in full;
        var m := RanMeans(full, t1[|from|..], Item(id, -1));
        assert t1[|from| + m] == Run(id);
        var k := FiredIsCalled(t1, |from| + m, id);
      }
    }
  }

  /** Whatever of the batch was not cancelled in the stretch was run in it, and nothing else was run. */
  lemma RanMeans(full: seq<Item>, stretch: seq<Event>, x: Item) returns (m: nat)
    requires RanAll(full, stretch) && x in full
    requires forall c :: 0 <= c < |stretch| && stretch[c].Cancel? ==> stretch[c].key != x.key
    ensures m < |stretch| && stretch[m] == Run(x.id)
    ensures forall c :: 0 <= c < |stretch| && stretch[c].Run? ==> exists y :: y in full && y.id == stretch[c].id
  {
    hide Accounts;
    NotCancelled(stretch, x.key);
    m := RunsHas(stretch, x.id);
    AccountsKeeps(full, Runs(stretch), [], Cancelled(stretch));
    forall c | 0 <= c < |stretch| && stretch[c].Run? ensures exists y :: y in full && y.id == stretch[c].id {
      RunIsCounted(stretch, c);
    }
  }

  lemma {:induction false} NotCancelled(s: seq<Event>, key: int)
    requires forall c :: 0 <= c < |s| && s[c].Cancel? ==> s[c].key != key
    ensures key !in Cancelled(s)
  {
    if s != [] {
      NotCancelled(s[..|s| - 1], key);
    }
  }

  lemma {:induction false} RunsHas(s: seq<Event>, id: nat) returns (m: nat)
    requires id in Runs(s)
    ensures m < |s| && s[m] == Run(id)
  {
    var n := |s| - 1;
    if s[n] == Run(id) {
      m := n;
    } else {
      m := RunsHas(s[..n], id);
    }
  }

  lemma {:induction false} RunIsCounted(s: seq<Event>, c: nat)
    requires c < |s| && s[c].Run?
    ensures s[c].id in Runs(s)
  {
    var n := |s| - 1;
    if c < n {
      RunIsCounted(s[..n], c);
    }
  }

  /** These are the captures and callbacks of the armed descriptors below `n` that are ready, ascending. */
  ghost predicate AreTaken(takes: seq<Event>, items: seq<Item>, waits: map<nat, nat>, fds: set<nat>, n: nat) {
    && |takes| == |items|
    && (forall i :: 0 <= i < |takes| ==>
          && takes[i].Take? && takes[i].key < n && takes[i].key in waits && takes[i].key in fds
          && items[i] == Item(waits[takes[i].key], takes[i].key))
    && (forall i, j :: 0 <= i < j < |takes| ==> takes[i].key < takes[j].key)
    && (forall v :: 0 <= v < n && v in waits && v in fds ==> Take(v) in takes && Item(waits[v], v) in items)
  }

  /** The captures are those of the armed descriptors reported ready, ascending. */
  lemma TakesAre(waits: map<nat, nat>, fds: set<nat>, n: nat)
    ensures var takes, items := Takes(waits, fds, n), TakenItems(waits, fds, n);
      && |takes| == |items|
      && (forall i :: 0 <= i < |takes| ==>
            && takes[i].Take? && takes[i].key < n && takes[i].key in waits && takes[i].key in fds
            && items[i] == Item(waits[takes[i].key], takes[i].key))
      && (forall i, j :: 0 <= i < j < |takes| ==> takes[i].key < takes[j].key)
      && (forall v :: 0 <= v < n && v in waits && v in fds ==> Take(v) in takes && Item(waits[v], v) in items)
  {
    hide Takes, TakenItems;
    TakesAreTaken(waits, fds, n);
  }

  lemma {:induction false} TakesAreTaken(waits: map<nat, nat>, fds: set<nat>, n: nat)
    ensures AreTaken(Takes(waits, fds, n), TakenItems(waits, fds, n), waits, fds, n)
  {
    hide AreTaken;
    if n == 0 {
      NoneAreTaken(waits, fds);
    } else {
      TakesAreTaken(waits, fds, n - 1);
      OneMoreTaken(Takes(waits, fds, n - 1), TakenItems(waits, fds, n - 1), waits, fds, n);
    }
  }

  lemma NoneAreTaken(waits: map<nat, nat>, fds: set<nat>)
    ensures AreTaken([], [], waits, fds, 0)
  {
  }

  lemma OneMoreTaken(takes: seq<Event>, items: seq<Item>, waits: map<nat, nat>, fds: set<nat>, n: nat)
    requires n > 0 && AreTaken(takes, items, waits, fds, n - 1)
    ensures if n - 1 in waits && n - 1 in fds
      then AreTaken(takes + [Take(n - 1)], items + [Item(waits[n - 1], n - 1)], waits, fds, n)
      else AreTaken(takes, items, waits, fds, n) && takes + [] == takes && items + [] == items
  {
    if n - 1 in waits && n - 1 in fds {
      var takes2, items2 := takes + [Take(n - 1)], items + [Item(waits[n - 1], n - 1)];
      forall v | 0 <= v < n && v in waits && v in fds ensures Take(v) in takes2 && Item(waits[v], v) in items2 {
        if v == n - 1 { assert takes2[|takes|] == Take(v) && items2[|items|] == Item(waits[v], v); }
      }
    }
  }

  lemma {:induction false} TakenLength(waits: map<nat, nat>, fds: set<nat>, n: nat)
    ensures |TakenItems(waits, fds, n)| == |Takes(waits, fds, n)|
  {
    if n > 0 {
      TakenLength(waits, fds, n - 1);
    }
  }
}
