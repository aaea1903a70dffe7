/**
 Sessions on the event loop: runs from a new loop on, or from any, whose outcome is stated in full, under any callbacks.
 */
module SchedulerSessions {
  import opened EventLoops
  import opened Options
  import opened SchedulerCalls
  import opened SchedulerFifo
  import opened SchedulerRuns
  import opened SchedulerScripts
  import opened SchedulerSpec
  import opened SchedulerState
  import opened SchedulerSteps
  import opened SchedulerTicks
  import opened SchedulerWalk
  import Timevals

  /** The clock is started, and two timers are set. */
  method TwoTimers(start: Timevals.Timeval, fn: nat, arg: nat, other: nat) returns (loop: EventLoop, first: nat)
    requires fn != 0 && other != 0 && start.Normal() && start.sec != 0
    ensures fresh(loop) && fresh(loop.callwheel) && fresh(loop.socketVec) && loop.Valid()
    ensures loop.trace == [Set(0, 5), Set(1, 7)] && loop.firstTime == start && loop.currentOffset == 0
    ensures loop.abs.nextId == 2 && 0 in loop.home && loop.home[0] == first
    ensures 1 in loop.armed && loop.armed[1] == Call(fn, arg, 0, -1)
  {
    hide Inv, AtRest, Logged, Ticks, Narrow, Remembers, SlotFrame;
    loop := new EventLoop();
    var r, calls := loop.UpdateTime(start, n => []);
    TicksKept(5);
    TicksKept(7);
    first := loop.TimerSet(5, other, 0);
    var second := loop.TimerSet(7, fn, arg);
  }

  /** The first timer is cancelled by its handle, a descriptor is armed, another cancelled, and something scheduled. */
  method CancelFirst(loop: EventLoop, first: nat, other: nat, ghost was: St)
    requires loop.Valid() && was == loop.Snap() && other != 0 && loop.trace == [Set(0, 5), Set(1, 7)]
    requires loop.abs.nextId == 2 && 0 in loop.home && loop.home[0] == first
    modifies loop, loop.callwheel, loop.socketVec
    ensures loop.Valid() && Remembers(was, loop.Snap()) && loop.firstTime == old(loop.firstTime)
    ensures old(loop.trace) + [Unset(0)] <= loop.trace && loop.currentOffset == old(loop.currentOffset)
  {
    hide Inv, AtRest, Logged, Replay, Remembers, SlotFrame;
    RemembersStill(was, was, was);
    HandleIsTimers(loop, was, first, 0, 0, 5);
    loop.TimerCancel(first);
    ghost var s := loop.Snap();
    RemembersOn(was, was, s);
    var r := loop.Wait(4, 0, other, 1);
    ghost var t := loop.Snap();
    RemembersOn(was, s, t);
    r := loop.Cancel(5, 1);
    ghost var u := loop.Snap();
    RemembersOn(was, t, u);
    loop.Schedule(other, 2);
    RemembersOn(was, u, loop.Snap());
  }

  /** A timer whose deadline the scheduler at rest has passed was called or cancelled. */
  lemma PassedIsServed(loop: EventLoop, i: nat, id: nat, d: nat)
    requires loop.Valid() && i < |loop.trace| && loop.trace[i] == Set(id, d) && d <= loop.currentOffset
    ensures id in loop.ids || exists m :: 0 <= m < |loop.trace| && loop.trace[m] == Unset(id)
  {
    hide Inv, Replay, FiredIds;
    InvShape(loop.Snap());
    var t := loop.trace;
    EveryTimerAccounted(t, i, id, d);
    if id in loop.abs.timers {
      TimerPending(t, i, |t|, id, d);
    } else {
      var k :| i < k < |t| && (t[k] == Fire(id) || t[k] == Unset(id));
      if t[k] == Fire(id) { var j := FiredIsCalled(t, k, id); }
    }
  }

  /**
   A session: the clock is started, two timers are set and the first cancelled by its handle, a descriptor is armed and
   another cancelled, something is scheduled, callbacks are run and the clock moves on, all under any callbacks
   whatever.  The cancelled timer is never called; the other, once its time has come, has been called as it was
   set or cancelled by a callback; and the wheel is the bag of what is left.
   */
  method Session(start: Timevals.Timeval, later: Timevals.Timeval, fn: nat, arg: nat, other: nat, sel: Selected,
                 running: nat -> seq<Op>, ticking: nat -> seq<Op>) returns (loop: EventLoop)
    requires fn != 0 && other != 0 && start.Normal() && later.Normal() && start.sec != 0 && later.sec != 0
    ensures fresh(loop) && loop.Valid() && 0 !in loop.ids
    ensures |loop.ids| == |loop.invoked|
    ensures forall k :: 0 <= k < |loop.ids| && loop.ids[k] == 1 ==> loop.invoked[k] == Call(fn, arg, 0, -1)
    ensures (later.sec - start.sec) * 1000000 + later.usec - start.usec >= 7000 ==>
              1 in loop.ids || exists m :: 0 <= m < |loop.trace| && loop.trace[m] == Unset(1)
    ensures loop.timersSet == |loop.abs.timers|
  {
    hide Inv, AtRest, Logged, Replay, Remembers, FiredIds, RanAll, Takes, TakenItems, BatchEvents;
    var first;
    loop, first := TwoTimers(start, fn, arg, other);
    ghost var was := loop.Snap();
    CancelFirst(loop, first, other, was);
    ghost var s := loop.Snap();
    ghost var made;
    var r, events;
    r, events, made := WaitAndRun(loop, None, sel, running);
    ghost var t := loop.Snap();
    RemembersOn(was, s, t);
    var calls;
    r, calls := loop.UpdateTime(later, ticking);
    RemembersOn(was, t, loop.Snap());
    assert loop.trace[2] == Unset(0) && loop.trace[1] == Set(1, 7);
    CancelledIsNeverCalled(loop.trace, 2, 0);
    IdsAreCalled(loop);
    NothingCalledTwice(loop, was);
    WheelIsBag(loop.Snap());
    if (later.sec - start.sec) * 1000000 + later.usec - start.usec >= 7000 {
      PassedIsServed(loop, 1, 1, 7);
    }
  }

  // ------------------------------------------------------- sessions of batches

  /** What an event wait that runs callbacks took over. */
  lemma BatchTakenOver(t0: seq<Event>, fds: set<nat>, t1: seq<Event>)
    requires Legal(t0) && Legal(t1) && Replay(t0).value.batch == []
    requires t0 + Takes(Replay(t0).value.waits, fds, VEC_SIZE) + [Begin] <= t1
    ensures var a, takes := Replay(t0).value, Takes(Replay(t0).value.waits, fds, VEC_SIZE);
      && TakenOver(t1, |t0 + takes|, a.queued + TakenItems(a.waits, fds, VEC_SIZE))
      && t1[..|t0 + takes| + 1] == t0 + takes + [Begin]
  {
    hide Replay, Step, Takes, TakenItems;
    var a, takes := Replay(t0).value, Takes(Replay(t0).value.waits, fds, VEC_SIZE);
    TakesQueue(t0, fds, VEC_SIZE);
    var b := |t0 + takes|;
    assert t1[..b + 1] == t0 + takes + [Begin];
    assert t1[b] == (t0 + takes + [Begin])[b];
    assert t1[..b] == t1[..b + 1][..b] == t0 + takes;
    AtNext(t1, b);
    BeginNeedsNone(At(t1, b));
  }

  lemma BeginNeedsNone(a: Abs)
    ensures Step(a, Begin).Some? ==> a.batch == []
  {
  }

  lemma {:induction false} NoneCalledYet(t: seq<Event>)
    requires forall m :: 0 <= m < |t| ==> !t[m].Fire? && !t[m].Run?
    ensures FiredIds(t) == []
  {
    if t != [] {
      NoneCalledYet(t[..|t| - 1]);
    }
  }

  /** Two callbacks are armed for descriptors 4 and 5. */
  method TwoWaits(f: nat, x: nat, g: nat, y: nat) returns (loop: EventLoop)
    requires f != 0 && g != 0
    ensures fresh(loop) && fresh(loop.callwheel) && fresh(loop.socketVec) && loop.Valid()
    ensures loop.trace == [Event.Wait(0, 8), Event.Wait(1, 10)] && loop.invoked == []
    ensures loop.abs.waits == map[8 := 0, 10 := 1] && loop.abs.queued == [] && loop.abs.nextId == 2
    ensures 0 in loop.armed && loop.armed[0] == Call(f, x, 4, 0) && 1 in loop.armed && loop.armed[1] == Call(g, y, 5, 0)
  {
    hide Inv, AtRest, Logged, SlotFrame;
    loop := new EventLoop();
    var r := loop.Wait(4, 0, f, x);
    r := loop.Wait(5, 0, g, y);
  }

  lemma BothReady(waits: map<nat, nat>)
    requires waits == map[8 := 0, 10 := 1]
    ensures var items := TakenItems(waits, {8, 10}, VEC_SIZE);
      |items| >= 2 && items[0] == Item(0, 8) && items[1] == Item(1, 10)
  {
    var takes := Takes(waits, {8, 10}, VEC_SIZE);
    hide Takes, TakenItems;
    TakesAre(waits, {8, 10}, VEC_SIZE);
    assert 8 in waits && 10 in waits && waits[8] == 0 && waits[10] == 1;
    EightAndTen(takes);
  }

  lemma EightAndTen(takes: seq<Event>)
    requires Take(8) in takes && Take(10) in takes
    requires forall i :: 0 <= i < |takes| ==> takes[i].Take? && (takes[i].key == 8 || takes[i].key == 10)
    requires forall i, j :: 0 <= i < j < |takes| ==> takes[i].key < takes[j].key
    ensures |takes| >= 2 && takes[0] == Take(8) && takes[1] == Take(10)
  {
    var i :| 0 <= i < |takes| && takes[i] == Take(8);
    var j :| 0 <= j < |takes| && takes[j] == Take(10);
    assert i == 0 by { assert takes[0].key >= 8; }
    assert j == 1 by { assert j > 0 && takes[1].key > 8; }
  }

  /**
   Two descriptors are ready, and the callback of the first cancels the second's: the first is called, as it was
   armed, and the second never is.
   */
  method NeighbourCancelled(f: nat, x: nat, g: nat, y: nat, script: nat -> seq<Op>) returns (loop: EventLoop)
    requires f != 0 && g != 0 && Op.Cancel(5, 0) in script(0)
    ensures fresh(loop) && loop.Valid() && |loop.ids| == |loop.invoked| > 0
    ensures loop.ids[0] == 0 && loop.invoked[0] == Call(f, x, 4, 0) && 1 !in loop.ids
  {
    hide Inv, AtRest, Logged, Replay, Remembers, RanAll, Takes, TakenItems, BatchEvents, CallsAnswered, FiredIds, Step;
    loop := TwoWaits(f, x, g, y);
    ghost var was, t0, a := loop.Snap(), loop.trace, loop.abs;
    RestIsIdle(loop);
    var r, events;
    ghost var n;
    r, events, n := WaitAndRun(loop, None, Ready({8, 10}), script);
    BothReady(a.waits);
    assert 8 in a.waits.Keys && r == Ok;
    ghost var full := a.queued + TakenItems(a.waits, {8, 10}, VEC_SIZE);
    assert full[0] == Item(0, 8) && full[1] == Item(1, 10);
    ghost var b := |t0 + Takes(a.waits, {8, 10}, VEC_SIZE)|;
    RestIsIdle(loop);
    BatchTakenOver(t0, {8, 10}, loop.trace);
    IdsAreCalled(loop);
    FirstIsCalledFirst(loop.trace, b, full, BookOf(loop.Snap()), script, n);
    assert full[1..][0] == Item(1, 10);
    FirstCancelsLater(loop.trace, b, full, BookOf(loop.Snap()), script, n, Item(1, 10), 5, 0);
    TakesAre(a.waits, {8, 10}, VEC_SIZE);
    NoneCalledYet(loop.trace[..b]);
    NothingCalledTwice(loop, was);
  }

  lemma {:induction false} AccountsNoneDropped(full: seq<Item>, done: seq<nat>, c: set<int>)
    requires Accounts(full, done, [], c) && forall x :: x in full ==> x.key !in c
    ensures |done| == |full| && forall i :: 0 <= i < |full| ==> done[i] == full[i].id
  {
    if full != [] {
      assert full[0] in full && forall x :: x in full[1..] ==> x in full;
      AccountsNoneDropped(full[1..], done[1..], c);
      forall i | 0 <= i < |full| ensures done[i] == full[i].id {
        if i > 0 { assert done[i] == done[1..][i - 1] && full[i] == full[1..][i - 1]; }
      }
    }
  }

  lemma {:induction false} CancelsHaveKeys(s: seq<Event>)
    ensures forall key :: key in Cancelled(s) ==> key >= 0
  {
    if s != [] {
      CancelsHaveKeys(s[..|s| - 1]);
    }
  }

  /** What a batch calls is what it runs. */
  lemma {:induction false} CallsAreRuns(from: seq<Event>, to: seq<Event>)
    requires BatchEvents(from, to)
    ensures FiredIds(to) == FiredIds(from) + Runs(to[|from|..])
    decreases |to|
  {
    if |to| == |from| {
      assert to == from && to[|from|..] == [];
    } else {
      var n := |to| - 1;
      CallsAreRuns(from, to[..n]);
      assert to[|from|..][..n - |from|] == to[..n][|from|..] && to[|from|..][n - |from|] == to[n];
    }
  }

  /** A batch of scheduled callbacks calls all of them, in order, whatever they do. */
  lemma ScheduledBatchRuns(from: seq<Event>, to: seq<Event>, full: seq<Item>)
    requires from <= to && BatchEvents(from, to) && RanAll(full, to[|from|..]) && forall x :: x in full ==> x.key == -1
    ensures |FiredIds(to)| == |FiredIds(from)| + |full| && FiredIds(from) <= FiredIds(to)
    ensures forall i :: 0 <= i < |full| ==> FiredIds(to)[|FiredIds(from)| + i] == full[i].id
  {
    hide Accounts, FiredIds, Runs, Cancelled, BatchEvents;
    CallsAreRuns(from, to);
    CancelsHaveKeys(to[|from|..]);
    AccountsNoneDropped(full, Runs(to[|from|..]), Cancelled(to[|from|..]));
  }

  /** Two callbacks are scheduled. */
  method TwoScheduled(f: nat, x: nat, g: nat, y: nat) returns (loop: EventLoop)
    requires f != 0 && g != 0
    ensures fresh(loop) && fresh(loop.callwheel) && fresh(loop.socketVec) && loop.Valid()
    ensures loop.trace == [Event.Schedule(0), Event.Schedule(1)] && loop.invoked == []
    ensures loop.abs.queued == [Item(0, -1), Item(1, -1)] && loop.abs.waits == map[] && loop.abs.nextId == 2
    ensures 0 in loop.armed && loop.armed[0] == Call(f, x, -1, -1)
    ensures 1 in loop.armed && loop.armed[1] == Call(g, y, -1, -1)
  {
    hide Inv, AtRest, Logged, SlotFrame;
    loop := new EventLoop();
    loop.Schedule(f, x);
    loop.Schedule(g, y);
  }

  /** With nothing armed, an event wait calls what was scheduled, in order, whatever select would report. */
  method ScheduledInOrder(f: nat, x: nat, g: nat, y: nat, tv: Option<Timevals.Timeval>, sel: Selected,
                          script: nat -> seq<Op>) returns (loop: EventLoop, events: nat)
    requires f != 0 && g != 0
    ensures fresh(loop) && loop.Valid() && events == 2
    ensures loop.invoked == [Call(f, x, -1, -1), Call(g, y, -1, -1)]
  {
    hide Inv, AtRest, Logged, Replay, Remembers, RanAll, Takes, TakenItems, BatchEvents, CallsAnswered, FiredIds;
    loop := TwoScheduled(f, x, g, y);
    ghost var was, t0, a := loop.Snap(), loop.trace, loop.abs;
    ghost var fds := if sel.Ready? then sel.fds else {};
    NothingTaken(a.waits, fds, VEC_SIZE);
    TakenLength(a.waits, fds, VEC_SIZE);
    var r;
    ghost var n;
    r, events, n := WaitAndRun(loop, tv, sel, script);
    ghost var from := t0 + Takes(a.waits, fds, VEC_SIZE) + [Begin];
    ghost var full := a.queued + TakenItems(a.waits, fds, VEC_SIZE);
    assert full == a.queued;
    ScheduledBatchRuns(from, loop.trace, full);
    NoneCalledYet(from);
    IdsAreCalled(loop);
    NothingCalledTwice(loop, was);
    assert loop.ids[|FiredIds(from)| + 0] == full[0].id && loop.ids[|FiredIds(from)| + 1] == full[1].id;
  }

  // ------------------------------------------------------ sessions of timers

  lemma UpdateFollows(from: seq<Event>, to: seq<Event>, now: nat)
    requires UpdateEvents(from + [Advance(now)], to)
    ensures from <= to && |from| < |to| && to[..|from|] == from && to[|from|] == Advance(now)
    ensures forall m :: |from| < m < |to| ==> !to[m].Advance? && !to[m].Run?
  {
    assert to[|from|] == (from + [Advance(now)])[|from|];
  }

  lemma ArmedIsKnown(s: St, id: nat)
    requires Inv(s) && id in s.armed
    ensures id < s.abs.nextId
  {
    hide Struct, TimersLink, WaitsLink, QueueLink, BatchLink, OnlyScheduled, WellFormed;
  }

  /** An update to a time short of its deadline does not call a timer that was just set. */
  lemma TooShort(from: seq<Event>, to: seq<Event>, now: nat, i: nat, id: nat, d: nat)
    requires Legal(to) && UpdateEvents(from + [Advance(now)], to) && now < d
    requires |from| == i + 1 && from[i] == Set(id, d)
    ensures id !in FiredIds(to) && from <= to
  {
    hide Replay, Legal, Step, FiredIds, UpdateEvents, Spent;
    UpdateFollows(from, to, now);
    if id in FiredIds(to) {
      var m := CalledWasFired(to, id);
      if m < i {
        SetIsNew(to, m, i, id, d);
      } else {
        var i2, a, d2 := FiresInFirstAdvanceReachingIt(to, m, id);
        SetOnce(to, i, i2, id, d, d2);
      }
    }
  }

  lemma SetIsNew(t: seq<Event>, m: nat, i: nat, id: nat, d: nat)
    requires Legal(t) && m < i < |t| && t[i] == Set(id, d)
    ensures t[m] != Fire(id) && t[m] != Run(id)
  {
    hide Replay, Legal;
    AtNext(t, i);
    IdsGrow(t, m + 1, i);
    if t[m] == Fire(id) || t[m] == Run(id) {
      FiredIsSpent(t, m, id);
    }
  }

  /**
   A timer set when the clock has moved on already.  An update by less than the delay does not call it; the first
   that reaches its deadline does, as it was set, or finds it cancelled by a callback.
   */
  method LateTimer(loop: EventLoop, delay: nat, fn: nat, arg: nat, short: Timevals.Timeval, long: Timevals.Timeval,
                   before: nat -> seq<Op>, after: nat -> seq<Op>) returns (ghost id: nat, ghost mid: seq<nat>)
    requires loop.Valid() && loop.firstTime.sec != 0 && fn != 0
    requires 0 < delay && loop.currentOffset + delay <= 0x7fff_ffff
    requires short.Normal() && short.sec != 0 && long.Normal() && long.sec != 0
    requires loop.currentOffset * 1000 <= Since(loop.firstTime, short) < (loop.currentOffset + delay) * 1000
    requires (loop.currentOffset + delay) * 1000 <= Since(loop.firstTime, long)
    modifies loop, loop.callwheel, loop.socketVec
    ensures loop.Valid() && mid <= loop.ids && id !in mid
    ensures id in loop.ids || exists m :: 0 <= m < |loop.trace| && loop.trace[m] == Unset(id)
    ensures forall k :: 0 <= k < |loop.ids| == |loop.invoked| && loop.ids[k] == id ==>
              loop.invoked[k] == Call(fn, arg, 0, -1)
  {
    hide Inv, AtRest, Logged, Replay, Remembers, FiredIds, CallsAnswered, Ticks, Narrow, UpdateEvents;
    id := loop.abs.nextId;
    ghost var i, d := |loop.trace|, loop.currentOffset + delay;
    TicksKept(loop.currentOffset + delay);
    var handle := loop.TimerSet(delay, fn, arg);
    ArmedIsKnown(loop.Snap(), id);
    ghost var was := loop.Snap();
    ghost var t0 := loop.trace;
    var r, calls := loop.UpdateTime(short, before);
    ghost var s := loop.Snap();
    IdsAreCalled(loop);
    mid := loop.ids;
    ghost var t1 := loop.trace;
    TooShort(t0, t1, s.now, i, id, d);
    r, calls := loop.UpdateTime(long, after);
    RemembersOn(was, s, loop.Snap());
    IdsAreCalled(loop);
    UpdateFollows(t1, loop.trace, loop.currentOffset);
    FiredPrefix(loop.trace, |t1|);
    PassedIsServed(loop, i, id, d);
    NothingCalledTwice(loop, was);
  }

  /** The microseconds from one time to another. */
  ghost function Since(first: Timevals.Timeval, tv: Timevals.Timeval): int {
    (tv.sec - first.sec) * 1000000 + tv.usec - first.usec
  }
}
