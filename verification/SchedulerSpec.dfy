/**
 The event scheduler as its callers understand it: a bag of timers with
 deadlines, a table of armed descriptors, a list of scheduled callbacks and the
 batch being run.  There are no slots, no cells, no tombstones and no links here;
 `EventLoop` is proved to refine this machine, event by event, and the promises
 about whole runs are proved about every trace the machine accepts.
 */
module SchedulerSpec {
  import opened Options
  import opened SchedulerTicks

  /** An armed callback waiting to run: `key` is the armed descriptor, or -1 if it was scheduled. */
  datatype Item = Item(id: nat, key: int)

  /**
   Every arming gets a fresh number, so numbers also record the order of arming.
   `prev` is the time before the latest advance, `now` the time after it.
   */
  datatype Abs = Abs(
    nextId: nat,
    prev: nat,
    now: nat,
    timers: map<nat, nat>,
    waits: map<nat, nat>,
    queued: seq<Item>,
    batch: seq<Item>)

  datatype Event =
    | Set(id: nat, deadline: nat)
    | Unset(id: nat)
    | Advance(to: nat)
    | Fire(id: nat)
    | Wait(id: nat, key: nat)
    | Cancel(key: nat)
    | Schedule(id: nat)
    | Take(key: nat)
    | Begin
    | Run(id: nat)

  const INITIAL: Abs := Abs(0, 0, 0, map[], map[], [], [])

  /** How far ahead of the slot after `prev` a deadline's slot lies. */
  function Turn(prev: nat, deadline: nat): (r: nat)
    requires prev < deadline
    ensures r < WHEEL_SIZE
  {
    (deadline - prev - 1) % WHEEL_SIZE
  }

  /** Whether timer `i` is taken before timer `j` in an advance that started at `prev`. */
  predicate Precedes(prev: nat, di: nat, i: nat, dj: nat, j: nat)
    requires prev < di && prev < dj
  {
    Turn(prev, di) < Turn(prev, dj) || (Turn(prev, di) == Turn(prev, dj) && i < j)
  }

  function WithoutKey(items: seq<Item>, key: int): (r: seq<Item>)
    ensures forall x :: x in r <==> x in items && x.key != key
  {
    if items == [] then []
    else if items[0].key == key then WithoutKey(items[1..], key)
    else [items[0]] + WithoutKey(items[1..], key)
  }

  ghost predicate NothingDue(a: Abs) {
    forall id :: id in a.timers ==> a.now < a.timers[id]
  }

  /** `id` may fire now: it is due, and no due timer precedes it. */
  ghost predicate MayFire(a: Abs, id: nat) {
    && id in a.timers && a.prev < a.timers[id] <= a.now
    && forall j :: j in a.timers && j != id && a.prev < a.timers[j] <= a.now
                   ==> Precedes(a.prev, a.timers[id], id, a.timers[j], j)
  }

  /** What an operation a program may call does to the state. */
  function Next(a: Abs, e: Event): (b: Abs)
    requires e.Set? || e.Wait? || e.Schedule? || e.Unset? || e.Cancel?
  {
    match e
    case Set(id, d) => a.(nextId := a.nextId + 1, timers := a.timers[id := d])
    case Wait(id, key) => a.(nextId := a.nextId + 1, waits := a.waits[key := id])
    case Schedule(id) => a.(nextId := a.nextId + 1, queued := a.queued + [Item(id, -1)])
    case Unset(id) => a.(timers := a.timers - {id})
    case Cancel(key) =>
      a.(waits := a.waits - {key}, queued := WithoutKey(a.queued, key), batch := WithoutKey(a.batch, key))
  }

  /** The next state, or None if the event is not allowed. */
  ghost function Step(a: Abs, e: Event): Option<Abs> {
    match e
    case Set(id, d) => if id == a.nextId && a.now < d then Some(Next(a, e)) else None
    case Wait(id, _) => if id == a.nextId then Some(Next(a, e)) else None
    case Schedule(id) => if id == a.nextId then Some(Next(a, e)) else None
    case Unset(id) => if id in a.timers then Some(Next(a, e)) else None
    case Cancel(_) => Some(Next(a, e))
    case Advance(to) =>
      if a.now <= to && NothingDue(a) then Some(a.(prev := a.now, now := to)) else None
    case Fire(id) =>
      if MayFire(a, id) then Some(a.(timers := a.timers - {id})) else None
    case Take(key) =>
      if key in a.waits
      then Some(a.(waits := a.waits - {key}, queued := a.queued + [Item(a.waits[key], key)])) else None
    case Begin =>
      if a.batch == [] then Some(a.(queued := [], batch := a.queued)) else None
    case Run(id) =>
      if a.batch != [] && a.batch[0].id == id then Some(a.(batch := a.batch[1..])) else None
  }

  /** The state a trace leads to, or None if some event of it was not allowed. */
  ghost function Replay(t: seq<Event>): Option<Abs> {
    if t == [] then Some(INITIAL)
    else
      var before := Replay(t[..|t| - 1]);
      if before.None? then None else Step(before.value, t[|t| - 1])
  }

  ghost predicate Legal(t: seq<Event>) {
    Replay(t).Some?
  }

  lemma ReplayOne(t: seq<Event>, e: Event)
    ensures Replay(t + [e]) == if Legal(t) then Step(Replay(t).value, e) else None
  {
    assert (t + [e])[..|t + [e]| - 1] == t;
  }

  // ---------------------------------------------------------------- traces

  lemma {:induction false} PrefixLegal(t: seq<Event>, k: nat)
    requires Legal(t) && k <= |t|
    ensures Legal(t[..k])
    decreases |t| - k
  {
    if k == |t| {
      assert t[..k] == t;
    } else {
      PrefixLegal(t, k + 1);
      assert t[..k + 1] == t[..k] + [t[k]];
      ReplayOne(t[..k], t[k]);
    }
  }

  /** The state after the first `k` events of a legal trace. */
  ghost function At(t: seq<Event>, k: nat): (a: Abs)
    requires Legal(t) && k <= |t|
    ensures k == 0 ==> a == INITIAL
    ensures k == |t| ==> Some(a) == Replay(t)
  {
    PrefixLegal(t, k);
    assert k == |t| ==> t[..k] == t;
    Replay(t[..k]).value
  }

  lemma AtNext(t: seq<Event>, k: nat)
    requires Legal(t) && k < |t|
    ensures Step(At(t, k), t[k]) == Some(At(t, k + 1))
  {
    PrefixLegal(t, k);
    PrefixLegal(t, k + 1);
    assert t[..k + 1] == t[..k] + [t[k]];
    ReplayOne(t[..k], t[k]);
  }

  lemma SameAt(t: seq<Event>, n: nat)
    requires Legal(t) && n <= |t|
    ensures Legal(t[..n]) && At(t[..n], n) == At(t, n)
  {
    PrefixLegal(t, n);
    assert t[..n][..n] == t[..n];
  }

  lemma {:induction false} IdsGrow(t: seq<Event>, i: nat, k: nat)
    requires Legal(t) && i <= k <= |t|
    ensures At(t, i).nextId <= At(t, k).nextId
  {
    if i < k {
      IdsGrow(t, i, k - 1);
      AtNext(t, k - 1);
    }
  }

  // ---------------------------------------------------------- state invariant

  ghost predicate DistinctIds(items: seq<Item>) {
    forall i, j :: 0 <= i < j < |items| ==> items[i].id != items[j].id
  }

  /** Numbers are fresh, and each armed number is pending in one place only. */
  ghost predicate WellFormed(a: Abs) {
    && a.prev <= a.now
    && (forall id :: id in a.timers ==> id < a.nextId && a.prev < a.timers[id])
    && (forall k :: k in a.waits ==> a.waits[k] < a.nextId && a.waits[k] !in a.timers)
    && (forall x :: x in a.queued ==> x.id < a.nextId && x.id !in a.timers)
    && (forall x :: x in a.batch ==> x.id < a.nextId && x.id !in a.timers)
    && (forall k, l :: k in a.waits && l in a.waits && k != l ==> a.waits[k] != a.waits[l])
    && (forall k, x :: k in a.waits && x in a.queued ==> a.waits[k] != x.id)
    && (forall k, x :: k in a.waits && x in a.batch ==> a.waits[k] != x.id)
    && (forall x, y :: x in a.queued && y in a.batch ==> x.id != y.id)
    && DistinctIds(a.queued) && DistinctIds(a.batch)
  }

  lemma {:induction false} WithoutKeyDistinct(items: seq<Item>, key: int)
    requires DistinctIds(items)
    ensures DistinctIds(WithoutKey(items, key))
  {
    if items == [] {
    } else {
      WithoutKeyDistinct(items[1..], key);
      var rest := WithoutKey(items[1..], key);
      forall x | x in rest ensures x.id != items[0].id {
        assert x in items[1..];
      }
    }
  }

  lemma CancelKeepsWellFormed(a: Abs, key: nat)
    requires WellFormed(a)
    ensures WellFormed(Step(a, Cancel(key)).value)
  {
    WithoutKeyDistinct(a.queued, key);
    WithoutKeyDistinct(a.batch, key);
  }

  lemma TakeKeepsWellFormed(a: Abs, key: nat)
    requires WellFormed(a) && key in a.waits
    ensures WellFormed(Step(a, Take(key)).value)
  {
    var b := Step(a, Take(key)).value;
    var y := Item(a.waits[key], key);
    assert forall x :: x in b.queued ==> x in a.queued || x == y;
    assert y.id < a.nextId && y.id !in a.timers;
  }

  lemma RunKeepsWellFormed(a: Abs, id: nat)
    requires WellFormed(a) && Step(a, Run(id)).Some?
    ensures WellFormed(Step(a, Run(id)).value)
  {
    var b := Step(a, Run(id)).value;
    assert forall x :: x in b.batch ==> x in a.batch;
  }

  lemma TimerStepKeepsWellFormed(a: Abs, e: Event)
    requires WellFormed(a) && Step(a, e).Some? && (e.Set? || e.Unset? || e.Fire? || e.Advance?)
    ensures WellFormed(Step(a, e).value)
  {
  }

  lemma WaitKeepsWellFormed(a: Abs, key: nat)
    requires WellFormed(a)
    ensures WellFormed(Step(a, Wait(a.nextId, key)).value)
  {
  }

  lemma ScheduleKeepsWellFormed(a: Abs)
    requires WellFormed(a)
    ensures WellFormed(Step(a, Schedule(a.nextId)).value)
  {
    var b := Step(a, Schedule(a.nextId)).value;
    assert forall x :: x in b.queued ==> x in a.queued || x == Item(a.nextId, -1);
  }

  lemma StepKeepsWellFormed(a: Abs, e: Event)
    requires WellFormed(a) && Step(a, e).Some?
    ensures WellFormed(Step(a, e).value)
  {
    if e.Cancel? {
      CancelKeepsWellFormed(a, e.key);
    } else if e.Take? {
      TakeKeepsWellFormed(a, e.key);
    } else if e.Run? {
      RunKeepsWellFormed(a, e.id);
    } else if e.Wait? {
      WaitKeepsWellFormed(a, e.key);
    } else if e.Schedule? {
      ScheduleKeepsWellFormed(a);
    } else if e.Begin? {
    } else {
      TimerStepKeepsWellFormed(a, e);
    }
  }

  lemma {:induction false} AtWellFormed(t: seq<Event>, k: nat)
    requires Legal(t) && k <= |t|
    ensures WellFormed(At(t, k))
  {
    if k == 0 {
    } else {
      AtWellFormed(t, k - 1);
      AtNext(t, k - 1);
      StepKeepsWellFormed(At(t, k - 1), t[k - 1]);
    }
  }

  // ------------------------------------------------------------------ timers

  /** A number that has been handed out and is pending nowhere stays that way. */
  ghost predicate Spent(a: Abs, id: nat) {
    && id < a.nextId
    && id !in a.timers
    && (forall k :: k in a.waits ==> a.waits[k] != id)
    && (forall x :: x in a.queued ==> x.id != id)
    && (forall x :: x in a.batch ==> x.id != id)
  }

  lemma SpentStep(a: Abs, e: Event, id: nat)
    requires Spent(a, id) && Step(a, e).Some?
    ensures Spent(Step(a, e).value, id)
    ensures e != Fire(id) && e != Unset(id) && e != Run(id)
  {
    var b := Step(a, e).value;
    forall x | x in b.queued ensures x.id != id {
      if e.Take? { assert x in a.queued || x == Item(a.waits[e.key], e.key); }
    }
    forall x | x in b.batch ensures x.id != id { }
  }

  lemma {:induction false} SpentForever(t: seq<Event>, i: nat, k: nat, id: nat)
    requires Legal(t) && i <= k <= |t| && Spent(At(t, i), id)
    ensures Spent(At(t, k), id)
    ensures k < |t| ==> t[k] != Fire(id) && t[k] != Unset(id) && t[k] != Run(id)
  {
    hide At, Legal, Step, Spent;
    if i < k {
      SpentForever(t, i, k - 1, id);
      AtNext(t, k - 1);
      SpentStep(At(t, k - 1), t[k - 1], id);
    }
    if k < |t| {
      AtNext(t, k);
      SpentStep(At(t, k), t[k], id);
    }
  }

  /** No timer fires twice, is cancelled after firing, or fires after being cancelled. */
  lemma TimerEndsOnce(t: seq<Event>, i: nat, k: nat, id: nat)
    requires Legal(t) && i < k < |t|
    requires t[i] == Fire(id) || t[i] == Unset(id)
    ensures t[k] != Fire(id) && t[k] != Unset(id)
  {
    AtNext(t, i);
    AtWellFormed(t, i);
    SpentForever(t, i + 1, k, id);
  }

  /** From its set until it fires or is cancelled, a timer is pending under its deadline. */
  lemma {:induction false} TimerPending(t: seq<Event>, i: nat, k: nat, id: nat, d: nat)
    requires Legal(t) && i < k <= |t| && t[i] == Set(id, d)
    requires forall m :: i < m < k ==> t[m] != Fire(id) && t[m] != Unset(id)
    ensures id in At(t, k).timers && At(t, k).timers[id] == d
  {
    hide At, Legal;
    AtNext(t, k - 1);
    if k == i + 1 {
    } else {
      TimerPending(t, i, k - 1, id, d);
      AtWellFormed(t, k - 1);
    }
  }

  /** A timer that is pending was set, and neither fired nor cancelled since. */
  lemma {:induction false} PendingWasSet(t: seq<Event>, k: nat, id: nat) returns (i: nat)
    requires Legal(t) && k <= |t| && id in At(t, k).timers
    ensures i < k && t[i] == Set(id, At(t, k).timers[id])
    ensures forall m :: i < m < k ==> t[m] != Fire(id) && t[m] != Unset(id)
  {
    hide At, Legal, WithoutKey, MayFire, NothingDue;
    assert k > 0;
    AtNext(t, k - 1);
    if t[k - 1].Set? && t[k - 1].id == id {
      i := k - 1;
    } else {
      i := PendingWasSet(t, k - 1, id);
    }
  }

  /** The last advance at or before position `k`, if any, determines `prev` and `now`. */
  lemma {:induction false} LastAdvance(t: seq<Event>, k: nat) returns (a: int)
    requires Legal(t) && k <= |t|
    ensures -1 <= a < k
    ensures forall m :: a < m < k ==> !t[m].Advance?
    ensures a == -1 ==> At(t, k).now == 0 && At(t, k).prev == 0
    ensures a >= 0 ==> t[a] == Advance(At(t, k).now) && At(t, k).prev == At(t, a).now
  {
    hide At, Legal, MayFire, NothingDue, WithoutKey;
    if k == 0 {
      a := -1;
    } else {
      AtNext(t, k - 1);
      if t[k - 1].Advance? {
        a := k - 1;
      } else {
        a := LastAdvance(t, k - 1);
      }
    }
  }

  lemma {:induction false} NowIsMonotone(t: seq<Event>, i: nat, k: nat)
    requires Legal(t) && i <= k <= |t|
    ensures At(t, i).now <= At(t, k).now
  {
    hide At, Legal, MayFire, NothingDue, WithoutKey;
    if i < k {
      NowIsMonotone(t, i, k - 1);
      AtNext(t, k - 1);
    }
  }

  lemma AdvanceWithin(t: seq<Event>, m: nat, k: nat)
    requires Legal(t) && m < k <= |t| && t[m].Advance?
    ensures t[m].to <= At(t, k).now
  {
    AtNext(t, m);
    NowIsMonotone(t, m + 1, k);
  }

  /**
   A timer fires only in the first advance after its set that reaches its deadline:
   `a` is that advance, nothing advances between it and the firing, and every
   earlier advance since the set stopped short of the deadline.
   */
  lemma FiresInFirstAdvanceReachingIt(t: seq<Event>, k: nat, id: nat) returns (i: nat, a: nat, d: nat)
    requires Legal(t) && k < |t| && t[k] == Fire(id)
    ensures i < a < k && t[i] == Set(id, d)
    ensures t[a].Advance? && d <= t[a].to
    ensures forall m :: a < m < k ==> !t[m].Advance?
    ensures forall m :: i < m < a && t[m].Advance? ==> t[m].to < d
  {
    AtNext(t, k);
    d := At(t, k).timers[id];
    i := PendingWasSet(t, k, id);
    var b := LastAdvance(t, k);
    AtNext(t, i);
    NowIsMonotone(t, i, k);
    if b < i {
      // then no advance since the set, and the timer would not be due
      NoAdvanceKeepsNow(t, i, k);
      assert false;
    }
    a := b;
    forall m | i < m < a && t[m].Advance? ensures t[m].to < d {
      AdvanceWithin(t, m, a);
    }
  }

  lemma {:induction false} NoAdvanceKeepsNow(t: seq<Event>, i: nat, k: nat)
    requires Legal(t) && i <= k <= |t|
    requires forall m :: i <= m < k ==> !t[m].Advance?
    ensures At(t, k).now == At(t, i).now && At(t, k).prev == At(t, i).prev
  {
    hide At, Legal, MayFire, NothingDue, WithoutKey;
    if i < k {
      NoAdvanceKeepsNow(t, i, k - 1);
      AtNext(t, k - 1);
    }
  }

  /**
   No timer is missed: once an advance reaches the deadline, the timer has fired or
   been cancelled before the next advance, and before any point where nothing is due.
   */
  lemma DueTimerIsServed(t: seq<Event>, i: nat, a: nat, b: nat, id: nat, d: nat) returns (k: nat)
    requires Legal(t) && i < a < b <= |t|
    requires t[i] == Set(id, d) && t[a].Advance? && d <= t[a].to
    requires (b < |t| && t[b].Advance?) || NothingDue(At(t, b))
    ensures i < k < b && (t[k] == Fire(id) || t[k] == Unset(id))
  {
    if forall m :: i < m < b ==> t[m] != Fire(id) && t[m] != Unset(id) {
      TimerPending(t, i, b, id, d);
      AdvanceWithin(t, a, b);
      if b < |t| { AtNext(t, b); }
      assert false;
    }
    k :| i < k < b && (t[k] == Fire(id) || t[k] == Unset(id));
  }

  // ------------------------------------------------------------ firing order

  /** Slot order agrees with deadline order exactly when an advance spans at most one turn of the wheel. */
  lemma TurnOrderIffOneTurn(prev: nat, now: nat)
    requires prev <= now
    ensures (forall di: nat, dj: nat :: prev < di < dj <= now ==> Turn(prev, di) < Turn(prev, dj))
            <==> now - prev <= WHEEL_SIZE
  {
    if now - prev > WHEEL_SIZE {
      var di, dj: nat := prev + 1, prev + 1 + WHEEL_SIZE;
      assert prev < di < dj <= now && !(Turn(prev, di) < Turn(prev, dj));
    }
  }

  /** Whether (deadline, arming order) of the first precedes that of the second. */
  predicate Earlier(di: nat, i: nat, dj: nat, j: nat) {
    di < dj || (di == dj && i < j)
  }

  lemma PrecedesIsEarlier(prev: nat, now: nat, di: nat, i: nat, dj: nat, j: nat)
    requires prev < di <= now && prev < dj <= now && now - prev <= WHEEL_SIZE
    ensures Precedes(prev, di, i, dj, j) <==> Earlier(di, i, dj, j)
  {
  }

  /**
   In an advance of at most 4096 ticks, timers fire in order of deadline and,
   among equal deadlines, in the order they were set.
   */
  lemma FiringOrder(t: seq<Event>, k: nat, l: nat, i: nat, j: nat)
    requires Legal(t) && k < l < |t| && t[k] == Fire(i) && t[l] == Fire(j)
    requires forall m :: k <= m <= l ==> !t[m].Advance?
    requires At(t, k).now - At(t, k).prev <= WHEEL_SIZE
    ensures i in At(t, k).timers && j in At(t, l).timers
    ensures Earlier(At(t, k).timers[i], i, At(t, l).timers[j], j)
  {
    AtNext(t, k);
    AtNext(t, l);
    NoAdvanceKeepsNow(t, k, l);
    AtWellFormed(t, k);
    var s := PendingWasSet(t, l, j);
    if k <= s {
      // set after the first firing: its deadline lies beyond the present
      AtNext(t, s);
      NoAdvanceKeepsNow(t, k, s);
      assert false;
    }
    TimerPending(t, s, k, j, At(t, l).timers[j]);
    var a, d := At(t, k), At(t, l).timers[j];
    if i == j { TimerEndsOnce(t, k, l, i); }
    assert Precedes(a.prev, a.timers[i], i, d, j);
    PrecedesIsEarlier(a.prev, a.now, a.timers[i], i, d, j);
  }

  /** Beyond one turn the order can be wrong: 5000 fires before 2000, and 2000 may not go first. */
  lemma LongAdvanceReorders()
    ensures Legal([Set(0, 5000), Set(1, 2000), Advance(6000), Fire(0), Fire(1)])
    ensures !Legal([Set(0, 5000), Set(1, 2000), Advance(6000), Fire(1)])
  {
    var t := [Set(0, 5000), Set(1, 2000), Advance(6000)];
    ReplayOne([], t[0]);
    ReplayOne([t[0]], t[1]);
    ReplayOne([t[0], t[1]], t[2]);
    assert [] + [t[0]] == [t[0]] && [t[0]] + [t[1]] == [t[0], t[1]] && [t[0], t[1]] + [t[2]] == t;
    var a := Replay(t).value;
    assert a.prev == 0 && a.now == 6000 && a.timers == map[0 := 5000, 1 := 2000];
    assert Turn(0, 5000) == 903 && Turn(0, 2000) == 1999;
    ReplayOne(t, Fire(0));
    ReplayOne(t + [Fire(0)], Fire(1));
    ReplayOne(t, Fire(1));
    assert !Precedes(0, 2000, 1, 5000, 0);
    assert 0 in a.timers && 0 != 1;
    assert t + [Fire(0)] + [Fire(1)] == [Set(0, 5000), Set(1, 2000), Advance(6000), Fire(0), Fire(1)];
    assert t + [Fire(1)] == [Set(0, 5000), Set(1, 2000), Advance(6000), Fire(1)];
  }

  /**
   In the updates from `prev` to `now`, whatever fires later has the later deadline or, with the same, was
   set later.
   */
  ghost predicate FiresInOrder(t: seq<Event>, prev: nat, now: nat)
    requires Legal(t)
  {
    forall k, l :: 0 <= k < l < |t| && t[k].Fire? && t[l].Fire? && (forall m :: k <= m <= l ==> !t[m].Advance?)
                   && At(t, k).prev == prev && At(t, k).now == now ==>
      && t[k].id in At(t, k).timers && t[l].id in At(t, l).timers
      && Earlier(At(t, k).timers[t[k].id], t[k].id, At(t, l).timers[t[l].id], t[l].id)
  }

  /** A run that goes from `prev` to `now`, more than a turn away, and fires the later of two deadlines first. */
  lemma ReorderingRun(prev: nat, now: nat) returns (t: seq<Event>)
    requires now - prev > WHEEL_SIZE
    ensures Legal(t) && |t| == 6 && t[3] == Advance(now) && t[4] == Fire(0) && t[5] == Fire(1)
    ensures At(t, 4).prev == prev && At(t, 4).now == now && 0 in At(t, 4).timers && 1 in At(t, 5).timers
    ensures At(t, 4).timers[0] > At(t, 5).timers[1]
  {
    var late, early := prev + 1 + WHEEL_SIZE, prev + 1;
    var e := [Advance(prev), Set(0, late), Set(1, early), Advance(now), Fire(0), Fire(1)];
    var s1, s2, s3, s4, s5 := [e[0]], [e[0], e[1]], [e[0], e[1], e[2]], [e[0], e[1], e[2], e[3]],
        [e[0], e[1], e[2], e[3], e[4]];
    t := e;
    assert s1 == [] + [e[0]] && s2 == s1 + [e[1]] && s3 == s2 + [e[2]] && s4 == s3 + [e[3]] && s5 == s4 + [e[4]]
        && t == s5 + [e[5]];
    ReplayOne([], e[0]);
    ReplayOne(s1, e[1]);
    ReplayOne(s2, e[2]);
    ReplayOne(s3, e[3]);
    assert Replay(s4) == Some(Abs(2, prev, now, map[0 := late, 1 := early], map[], [], []));
    assert Turn(prev, late) == Turn(prev, early) == 0;
    ReplayOne(s4, e[4]);
    assert MayFire(Replay(s4).value, 0);
    assert map[0 := late, 1 := early] - {0} == map[1 := early];
    assert Replay(s5) == Some(Abs(2, prev, now, map[1 := early], map[], [], []));
    ReplayOne(s5, e[5]);
    assert t[..4] == s4 && t[..5] == s5;
  }

  /** Updates from `prev` to `now` fire in order in every run exactly when they span at most one turn of the wheel. */
  lemma InOrderIffOneTurn(prev: nat, now: nat)
    requires prev <= now
    ensures (forall t :: Legal(t) ==> FiresInOrder(t, prev, now)) <==> now - prev <= WHEEL_SIZE
  {
    if now - prev <= WHEEL_SIZE {
      forall t | Legal(t) ensures FiresInOrder(t, prev, now) {
        OneTurnInOrder(t, prev, now);
      }
    } else {
      var t := ReorderingRun(prev, now);
      assert t[4].Fire? && t[5].Fire?;
      assert !FiresInOrder(t, prev, now);
    }
  }

  lemma OneTurnInOrder(t: seq<Event>, prev: nat, now: nat)
    requires Legal(t) && prev <= now && now - prev <= WHEEL_SIZE
    ensures FiresInOrder(t, prev, now)
  {
    hide Replay, Step, Earlier, Legal;
    forall k, l | 0 <= k < l < |t| && t[k].Fire? && t[l].Fire? && (forall m :: k <= m <= l ==> !t[m].Advance?)
                  && At(t, k).prev == prev && At(t, k).now == now
      ensures t[k].id in At(t, k).timers && t[l].id in At(t, l).timers
      ensures Earlier(At(t, k).timers[t[k].id], t[k].id, At(t, l).timers[t[l].id], t[l].id)
    {
      FiringOrder(t, k, l, t[k].id, t[l].id);
    }
  }

  /** The shortest delay to a deadline: what a caller may sleep for. */
  ghost predicate IsNextTimeout(a: Abs, delay: int) {
    && (exists id :: id in a.timers && Narrow(a.timers[id] - a.now) == delay)
    && (forall id :: id in a.timers ==> delay <= Narrow(a.timers[id] - a.now))
  }

  /** After an advance by less than the next timeout, nothing fires until the next advance. */
  lemma {:induction false} ShortAdvanceFiresNothing(t: seq<Event>, a: nat, k: nat, delay: int)
    requires Legal(t) && a < k <= |t| && t[a].Advance?
    requires IsNextTimeout(At(t, a), delay) && t[a].to - At(t, a).now < delay
    requires forall m :: a < m < k ==> !t[m].Advance?
    ensures NothingDue(At(t, k))
    ensures forall m :: a < m < k ==> !t[m].Fire?
  {
    hide At, Legal;
    AtNext(t, k - 1);
    if k == a + 1 {
    } else {
      ShortAdvanceFiresNothing(t, a, k - 1, delay);
    }
  }

  // ------------------------------------------------------- descriptors, batch

  /** Number `id` belongs to an arming of descriptor `key`, wherever it is pending. */
  ghost predicate ArmedFor(a: Abs, id: nat, key: nat) {
    && id < a.nextId && id !in a.timers
    && (forall k :: k in a.waits && a.waits[k] == id ==> k == key)
    && (forall x :: x in a.queued && x.id == id ==> x.key == key)
    && (forall x :: x in a.batch && x.id == id ==> x.key == key)
  }

  lemma ArmedForStart(a: Abs, id: nat, key: nat)
    requires WellFormed(a) && Step(a, Wait(id, key)).Some?
    ensures ArmedFor(Step(a, Wait(id, key)).value, id, key)
  {
  }

  lemma ArmedForStep(a: Abs, e: Event, id: nat, key: nat)
    requires ArmedFor(a, id, key) && Step(a, e).Some?
    ensures ArmedFor(Step(a, e).value, id, key)
  {
    var b := Step(a, e).value;
    forall x | x in b.queued && x.id == id ensures x.key == key {
      if e.Take? {
        assert x in a.queued || x == Item(a.waits[e.key], e.key);
      } else if e.Schedule? {
        assert x in a.queued || x == Item(a.nextId, -1);
      } else {
        assert x in a.queued;
      }
    }
    forall x | x in b.batch && x.id == id ensures x.key == key { }
  }

  lemma {:induction false} ArmedForStays(t: seq<Event>, i: nat, k: nat, id: nat, key: nat)
    requires Legal(t) && i < k <= |t| && t[i] == Wait(id, key)
    ensures ArmedFor(At(t, k), id, key)
  {
    AtNext(t, k - 1);
    if k == i + 1 {
      AtWellFormed(t, i);
      ArmedForStart(At(t, i), id, key);
    } else {
      ArmedForStays(t, i, k - 1, id, key);
      hide Step;
      ArmedForStep(At(t, k - 1), t[k - 1], id, key);
    }
  }

  /**
   Cancel is final: no callback armed for a descriptor before the cancel runs after
   it, whether it was still armed, queued, or further down the batch being run.
   */
  lemma CancelIsFinal(t: seq<Event>, i: nat, c: nat, k: nat, id: nat, key: nat)
    requires Legal(t) && i < c < k < |t|
    requires t[i] == Wait(id, key) && t[c] == Cancel(key)
    ensures t[k] != Run(id)
  {
    ArmedForStays(t, i, c, id, key);
    AtNext(t, c);
    AtWellFormed(t, c);
    SpentForever(t, c + 1, k, id);
  }

  /** Every armed or scheduled callback runs at most once. */
  lemma RunsOnce(t: seq<Event>, i: nat, k: nat, id: nat)
    requires Legal(t) && i < k < |t| && t[i] == Run(id)
    ensures t[k] != Run(id)
  {
    AtNext(t, i);
    AtWellFormed(t, i);
    var a, b := At(t, i), At(t, i + 1);
    forall x | x in b.batch ensures x.id != id {
      var m :| 0 <= m < |b.batch| && b.batch[m] == x;
      assert a.batch[m + 1] == x;
    }
    assert a.batch[0] in a.batch;
    SpentForever(t, i + 1, k, id);
  }

  /** The numbers run by a stretch of trace, in order. */
  ghost function Runs(t: seq<Event>): seq<nat> {
    if t == [] then []
    else Runs(t[..|t| - 1]) + (if t[|t| - 1].Run? then [t[|t| - 1].id] else [])
  }

  /** The keys cancelled by a stretch of trace. */
  ghost function Cancelled(t: seq<Event>): set<int> {
    if t == [] then {}
    else Cancelled(t[..|t| - 1]) + (if t[|t| - 1].Cancel? then {t[|t| - 1].key as int} else {})
  }

  /** `done` and then `left` is the batch with only cancelled items dropped, and none of them from what has run. */
  ghost predicate Accounts(full: seq<Item>, done: seq<nat>, left: seq<Item>, cancelled: set<int>)
    decreases |full|
  {
    if full == [] then done == [] && left == []
    else
      || (done != [] && done[0] == full[0].id && Accounts(full[1..], done[1..], left, cancelled))
      || (done == [] && left != [] && left[0] == full[0] && Accounts(full[1..], [], left[1..], cancelled))
      || (full[0].key in cancelled && Accounts(full[1..], done, left, cancelled))
  }

  lemma {:induction false} AccountsStart(full: seq<Item>)
    ensures Accounts(full, [], full, {})
  {
    if full != [] { AccountsStart(full[1..]); }
  }

  lemma {:induction false} AccountsRun(full: seq<Item>, done: seq<nat>, left: seq<Item>, c: set<int>)
    requires Accounts(full, done, left, c) && left != []
    ensures Accounts(full, done + [left[0].id], left[1..], c)
  {
    if done != [] && done[0] == full[0].id && Accounts(full[1..], done[1..], left, c) {
      AccountsRun(full[1..], done[1..], left, c);
      assert (done + [left[0].id])[1..] == done[1..] + [left[0].id];
    } else if done == [] && left[0] == full[0] && Accounts(full[1..], [], left[1..], c) {
      assert (done + [left[0].id])[1..] == [];
    } else {
      AccountsRun(full[1..], done, left, c);
    }
  }

  lemma {:induction false} AccountsCancel(full: seq<Item>, done: seq<nat>, left: seq<Item>, c: set<int>, key: int)
    requires Accounts(full, done, left, c)
    ensures Accounts(full, done, WithoutKey(left, key), c + {key})
  {
    if full == [] {
    } else if done != [] && done[0] == full[0].id && Accounts(full[1..], done[1..], left, c) {
      AccountsCancel(full[1..], done[1..], left, c, key);
    } else if done == [] && left != [] && left[0] == full[0] && Accounts(full[1..], [], left[1..], c) {
      AccountsCancel(full[1..], [], left[1..], c, key);
    } else {
      AccountsCancel(full[1..], done, left, c, key);
    }
  }

  lemma RunsAndCancelledOfOneMore(s: seq<Event>, e: Event)
    ensures Runs(s + [e]) == Runs(s) + (if e.Run? then [e.id] else [])
    ensures Cancelled(s + [e]) == Cancelled(s) + (if e.Cancel? then {e.key as int} else {})
  {
    assert (s + [e])[..|s + [e]| - 1] == s;
  }

  lemma BatchStep(full: seq<Item>, a: Abs, e: Event, done: seq<nat>, c: set<int>)
    requires Step(a, e).Some? && e != Begin
    requires Accounts(full, done, a.batch, c)
    ensures Accounts(full, done + (if e.Run? then [e.id] else []), Step(a, e).value.batch,
                     c + (if e.Cancel? then {e.key as int} else {}))
  {
    assert done + [] == done && c + {} == c;
    if e.Run? {
      AccountsRun(full, done, a.batch, c);
    } else if e.Cancel? {
      AccountsCancel(full, done, a.batch, c, e.key);
    }
  }

  /**
   One batch: from a `Begin` until the next, what runs is the captured batch in its
   order, skipping only items whose descriptor was cancelled meanwhile.
   Anything scheduled or armed after the `Begin` is not among them.
   */
  lemma {:induction false} BatchSemantics(t: seq<Event>, b: nat, k: nat)
    requires Legal(t) && b < k <= |t| && t[b] == Begin
    requires forall m :: b < m < k ==> t[m] != Begin
    ensures Accounts(At(t, b).queued, Runs(t[b + 1..k]), At(t, k).batch, Cancelled(t[b + 1..k]))
  {
    hide At, Legal, Accounts, WithoutKey, MayFire, NothingDue;
    AtNext(t, k - 1);
    if k == b + 1 {
      AccountsStart(At(t, b).queued);
    } else {
      BatchSemantics(t, b, k - 1);
      var s := t[b + 1..k - 1];
      assert t[b + 1..k] == s + [t[k - 1]];
      RunsAndCancelledOfOneMore(s, t[k - 1]);
      BatchStep(At(t, b).queued, At(t, k - 1), t[k - 1], Runs(s), Cancelled(s));
    }
  }

  lemma {:induction false} AccountsWhole(full: seq<Item>, done: seq<nat>)
    requires Accounts(full, done, [], {})
    ensures |done| == |full| && forall i :: 0 <= i < |full| ==> done[i] == full[i].id
  {
    if full != [] {
      AccountsWhole(full[1..], done[1..]);
      forall i | 0 <= i < |full| ensures done[i] == full[i].id {
        if i > 0 { assert done[i] == done[1..][i - 1] && full[i] == full[1..][i - 1]; }
      }
    }
  }

  /** What is not cancelled has run or is left, and what has run was in the batch. */
  lemma {:induction false} AccountsKeeps(full: seq<Item>, done: seq<nat>, left: seq<Item>, c: set<int>)
    requires Accounts(full, done, left, c)
    ensures forall x :: x in full && x.key !in c ==> x.id in done || x in left
    ensures forall id :: id in done ==> exists x :: x in full && x.id == id
    decreases |full|
  {
    if full != [] {
      var rest := full[1..];
      assert forall x :: x in full <==> x == full[0] || x in rest;
      if done != [] && done[0] == full[0].id && Accounts(rest, done[1..], left, c) {
        AccountsKeeps(rest, done[1..], left, c);
        assert full[0] in full && forall id :: id in done <==> id == done[0] || id in done[1..];
      } else if done == [] && left != [] && left[0] == full[0] && Accounts(rest, [], left[1..], c) {
        AccountsKeeps(rest, [], left[1..], c);
        assert left[0] in left;
      } else {
        AccountsKeeps(rest, done, left, c);
      }
    }
  }

  /** With nothing cancelled since the capture, a batch run to its end ran exactly the captured callbacks, in order. */
  lemma UncancelledBatchRunsWhole(t: seq<Event>, b: nat, k: nat)
    requires Legal(t) && b < k <= |t| && t[b] == Begin && At(t, k).batch == []
    requires forall m :: b < m < k ==> t[m] != Begin && !t[m].Cancel?
    ensures var full, done := At(t, b).queued, Runs(t[b + 1..k]);
      |done| == |full| && forall i :: 0 <= i < |full| ==> done[i] == full[i].id
  {
    hide Replay, Step, Accounts;
    BatchSemantics(t, b, k);
    NoneCancelled(t[b + 1..k]);
    AccountsWhole(At(t, b).queued, Runs(t[b + 1..k]));
  }

  lemma {:induction false} NoneCancelled(s: seq<Event>)
    requires forall m :: 0 <= m < |s| ==> !s[m].Cancel?
    ensures Cancelled(s) == {}
  {
    if s != [] {
      NoneCancelled(s[..|s| - 1]);
    }
  }
}
