/**
 Capturing a batch and running it: ready descriptors are queued behind what was
 scheduled, the queue becomes the working queue, and its cells are retired one by one.
 */
module SchedulerBatch {
  import opened Options
  import opened SchedulerSpec
  import opened SchedulerTicks
  import opened SchedulerState
  import opened SchedulerSteps
  import opened SchedulerWalk

  // ------------------------------------------------------------------- capture

  /** The armed callback of descriptor `v` moves to the queue. */
  ghost function TakeStep(s: St, v: nat): St
    requires Shape(s) && v < VEC_SIZE && 0 <= s.vec[v] < |s.loc|
  {
    s.(qHead := s.qHead + [s.vec[v]], vec := s.vec[v := -1], loc := s.loc[s.vec[v] := Queued],
       abs := if v in s.abs.waits
              then s.abs.(waits := s.abs.waits - {v}, queued := s.abs.queued + [Item(s.abs.waits[v], v)])
              else s.abs)
  }

  /** So far the queue holds scheduled callbacks and descriptors below `v`, each once. */
  ghost predicate Capturing(s: St, v: nat) {
    && Core(s) && s.wq == [] && !s.firing && s.working == -1
    && KeysUnique(s.cells, s.qHead)
    && (forall k :: 0 <= k < |s.qHead| ==> KeyOf(s.cells[s.qHead[k]]) < v)
  }

  lemma InvStartsCapture(s: St)
    requires Inv(s) && s.wq == [] && s.working == -1
    ensures Capturing(s, 0)
  {
    hide Struct, Links;
  }

  lemma CoreShape(s: St)
    requires Core(s)
    ensures Shape(s) && WellFormed(s.abs) && s.abs.now == s.now
  {
    hide Placed, Filled, Sorted, SumLen, TimersLink, WaitsLink, QueueLink, BatchLink, ArmedLink;
  }

  lemma VecCell(s: St, v: nat)
    requires Core(s) && v < VEC_SIZE && s.vec[v] != -1
    ensures 0 <= s.vec[v] < |s.loc| && s.loc[s.vec[v]] == Sock(v)
    ensures var x := s.cells[s.vec[v]]; 0 <= x.how <= 1 && 0 <= x.resource && KeyOf(x) == v && x.cb != 0
    ensures v in s.abs.waits && s.abs.waits[v] == s.serial[s.vec[v]] && s.serial[s.vec[v]] < s.abs.nextId
  {
    hide Holds, Sorted, SumLen, TimersLink, QueueLink, BatchLink, ArmedLink;
    assert s.loc[s.vec[v]] == Sock(v);
    assert CellOk(s.cells[s.vec[v]], s.loc[s.vec[v]], s.serial[s.vec[v]], s.working, s.abs.nextId);
  }

  lemma TakeKeepsStruct(s: St, v: nat)
    requires Core(s) && v < VEC_SIZE && s.vec[v] != -1
    ensures 0 <= s.vec[v] < |s.loc| && Struct(TakeStep(s, v), -1)
  {
    hide Holds, Sorted, SlotSorted, SumLen, TimersLink, QueueLink, BatchLink, ArmedLink, WellFormed;
    VecCell(s, v);
    var c := s.vec[v];
    SlotsUntouched(s, c, Queued);
    HoldsOther(s.loc, s.freeQ, Free, c, Queued);
    HoldsAdded(s.loc, s.qHead, Queued, c);
    HoldsOther(s.loc, s.wq, Batch, c, Queued);
    var t := TakeStep(s, v);
    assert Sorted(t) by { SortedSame(s, t); }
  }

  lemma SortedSame(s: St, t: St)
    requires Shape(s) && Shape(t) && Sorted(s) && t.wheel == s.wheel && t.serial == s.serial
    ensures Sorted(t)
  {
  }

  lemma TakeKeepsQueueLink(s: St, v: nat)
    requires Core(s) && v < VEC_SIZE && s.vec[v] != -1
    ensures 0 <= s.vec[v] < |s.loc|
    ensures var t := TakeStep(s, v); Shape(t) && QueueLink(t)
  {
    hide Holds, Placed, Filled, Sorted, SlotSorted, SumLen, TimersLink, WaitsLink, BatchLink, ArmedLink, WellFormed;
    VecCell(s, v);
    var t := TakeStep(s, v);
    forall k | 0 <= k < |t.qHead|
      ensures t.qHead[k] < |t.cells| && t.abs.queued[k] == ItemOf(t.cells, t.serial, t.qHead[k])
    {
    }
  }

  lemma TakeKeepsWaitsLink(s: St, v: nat)
    requires Core(s) && v < VEC_SIZE && s.vec[v] != -1
    ensures 0 <= s.vec[v] < |s.loc|
    ensures var t := TakeStep(s, v); Shape(t) && WaitsLink(t)
  {
    hide Holds, Placed, Filled, Sorted, SlotSorted, SumLen, TimersLink, QueueLink, BatchLink, ArmedLink, WellFormed;
    VecCell(s, v);
  }

  lemma TakeKeepsTimersLink(s: St, v: nat)
    requires Core(s) && v < VEC_SIZE && s.vec[v] != -1
    ensures 0 <= s.vec[v] < |s.loc|
    ensures var t := TakeStep(s, v); Shape(t) && TimersLink(t)
  {
    hide Holds, Placed, Filled, Sorted, SlotSorted, SumLen, WaitsLink, QueueLink, BatchLink, ArmedLink, WellFormed;
    VecCell(s, v);
  }

  lemma TakeKeepsArmedLink(s: St, v: nat)
    requires Core(s) && v < VEC_SIZE && s.vec[v] != -1
    ensures 0 <= s.vec[v] < |s.loc|
    ensures var t := TakeStep(s, v); Shape(t) && ArmedLink(t)
  {
    hide Holds, Placed, Filled, Sorted, SlotSorted, SumLen, WaitsLink, TimersLink, QueueLink, BatchLink, WellFormed;
    VecCell(s, v);
  }

  lemma TakeKeepsCapturing(s: St, v: nat)
    requires Capturing(s, v) && v < VEC_SIZE && s.vec[v] != -1
    ensures 0 <= s.vec[v] < |s.loc| && Capturing(TakeStep(s, v), v + 1)
    ensures Step(s.abs, Take(v)) == Some(TakeStep(s, v).abs)
  {
    hide Holds, Placed, Filled, Sorted, SlotSorted, SumLen, WaitsLink, QueueLink, BatchLink, ArmedLink, TimersLink,
        WellFormed, Struct;
    VecCell(s, v);
    TakeKeepsStruct(s, v);
    TakeKeepsQueueLink(s, v);
    TakeKeepsWaitsLink(s, v);
    TakeKeepsTimersLink(s, v);
    TakeKeepsArmedLink(s, v);
    CoreShape(s);
    StepKeepsWellFormed(s.abs, Take(v));
    var t := TakeStep(s, v);
    assert BatchLink(t) by { EmptyBatchLink(s, t); }
    forall k | 0 <= k < |t.qHead| ensures KeyOf(t.cells[t.qHead[k]]) < v + 1 { }
    forall j, k | 0 <= j < k < |t.qHead| && KeyOf(t.cells[t.qHead[j]]) == KeyOf(t.cells[t.qHead[k]])
      ensures KeyOf(t.cells[t.qHead[k]]) == -1
    {
    }
  }

  lemma TakeUnfolds(s: St, v: nat)
    requires Capturing(s, v) && v < VEC_SIZE && s.vec[v] != -1
    ensures 0 <= s.vec[v] < |s.loc| && v in s.abs.waits
    ensures TakeStep(s, v) ==
      s.(qHead := s.qHead + [s.vec[v]], vec := s.vec[v := -1], loc := s.loc[s.vec[v] := Queued],
         abs := s.abs.(waits := s.abs.waits - {v}, queued := s.abs.queued + [Item(s.abs.waits[v], v)]))
    ensures Capturing(TakeStep(s, v), v + 1) && Step(s.abs, Take(v)) == Some(TakeStep(s, v).abs)
  {
    hide Core, Step;
    CoreShape(s);
    VecCell(s, v);
    TakeKeepsCapturing(s, v);
  }

  lemma CaptureGoesOn(s: St, v: nat)
    requires Capturing(s, v) && v < VEC_SIZE
    ensures Shape(s) && Capturing(s, v + 1) && (v in s.abs.waits <==> s.vec[v] != -1)
  {
    hide Placed, Filled, Sorted, SumLen, TimersLink, QueueLink, BatchLink, ArmedLink, WellFormed;
  }

  lemma EmptyBatchLink(s: St, t: St)
    requires Shape(s) && Shape(t) && BatchLink(s) && s.wq == [] && t.wq == [] && t.abs.batch == s.abs.batch
    ensures BatchLink(t)
  {
  }

  // --------------------------------------------------------------------- begin

  /** The queue becomes the working queue. */
  ghost function BeginStep(s: St): St {
    s.(wq := s.qHead, qHead := [], loc := Rebatched(s.loc), abs := s.abs.(queued := [], batch := s.abs.queued))
  }

  /** Whatever was queued is in the batch. */
  ghost function Rebatched(loc: seq<Loc>): seq<Loc> {
    seq(|loc|, i requires 0 <= i < |loc| => if loc[i] == Queued then Batch else loc[i])
  }

  /** Between two callbacks of a batch. */
  ghost predicate Idle(s: St) {
    Core(s) && !s.firing && OnlyScheduled(s.cells, s.qHead)
  }

  lemma HoldsRenamed(loc: seq<Loc>, loc2: seq<Loc>, q: seq<nat>, l: Loc, l2: Loc)
    requires Holds(loc, q, l) && |loc2| == |loc|
    requires forall c :: 0 <= c < |loc| ==> (loc2[c] == l2 <==> loc[c] == l)
    ensures Holds(loc2, q, l2)
  {
  }

  lemma BeginPlaced(s: St)
    requires Core(s) && s.wq == []
    ensures Shape(BeginStep(s)) && Placed(BeginStep(s), -1)
  {
    hide Filled, Sorted, SumLen, TimersLink, WaitsLink, QueueLink, BatchLink, ArmedLink, WellFormed, Holds;
    var t := BeginStep(s);
    forall c | 0 <= c < |s.loc| ensures s.loc[c] != Batch {
      if s.loc[c] == Batch { HoldsMember(s.loc, s.wq, Batch, c); }
    }
    forall i | 0 <= i < WHEEL_SIZE ensures Holds(t.loc, t.wheel[i], Slot(i)) {
      HoldsRenamed(s.loc, t.loc, s.wheel[i], Slot(i), Slot(i));
    }
    HoldsRenamed(s.loc, t.loc, s.freeQ, Free, Free);
    HoldsRenamed(s.loc, t.loc, s.qHead, Queued, Batch);
    HoldsNone(t.loc, Queued);
  }

  lemma HoldsNone(loc: seq<Loc>, l: Loc)
    requires forall c :: 0 <= c < |loc| ==> loc[c] != l
    ensures Holds(loc, [], l)
  {
  }

  lemma BeginFilled(s: St)
    requires Core(s)
    ensures Shape(BeginStep(s)) && Filled(BeginStep(s))
  {
    hide Placed, Sorted, SumLen, TimersLink, WaitsLink, QueueLink, BatchLink, ArmedLink, WellFormed, Holds;
    var t := BeginStep(s);
    forall c | 0 <= c < |t.cells| ensures CellOk(t.cells[c], t.loc[c], t.serial[c], t.working, t.abs.nextId) {
      assert CellOk(s.cells[c], s.loc[c], s.serial[c], s.working, s.abs.nextId);
    }
  }

  lemma {:induction false} AllLive(cells: seq<Cell>, serial: seq<nat>, q: seq<nat>, items: seq<Item>)
    requires |items| == |q|
    requires forall k :: 0 <= k < |q| ==>
      q[k] < |cells| && q[k] < |serial| && cells[q[k]].cb != 0 && items[k] == ItemOf(cells, serial, q[k])
    ensures LiveItems(cells, serial, q) == items
  {
    if q != [] {
      AllLive(cells, serial, q[1..], items[1..]);
      assert items == [items[0]] + items[1..];
    }
  }

  lemma BeginBatchLink(s: St)
    requires Core(s) && s.wq == [] && !s.firing && KeysUnique(s.cells, s.qHead)
    ensures Shape(BeginStep(s)) && BatchLink(BeginStep(s))
  {
    hide Sorted, SumLen, TimersLink, WaitsLink, BatchLink, ArmedLink, WellFormed, LiveItems, KeysUnique;
    forall k | 0 <= k < |s.qHead| ensures s.qHead[k] < |s.cells| && s.cells[s.qHead[k]].cb != 0 {
      assert CellOk(s.cells[s.qHead[k]], s.loc[s.qHead[k]], s.serial[s.qHead[k]], s.working, s.abs.nextId);
    }
    AllLive(s.cells, s.serial, s.qHead, s.abs.queued);
    var t := BeginStep(s);
    BatchLinkFrom(t);
  }

  lemma BatchLinkFrom(t: St)
    requires Shape(t) && forall k :: 0 <= k < |t.wq| ==> t.wq[k] < |t.cells|
    requires t.abs.batch == LiveItems(t.cells, t.serial, t.wq) && !t.firing && KeysUnique(t.cells, t.wq)
    ensures BatchLink(t)
  {
  }

  lemma BeginLinks(s: St)
    requires Core(s) && s.wq == [] && s.abs.batch == []
    ensures var t := BeginStep(s); Shape(t) && TimersLink(t) && WaitsLink(t) && QueueLink(t)
    ensures WellFormed(BeginStep(s).abs) && Step(s.abs, Begin) == Some(BeginStep(s).abs)
  {
    hide Placed, Filled, Sorted, SumLen, BatchLink, ArmedLink, Holds, WellFormed;
    StepKeepsWellFormed(s.abs, Begin);
  }

  lemma BeginArmedLink(s: St)
    requires Core(s) && s.wq == []
    ensures var t := BeginStep(s); Shape(t) && ArmedLink(t)
  {
    hide Placed, Filled, Sorted, SumLen, BatchLink, TimersLink, WaitsLink, QueueLink, Holds, WellFormed;
  }

  lemma EmptyBatch(s: St)
    requires Core(s) && s.wq == []
    ensures s.abs.batch == []
  {
    hide Placed, Filled, Sorted, SumLen, TimersLink, WaitsLink, QueueLink, WellFormed;
  }

  lemma BeginGoesIdle(s: St)
    requires Capturing(s, VEC_SIZE)
    ensures Idle(BeginStep(s)) && Step(s.abs, Begin) == Some(BeginStep(s).abs)
  {
    hide Placed, Filled, Sorted, SumLen, TimersLink, WaitsLink, QueueLink, BatchLink, ArmedLink, WellFormed, Holds;
    EmptyBatch(s);
    BeginPlaced(s);
    BeginFilled(s);
    BeginBatchLink(s);
    BeginLinks(s);
    BeginArmedLink(s);
    var t := BeginStep(s);
    assert Sorted(t) by { SortedSame(s, t); }
  }

  // --------------------------------------------------------- run and retire

  /** The first cell of the working queue is about to be run, unless it was cancelled. */
  ghost function RunStep(s: St): St
    requires s.wq != [] && s.wq[0] < |s.cells|
  {
    if s.cells[s.wq[0]].cb == 0 || s.abs.batch == [] then s.(firing := true)
    else s.(firing := true, abs := s.abs.(batch := s.abs.batch[1..]))
  }

  lemma RunGoesIn(s: St)
    requires Idle(s) && s.wq != []
    ensures s.wq[0] < |s.cells| && s.wq[0] < |s.serial| && Inv(RunStep(s))
    ensures s.cells[s.wq[0]].cb != 0 ==>
      Step(s.abs, Run(s.serial[s.wq[0]])) == Some(RunStep(s).abs)
    ensures s.cells[s.wq[0]].cb == 0 ==> RunStep(s).abs == s.abs
  {
    hide Placed, Filled, Sorted, SumLen, TimersLink, WaitsLink, QueueLink, WellFormed, Holds;
    var c := s.wq[0];
    assert Unrun(s) == s.wq && Unrun(RunStep(s)) == s.wq[1..];
    RunKeepsFilled(s, RunStep(s));
    RunKeepsOtherLinks(s, RunStep(s));
    if s.cells[c].cb == 0 {
      assert s.abs.batch == LiveItems(s.cells, s.serial, s.wq[1..]);
    } else {
      assert s.abs.batch == [ItemOf(s.cells, s.serial, c)] + LiveItems(s.cells, s.serial, s.wq[1..]);
      assert s.abs.batch[1..] == LiveItems(s.cells, s.serial, s.wq[1..]);
      StepKeepsWellFormed(s.abs, Run(s.serial[c]));
    }
  }

  lemma RunKeepsOtherLinks(s: St, t: St)
    requires Shape(s) && t == s.(firing := t.firing, abs := s.abs.(batch := t.abs.batch))
    requires TimersLink(s) && WaitsLink(s) && QueueLink(s) && ArmedLink(s)
    ensures Shape(t) && TimersLink(t) && WaitsLink(t) && QueueLink(t) && ArmedLink(t)
  {
  }

  lemma RunKeepsFilled(s: St, t: St)
    requires Struct(s, -1) && t == s.(firing := t.firing, abs := s.abs.(batch := t.abs.batch))
    ensures Struct(t, -1)
  {
    hide Holds, SumLen, SlotSorted, CellOk;
  }

  /** The cell that was run goes back to the free queue. */
  ghost function RetireStep(s: St): St
    requires s.wq != [] && s.wq[0] < |s.loc|
  {
    s.(wq := s.wq[1..], freeQ := s.freeQ + [s.wq[0]], loc := s.loc[s.wq[0] := Free], firing := false)
  }

  lemma RetirePlaced(s: St)
    requires Inv(s) && s.firing
    ensures s.wq != [] && s.wq[0] < |s.loc| && s.loc[s.wq[0]] == Batch
    ensures Struct(RetireStep(s), -1)
  {
    hide Sorted, SumLen, TimersLink, WaitsLink, QueueLink, BatchLink, ArmedLink, WellFormed, Holds, OnlyScheduled;
    HoldsElement(s.loc, s.wq, Batch, 0);
    var c := s.wq[0];
    SlotsUntouched(s, c, Free);
    HoldsAdded(s.loc, s.freeQ, Free, c);
    HoldsOther(s.loc, s.qHead, Queued, c, Free);
    WithoutFirst(s.wq);
    HoldsRemoved(s.loc, s.wq, Batch, c, Free);
    var t := RetireStep(s);
    assert Sorted(t) by { SortedSame(s, t); }
  }

  lemma RetireGoesIdle(s: St)
    requires Inv(s) && s.firing
    ensures s.wq != [] && s.wq[0] < |s.loc| && Idle(RetireStep(s))
  {
    hide Placed, Filled, Sorted, SumLen, BatchLink, WellFormed, Holds, TimersLink, WaitsLink, QueueLink;
    RetirePlaced(s);
    RetireKeepsTimersLink(s);
    RetireKeepsOtherLinks(s);
    RetireKeepsBatchLink(s);
  }

  lemma RetireKeepsTimersLink(s: St)
    requires Inv(s) && s.wq != [] && s.wq[0] < |s.loc| && s.loc[s.wq[0]] == Batch
    ensures Shape(RetireStep(s)) && TimersLink(RetireStep(s)) && ArmedLink(RetireStep(s))
  {
    hide Placed, Filled, Sorted, SumLen, BatchLink, WellFormed, Holds, WaitsLink, QueueLink;
  }

  lemma RetireKeepsOtherLinks(s: St)
    requires Inv(s) && s.wq != [] && s.wq[0] < |s.loc|
    ensures var t := RetireStep(s); Shape(t) && WaitsLink(t) && QueueLink(t)
  {
    hide Placed, Filled, Sorted, SumLen, BatchLink, WellFormed, Holds, TimersLink;
  }

  lemma RetireKeepsBatchLink(s: St)
    requires Inv(s) && s.wq != [] && s.wq[0] < |s.loc|
    ensures var t := RetireStep(s); Shape(t) && BatchLink(t)
  {
    hide Placed, Filled, Sorted, SumLen, WellFormed, Holds, TimersLink, WaitsLink, QueueLink, LiveItems;
    var t := RetireStep(s);
    assert Unrun(s) == Unrun(t) == s.wq[1..];
    assert forall k :: 0 <= k < |t.wq| ==> t.wq[k] == s.wq[k + 1];
  }

  lemma WaitsBelow(s: St, n: nat)
    requires Capturing(s, 0)
    requires |s.vec| == VEC_SIZE && forall v :: 0 <= v < VEC_SIZE && s.vec[v] != -1 ==> v < n
    ensures forall v :: v in s.abs.waits ==> v < n
  {
    hide Struct, TimersLink, QueueLink, BatchLink, ArmedLink, WellFormed;
  }

  lemma CapturingWeaker(s: St, v: nat, w: nat)
    requires Capturing(s, v) && v <= w
    ensures Capturing(s, w)
  {
    hide Core;
  }

  lemma RunUnfolds(s: St)
    requires Idle(s) && s.wq != []
    ensures !s.firing && s.abs.now == s.now && s.wq[0] < |s.cells| && s.wq[0] < |s.serial|
    ensures if s.cells[s.wq[0]].cb == 0 then RunStep(s) == s.(firing := true)
            else s.abs.batch != [] && RunStep(s) == s.(firing := true, abs := s.abs.(batch := s.abs.batch[1..]))
    ensures var c := s.wq[0]; s.cells[c].cb != 0 ==>
      s.serial[c] in s.armed && s.armed[s.serial[c]] ==
          Call(s.cells[c].cb, s.cells[c].arg, s.cells[c].resource, s.cells[c].how)
  {
    hide Filled, Sorted, SumLen, TimersLink, WaitsLink, QueueLink, WellFormed, Holds;
    assert Unrun(s) == s.wq;
    HoldsElement(s.loc, s.wq, Batch, 0);
  }

  lemma IdleAtRest(s: St)
    requires Idle(s) && s.wq == [] && s.working == -1 && NothingDue(s.abs)
    ensures Inv(s) && AtRest(s) && s.abs.batch == []
  {
    hide Placed, Filled, Sorted, SumLen, TimersLink, WaitsLink, QueueLink, WellFormed;
    EmptyBatch(s);
    OnlyWalkedSlotHasTombstones(s);
  }

  lemma CaptureStarts(s: St)
    requires Inv(s) && AtRest(s)
    ensures Capturing(s, 0) && |s.vec| == VEC_SIZE && |s.qHead| == |s.abs.queued| && s.working == -1
        && NothingDue(s.abs)
  {
    hide Placed, Filled, Sorted, SumLen, TimersLink, WaitsLink, BatchLink, ArmedLink, WellFormed, NoTombstones;
    InvStartsCapture(s);
  }

  lemma NothingArmed(s: St)
    requires Inv(s) && forall v :: 0 <= v < |s.vec| ==> s.vec[v] == -1
    ensures s.abs.waits.Keys == {}
  {
    hide Placed, Filled, Sorted, SumLen, TimersLink, QueueLink, BatchLink, ArmedLink, WellFormed;
  }

  lemma SomethingArmed(s: St, i: nat)
    requires Inv(s) && 2 * i + 1 < |s.vec| && (s.vec[2 * i] != -1 || s.vec[2 * i + 1] != -1)
    ensures s.abs.waits.Keys != {}
  {
    hide Placed, Filled, Sorted, SumLen, TimersLink, QueueLink, BatchLink, ArmedLink, WellFormed;
    assert 2 * i in s.abs.waits || 2 * i + 1 in s.abs.waits;
  }

  lemma ArmedOrNot(s: St, maxfd: int)
    requires Inv(s) && AtRest(s)
    requires -1 <= maxfd < 20000 && forall v :: 0 <= v < |s.vec| && s.vec[v] != -1 ==> v < 2 * (maxfd + 1)
    requires maxfd != -1 ==> 2 * maxfd + 1 < |s.vec| && (s.vec[2 * maxfd] != -1 || s.vec[2 * maxfd + 1] != -1)
    ensures |s.vec| == VEC_SIZE && |s.qHead| == |s.abs.queued|
    ensures s.abs.waits.Keys == {} <==> maxfd == -1
  {
    hide Inv, AtRest;
    CaptureStarts(s);
    if maxfd == -1 { NothingArmed(s); } else { SomethingArmed(s, maxfd); }
  }
}
