/**
 The scheduler's memory: callback cells and the queues that link them.
 `St` is a snapshot of every static variable of the wheel and of the event loop,
 together with the bookkeeping the proof needs (where each cell is, which arming it
 holds).  The lemmas say what each primitive step does to the invariants.
 */
module SchedulerState {
  import opened SchedulerSpec
  import opened SchedulerTicks

  const VEC_SIZE: nat := 40000  // 20000 descriptors, reading and writing

  /** A callback cell.  Pointers to cells are their index in the arena; `cb` is 0 for a null function. */
  datatype Cell = Cell(cb: nat, arg: nat, how: int, resource: int, backptr: int)

  /** A callback invocation: the function and what it is passed. */
  datatype Call = Call(fn: nat, arg: nat, resource: int, how: int)

  /** The one place a cell is in. */
  datatype Loc = Slot(i: nat) | Free | Queued | Batch | Sock(v: nat) | Held

  datatype St = St(
    cells: seq<Cell>, wheel: seq<seq<nat>>, freeQ: seq<nat>, qHead: seq<nat>, wq: seq<nat>, vec: seq<int>,
    now: nat, working: int, pending: bool, timersSet: int,
    loc: seq<Loc>, serial: seq<nat>, armed: map<nat, Call>, home: map<nat, nat>, firing: bool, abs: Abs)

  // ------------------------------------------------------------- tail queues

  /** TAILQ_REMOVE: the queue without one element. */
  function Without(q: seq<nat>, c: nat): (r: seq<nat>)
    ensures c in q ==> |r| == |q| - 1
    ensures c !in q ==> r == q
  {
    if q == [] then []
    else if q[0] == c then q[1..]
    else [q[0]] + Without(q[1..], c)
  }

  lemma {:induction false} WithoutAt(q: seq<nat>, k: nat)
    requires k < |q| && forall j :: 0 <= j < k ==> q[j] != q[k]
    ensures Without(q, q[k]) == q[..k] + q[k + 1..]
  {
    if k > 0 {
      var r := q[1..];
      assert r[k - 1] == q[k] && q[0] != q[k];
      forall j | 0 <= j < k - 1 ensures r[j] != r[k - 1] { assert r[j] == q[j + 1]; }
      WithoutAt(r, k - 1);
      assert r[..k - 1] == q[1..k] && r[k..] == q[k + 1..];
      assert [q[0]] + (q[1..k] + q[k + 1..]) == q[..k] + q[k + 1..];
    }
  }

  /** Queue `q` holds exactly the cells at `l`, each once. */
  ghost predicate Holds(loc: seq<Loc>, q: seq<nat>, l: Loc) {
    && (forall k :: 0 <= k < |q| ==> q[k] < |loc| && loc[q[k]] == l)
    && (forall j, k :: 0 <= j < k < |q| ==> q[j] != q[k])
    && (forall c :: 0 <= c < |loc| && loc[c] == l ==> c in q)
  }

  lemma HoldsElement(loc: seq<Loc>, q: seq<nat>, l: Loc, k: nat)
    requires Holds(loc, q, l) && k < |q|
    ensures q[k] < |loc| && loc[q[k]] == l && q[k] in q
  {
  }

  lemma HoldsMember(loc: seq<Loc>, q: seq<nat>, l: Loc, c: nat)
    requires Holds(loc, q, l) && c < |loc| && loc[c] == l
    ensures c in q
  {
  }

  lemma HoldsOther(loc: seq<Loc>, q: seq<nat>, l: Loc, c: nat, to: Loc)
    requires Holds(loc, q, l) && c < |loc| && loc[c] != l && to != l
    ensures Holds(loc[c := to], q, l)
  {
  }

  lemma HoldsMore(loc: seq<Loc>, q: seq<nat>, l: Loc, x: Loc)
    requires Holds(loc, q, l) && x != l
    ensures Holds(loc + [x], q, l)
  {
  }

  lemma HoldsAdded(loc: seq<Loc>, q: seq<nat>, l: Loc, c: nat)
    requires Holds(loc, q, l) && c < |loc| && loc[c] != l
    ensures Holds(loc[c := l], q + [c], l)
  {
    var q2 := q + [c];
    forall b | 0 <= b < |loc| && loc[c := l][b] == l ensures b in q2 {
      if b == c { assert q2[|q|] == c; } else { assert b in q; }
    }
  }

  lemma CutKeepsOthers(q: seq<nat>, k: nat)
    requires k < |q| && forall i, j :: 0 <= i < j < |q| ==> q[i] != q[j]
    ensures Without(q, q[k]) == q[..k] + q[k + 1..]
    ensures forall b :: b in Without(q, q[k]) <==> b in q && b != q[k]
    ensures forall i, j :: 0 <= i < j < |Without(q, q[k])| ==> Without(q, q[k])[i] != Without(q, q[k])[j]
  {
    WithoutAt(q, k);
    var r := q[..k] + q[k + 1..];
    forall b | b in q && b != q[k] ensures b in r {
      var m :| 0 <= m < |q| && q[m] == b;
      assert b == r[if m < k then m else m - 1];
    }
  }

  lemma HoldsFewer(loc: seq<Loc>, q: seq<nat>, l: Loc, c: nat, to: Loc, r: seq<nat>)
    requires Holds(loc, q, l) && c < |loc| && to != l
    requires forall b :: b in r <==> b in q && b != c
    requires forall i, j :: 0 <= i < j < |r| ==> r[i] != r[j]
    ensures Holds(loc[c := to], r, l)
  {
    forall j | 0 <= j < |r| ensures r[j] < |loc| && loc[c := to][r[j]] == l {
      assert r[j] in r;
    }
  }

  lemma HoldsRemoved(loc: seq<Loc>, q: seq<nat>, l: Loc, c: nat, to: Loc)
    requires Holds(loc, q, l) && c in q && to != l
    ensures Holds(loc[c := to], Without(q, c), l)
  {
    var k :| 0 <= k < |q| && q[k] == c;
    CutKeepsOthers(q, k);
    HoldsFewer(loc, q, l, c, to, Without(q, c));
  }

  // -------------------------------------------------------------- invariants

  predicate KeyOk(x: Cell) {
    (x.how == -1 && x.resource == -1) || (0 <= x.how <= 1 && 0 <= x.resource)
  }

  function KeyOf(x: Cell): int {
    if x.how == -1 then -1 else 2 * x.resource + x.how
  }

  predicate CellOk(x: Cell, l: Loc, n: nat, working: int, nextId: nat) {
    match l
    case Free => true
    case Held => true
    case Slot(i) =>
      Ticks(x.resource) % WHEEL_SIZE == i && x.backptr == i && n < nextId && (x.cb == 0 ==> working == i)
    case Sock(v) => 0 <= x.how <= 1 && 0 <= x.resource && KeyOf(x) == v && x.cb != 0 && n < nextId
    case Queued => KeyOk(x) && x.cb != 0 && n < nextId
    case Batch => KeyOk(x) && n < nextId
  }

  ghost predicate Shape(s: St) {
    |s.loc| == |s.cells| == |s.serial| && |s.wheel| == WHEEL_SIZE && |s.vec| == VEC_SIZE && -1 <= s.working < WHEEL_SIZE
  }

  /** Every cell is in exactly one place: the place its `loc` says; `held` is the one being moved, or -1. */
  ghost predicate Placed(s: St, held: int)
    requires Shape(s)
  {
    && (forall i :: 0 <= i < WHEEL_SIZE ==> Holds(s.loc, s.wheel[i], Slot(i)))
    && Holds(s.loc, s.freeQ, Free) && Holds(s.loc, s.qHead, Queued) && Holds(s.loc, s.wq, Batch)
    && (forall v :: 0 <= v < VEC_SIZE ==> s.vec[v] == -1 || (0 <= s.vec[v] < |s.loc| && s.loc[s.vec[v]] == Sock(v)))
    && (forall c :: 0 <= c < |s.loc| && s.loc[c].Sock? ==> s.loc[c].v < VEC_SIZE && s.vec[s.loc[c].v] == c)
    && (forall c :: 0 <= c < |s.loc| && s.loc[c].Slot? ==> s.loc[c].i < WHEEL_SIZE)
    && -1 <= held < |s.loc| && (forall c :: 0 <= c < |s.loc| ==> (s.loc[c] == Held <==> c == held))
  }

  ghost predicate Filled(s: St)
    requires Shape(s)
  {
    forall c :: 0 <= c < |s.cells| ==> CellOk(s.cells[c], s.loc[c], s.serial[c], s.working, s.abs.nextId)
  }

  /** Within a slot, timers stand in the order they were set. */
  ghost predicate SlotSorted(serial: seq<nat>, q: seq<nat>) {
    && (forall k :: 0 <= k < |q| ==> q[k] < |serial|)
    && (forall j, k :: 0 <= j < k < |q| ==> serial[q[j]] < serial[q[k]])
  }

  ghost predicate Sorted(s: St)
    requires Shape(s)
  {
    forall i :: 0 <= i < WHEEL_SIZE ==> SlotSorted(s.serial, s.wheel[i])
  }

  function SumLen(w: seq<seq<nat>>): nat {
    if w == [] then 0 else SumLen(w[..|w| - 1]) + |w[|w| - 1]|
  }

  lemma {:induction false} SumLenUpdate(w: seq<seq<nat>>, i: nat, q: seq<nat>)
    requires i < |w|
    ensures SumLen(w[i := q]) == SumLen(w) - |w[i]| + |q|
  {
    var n := |w| - 1;
    if i == n {
      assert w[i := q][..n] == w[..n];
    } else {
      SumLenUpdate(w[..n], i, q);
      assert w[i := q][..n] == w[..n][i := q];
    }
  }

  ghost predicate Struct(s: St, held: int) {
    Shape(s) && Placed(s, held) && Filled(s) && Sorted(s) && s.timersSet == SumLen(s.wheel)
  }

  // ------------------------------------------------------------ conservation

  /** Cell `c` is listed at `l`. */
  ghost predicate StandsIn(s: St, c: nat, l: Loc)
    requires Shape(s)
  {
    match l
    case Slot(i) => i < WHEEL_SIZE && c in s.wheel[i]
    case Free => c in s.freeQ
    case Queued => c in s.qHead
    case Batch => c in s.wq
    case Sock(v) => v < VEC_SIZE && s.vec[v] == c
    case Held => false
  }

  /** Every allocated cell is in exactly one place, and the wheel's count of timers is right. */
  lemma CellsConserved(s: St, c: nat)
    requires Struct(s, -1) && c < |s.cells|
    ensures StandsIn(s, c, s.loc[c])
    ensures forall l :: StandsIn(s, c, l) ==> l == s.loc[c]
    ensures s.timersSet == SumLen(s.wheel)
  {
    hide SumLen, Filled, Sorted;
    if s.loc[c].Slot? { HoldsMember(s.loc, s.wheel[s.loc[c].i], s.loc[c], c); }
    forall l | StandsIn(s, c, l) ensures l == s.loc[c] {
      if l.Slot? {
        var k :| 0 <= k < |s.wheel[l.i]| && s.wheel[l.i][k] == c;
        HoldsElement(s.loc, s.wheel[l.i], l, k);
      }
    }
  }

  // ------------------------------------------- links to the abstract machine

  /** The wheel's live cells are exactly the pending timers, under their deadlines. */
  ghost predicate TimersLink(s: St)
    requires Shape(s)
  {
    && (forall c :: 0 <= c < |s.cells| && s.loc[c].Slot? && s.cells[c].cb != 0 ==>
          && s.serial[c] in s.abs.timers && s.abs.timers[s.serial[c]] == Ticks(s.cells[c].resource)
          && s.serial[c] in s.home && s.home[s.serial[c]] == c)
    && (forall id :: id in s.abs.timers ==>
          && id in s.home && s.home[id] < |s.cells| && s.loc[s.home[id]].Slot?
          && s.serial[s.home[id]] == id && s.cells[s.home[id]].cb != 0)
  }

  ghost predicate WaitsLink(s: St)
    requires Shape(s)
  {
    && (forall v :: v in s.abs.waits ==> v < VEC_SIZE)
    && (forall v :: 0 <= v < VEC_SIZE ==> (v in s.abs.waits <==> s.vec[v] != -1))
    && (forall v :: 0 <= v < VEC_SIZE && s.vec[v] != -1 ==>
          0 <= s.vec[v] < |s.serial| && s.abs.waits[v] == s.serial[s.vec[v]])
  }

  function ItemOf(cells: seq<Cell>, serial: seq<nat>, c: nat): Item
    requires c < |cells| && c < |serial|
  {
    Item(serial[c], KeyOf(cells[c]))
  }

  ghost predicate QueueLink(s: St)
    requires Shape(s)
  {
    && |s.abs.queued| == |s.qHead|
    && (forall k :: 0 <= k < |s.qHead| ==>
          s.qHead[k] < |s.cells| && s.abs.queued[k] == ItemOf(s.cells, s.serial, s.qHead[k]))
  }

  /** The callbacks of `q` that have not been cancelled. */
  ghost function LiveItems(cells: seq<Cell>, serial: seq<nat>, q: seq<nat>): seq<Item>
    requires forall k :: 0 <= k < |q| ==> q[k] < |cells| && q[k] < |serial|
  {
    if q == [] then []
    else if cells[q[0]].cb == 0 then LiveItems(cells, serial, q[1..])
    else [ItemOf(cells, serial, q[0])] + LiveItems(cells, serial, q[1..])
  }

  /** At most one callback of `q` per descriptor. */
  ghost predicate KeysUnique(cells: seq<Cell>, q: seq<nat>) {
    && (forall k :: 0 <= k < |q| ==> q[k] < |cells|)
    && (forall j, k :: 0 <= j < k < |q| && KeyOf(cells[q[j]]) == KeyOf(cells[q[k]]) ==> KeyOf(cells[q[k]]) == -1)
  }

  ghost predicate OnlyScheduled(cells: seq<Cell>, q: seq<nat>) {
    forall k :: 0 <= k < |q| ==> q[k] < |cells| && cells[q[k]].how == -1
  }

  /** The part of the working queue that is still to be run. */
  function Unrun(s: St): seq<nat> {
    if s.firing && s.wq != [] then s.wq[1..] else s.wq
  }

  ghost predicate BatchLink(s: St)
    requires Shape(s)
  {
    && (forall k :: 0 <= k < |s.wq| ==> s.wq[k] < |s.cells|)
    && s.abs.batch == LiveItems(s.cells, s.serial, Unrun(s))
    && KeysUnique(s.cells, s.wq)
  }

  predicate InUse(l: Loc) {
    l.Slot? || l.Sock? || l.Queued? || l.Batch?
  }

  /** The invocation a live cell stands for; timers are called with resource 0. */
  function CallOf(x: Cell, l: Loc): Call {
    if l.Slot? then Call(x.cb, x.arg, 0, -1) else Call(x.cb, x.arg, x.resource, x.how)
  }

  /** Every live cell still stands for the invocation it was armed with. */
  ghost predicate ArmedLink(s: St)
    requires Shape(s)
  {
    && (forall id :: id in s.armed ==> id < s.abs.nextId)
    && (forall c :: 0 <= c < |s.cells| && InUse(s.loc[c]) && s.cells[c].cb != 0 ==>
          s.serial[c] in s.armed && s.armed[s.serial[c]] == CallOf(s.cells[c], s.loc[c]))
  }

  ghost predicate Links(s: St)
    requires Shape(s)
  {
    && WellFormed(s.abs) && s.abs.now == s.now
    && TimersLink(s) && WaitsLink(s) && QueueLink(s) && BatchLink(s) && ArmedLink(s)
  }

  /** What holds whenever the scheduler's operations may be called, inside a callback or not. */
  ghost predicate Inv(s: St) {
    && Struct(s, -1) && Links(s)
    && OnlyScheduled(s.cells, s.qHead)
    && (s.firing <==> s.wq != [])
  }

  // ---------------------------------------------------------------- creation

  /** The cell that nr_async_create_cb will return. */
  function NextCell(s: St): nat {
    if s.freeQ == [] then |s.cells| else s.freeQ[0]
  }

  /** nr_async_create_cb: the head of the free queue, or new memory when it is empty. */
  ghost function Create(s: St, x: Cell): St
    requires Shape(s) && (s.freeQ != [] ==> s.freeQ[0] < |s.cells|)
  {
    if s.freeQ == [] then
      s.(cells := s.cells + [x], loc := s.loc + [Held], serial := s.serial + [s.abs.nextId])
    else
      var c := s.freeQ[0];
      s.(cells := s.cells[c := x], freeQ := s.freeQ[1..], loc := s.loc[c := Held],
          serial := s.serial[c := s.abs.nextId])
  }

  /** nr_async_destroy_cb: the cell goes to the tail of the free queue. */
  ghost function Destroy(s: St, c: nat): St
    requires c < |s.loc|
  {
    s.(freeQ := s.freeQ + [c], loc := s.loc[c := Free])
  }

  lemma PlacedMoreMemory(s: St, x: Cell)
    requires Struct(s, -1) && s.freeQ == []
    ensures Shape(Create(s, x)) && Placed(Create(s, x), |s.cells|)
  {
    hide Holds, CellOk, SlotSorted, SumLen, Without;
    var t := Create(s, x);
    forall i | 0 <= i < WHEEL_SIZE ensures Holds(t.loc, t.wheel[i], Slot(i)) {
      HoldsMore(s.loc, s.wheel[i], Slot(i), Held);
    }
    HoldsMore(s.loc, s.freeQ, Free, Held);
    HoldsMore(s.loc, s.qHead, Queued, Held);
    HoldsMore(s.loc, s.wq, Batch, Held);
  }

  lemma WithoutFirst(q: seq<nat>)
    requires q != []
    ensures Without(q, q[0]) == q[1..]
  {
  }

  /** Moving a cell between places that are not slots leaves the slots as they were. */
  lemma SlotsUntouched(s: St, c: nat, to: Loc)
    requires Shape(s) && c < |s.loc| && !s.loc[c].Slot? && !to.Slot?
    requires forall i :: 0 <= i < WHEEL_SIZE ==> Holds(s.loc, s.wheel[i], Slot(i))
    ensures forall i :: 0 <= i < WHEEL_SIZE ==> Holds(s.loc[c := to], s.wheel[i], Slot(i))
  {
    hide Holds, CellOk, SlotSorted, SumLen, Without;
    forall i | 0 <= i < WHEEL_SIZE ensures Holds(s.loc[c := to], s.wheel[i], Slot(i)) {
      HoldsOther(s.loc, s.wheel[i], Slot(i), c, to);
    }
  }

  lemma PlacedFromFree(s: St, x: Cell)
    requires Struct(s, -1) && s.freeQ != []
    ensures s.loc[s.freeQ[0]] == Free
    ensures Shape(Create(s, x)) && Placed(Create(s, x), s.freeQ[0])
  {
    hide Holds, CellOk, SlotSorted, SumLen, Without;
    HoldsElement(s.loc, s.freeQ, Free, 0);
    var t, c := Create(s, x), s.freeQ[0];
    SlotsUntouched(s, c, Held);
    WithoutFirst(s.freeQ);
    HoldsRemoved(s.loc, s.freeQ, Free, c, Held);
    HoldsOther(s.loc, s.qHead, Queued, c, Held);
    HoldsOther(s.loc, s.wq, Batch, c, Held);
  }

  lemma SortedUnless(s: St, serial: seq<nat>)
    requires Shape(s) && Sorted(s) && |serial| >= |s.serial|
    requires forall i :: 0 <= i < WHEEL_SIZE ==> Holds(s.loc, s.wheel[i], Slot(i))
    requires forall c :: 0 <= c < |s.serial| && s.loc[c].Slot? ==> serial[c] == s.serial[c]
    ensures forall i :: 0 <= i < WHEEL_SIZE ==> SlotSorted(serial, s.wheel[i])
  {
    forall i | 0 <= i < WHEEL_SIZE ensures SlotSorted(serial, s.wheel[i]) {
      assert SlotSorted(s.serial, s.wheel[i]) && Holds(s.loc, s.wheel[i], Slot(i));
    }
  }

  lemma CreateKeepsStruct(s: St, x: Cell)
    requires Struct(s, -1)
    ensures s.freeQ != [] ==> s.freeQ[0] < |s.cells|
    ensures Struct(Create(s, x), NextCell(s))
  {
    hide Holds, SlotSorted, SumLen, Without;
    if s.freeQ != [] { HoldsElement(s.loc, s.freeQ, Free, 0); }
    var t := Create(s, x);
    if s.freeQ == [] {
      PlacedMoreMemory(s, x);
    } else {
      PlacedFromFree(s, x);
    }
    SortedUnless(s, t.serial);
  }

  lemma DestroyKeepsStruct(s: St, c: nat)
    requires Struct(s, c)
    ensures Struct(Destroy(s, c), -1)
  {
    hide Holds, SlotSorted, SumLen, Without;
    var t := Destroy(s, c);
    SlotsUntouched(s, c, Free);
    HoldsAdded(s.loc, s.freeQ, Free, c);
    HoldsOther(s.loc, s.qHead, Queued, c, Free);
    HoldsOther(s.loc, s.wq, Batch, c, Free);
  }

  // --------------------------------------------------------- placing a cell

  /** TAILQ_INSERT_TAIL into wheel slot `i`. */
  ghost function ToSlot(s: St, c: nat, i: nat): St
    requires Shape(s) && c < |s.cells| && i < WHEEL_SIZE
  {
    s.(wheel := s.wheel[i := s.wheel[i] + [c]], cells := s.cells[c := s.cells[c].(backptr := i)],
       timersSet := s.timersSet + 1, loc := s.loc[c := Slot(i)])
  }

  ghost function ToQueue(s: St, c: nat): St
    requires c < |s.loc|
  {
    s.(qHead := s.qHead + [c], loc := s.loc[c := Queued])
  }

  ghost function ToVec(s: St, c: nat, v: nat): St
    requires c < |s.loc| && v < |s.vec|
  {
    s.(vec := s.vec[v := c], loc := s.loc[c := Sock(v)])
  }

  lemma ToSlotPlaced(s: St, c: nat, i: nat)
    requires Struct(s, c) && i < WHEEL_SIZE
    ensures Placed(ToSlot(s, c, i), -1)
  {
    hide Holds, CellOk, SlotSorted, SumLen, Without;
    var t := ToSlot(s, c, i);
    forall j | 0 <= j < WHEEL_SIZE ensures Holds(t.loc, t.wheel[j], Slot(j)) {
      assert Holds(s.loc, s.wheel[j], Slot(j));
      if j == i {
        HoldsAdded(s.loc, s.wheel[i], Slot(i), c);
      } else {
        HoldsOther(s.loc, s.wheel[j], Slot(j), c, Slot(i));
      }
    }
    HoldsOther(s.loc, s.freeQ, Free, c, Slot(i));
    HoldsOther(s.loc, s.qHead, Queued, c, Slot(i));
    HoldsOther(s.loc, s.wq, Batch, c, Slot(i));
  }

  lemma ToSlotSorted(s: St, c: nat, i: nat)
    requires Struct(s, c) && i < WHEEL_SIZE
    requires forall b :: 0 <= b < |s.serial| && s.loc[b].Slot? ==> s.serial[b] < s.serial[c]
    ensures Sorted(ToSlot(s, c, i))
  {
    var t := ToSlot(s, c, i);
    forall j | 0 <= j < WHEEL_SIZE ensures SlotSorted(t.serial, t.wheel[j]) {
      assert SlotSorted(s.serial, s.wheel[j]) && Holds(s.loc, s.wheel[j], Slot(j));
    }
  }

  lemma ToSlotKeepsStruct(s: St, c: nat, i: nat, id: nat)
    requires Struct(s, c) && i < WHEEL_SIZE
    requires s.serial[c] == s.abs.nextId
    requires s.cells[c].cb != 0 && Ticks(s.cells[c].resource) % WHEEL_SIZE == i
    ensures var t := ToSlot(s, c, i);
            Shape(t) && Placed(t, -1) && Sorted(t) && t.timersSet == SumLen(t.wheel)
    ensures var t := ToSlot(s, c, i);
            forall b :: 0 <= b < |t.cells| ==> CellOk(t.cells[b], t.loc[b], t.serial[b], t.working, s.abs.nextId + 1)
  {
    hide Holds, SlotSorted, Without;
    ToSlotPlaced(s, c, i);
    ToSlotSorted(s, c, i);
    SumLenUpdate(s.wheel, i, s.wheel[i] + [c]);
  }

  lemma ToQueueKeepsStruct(s: St, c: nat)
    requires Struct(s, c)
    requires s.serial[c] == s.abs.nextId && KeyOk(s.cells[c]) && s.cells[c].cb != 0
    ensures var t := ToQueue(s, c);
            Shape(t) && Placed(t, -1) && Sorted(t) && t.timersSet == SumLen(t.wheel)
    ensures var t := ToQueue(s, c);
            forall b :: 0 <= b < |t.cells| ==> CellOk(t.cells[b], t.loc[b], t.serial[b], t.working, s.abs.nextId + 1)
  {
    hide Holds, SlotSorted, Without, SumLen;
    SlotsUntouched(s, c, Queued);
    HoldsOther(s.loc, s.freeQ, Free, c, Queued);
    HoldsAdded(s.loc, s.qHead, Queued, c);
    HoldsOther(s.loc, s.wq, Batch, c, Queued);
  }

  lemma ToVecKeepsStruct(s: St, c: nat, v: nat)
    requires Struct(s, c) && v < VEC_SIZE && s.vec[v] == -1
    requires s.serial[c] == s.abs.nextId && s.cells[c].cb != 0
    requires 0 <= s.cells[c].how <= 1 && 0 <= s.cells[c].resource && KeyOf(s.cells[c]) == v
    ensures var t := ToVec(s, c, v);
            Shape(t) && Placed(t, -1) && Sorted(t) && t.timersSet == SumLen(t.wheel)
    ensures var t := ToVec(s, c, v);
            forall b :: 0 <= b < |t.cells| ==> CellOk(t.cells[b], t.loc[b], t.serial[b], t.working, s.abs.nextId + 1)
  {
    hide Holds, SlotSorted, Without, SumLen;
    SlotsUntouched(s, c, Sock(v));
    HoldsOther(s.loc, s.freeQ, Free, c, Sock(v));
    HoldsOther(s.loc, s.qHead, Queued, c, Sock(v));
    HoldsOther(s.loc, s.wq, Batch, c, Sock(v));
  }

  // --------------------------------------------------------- lifting a cell

  /** TAILQ_REMOVE from wheel slot `i`. */
  ghost function FromSlot(s: St, c: nat, i: nat): St
    requires Shape(s) && c < |s.loc| && i < WHEEL_SIZE
  {
    s.(wheel := s.wheel[i := Without(s.wheel[i], c)], timersSet := s.timersSet - 1, loc := s.loc[c := Held])
  }

  ghost function FromVec(s: St, c: nat, v: nat): St
    requires c < |s.loc| && v < |s.vec|
  {
    s.(vec := s.vec[v := -1], loc := s.loc[c := Held])
  }

  lemma FromSlotPlaced(s: St, c: nat, i: nat)
    requires Struct(s, -1) && i < WHEEL_SIZE && c < |s.loc| && s.loc[c] == Slot(i)
    ensures c in s.wheel[i] && Placed(FromSlot(s, c, i), c)
  {
    hide Holds, CellOk, SlotSorted, SumLen, Without;
    HoldsMember(s.loc, s.wheel[i], Slot(i), c);
    var t := FromSlot(s, c, i);
    forall j | 0 <= j < WHEEL_SIZE ensures Holds(t.loc, t.wheel[j], Slot(j)) {
      assert Holds(s.loc, s.wheel[j], Slot(j));
      if j == i {
        HoldsRemoved(s.loc, s.wheel[i], Slot(i), c, Held);
      } else {
        HoldsOther(s.loc, s.wheel[j], Slot(j), c, Held);
      }
    }
    HoldsOther(s.loc, s.freeQ, Free, c, Held);
    HoldsOther(s.loc, s.qHead, Queued, c, Held);
    HoldsOther(s.loc, s.wq, Batch, c, Held);
  }

  lemma SlotSortedCut(serial: seq<nat>, q: seq<nat>, k: nat, r: seq<nat>)
    requires SlotSorted(serial, q) && k < |q| && r == q[..k] + q[k + 1..]
    ensures SlotSorted(serial, r)
  {
    forall j | 0 <= j < |r| ensures r[j] == q[if j < k then j else j + 1] { }
  }

  lemma SlotSortedWithout(serial: seq<nat>, q: seq<nat>, c: nat)
    requires SlotSorted(serial, q) && c in q
    ensures SlotSorted(serial, Without(q, c))
  {
    var k :| 0 <= k < |q| && q[k] == c;
    forall j | 0 <= j < k ensures q[j] != q[k] {
      assert serial[q[j]] < serial[q[k]];
    }
    WithoutAt(q, k);
    SlotSortedCut(serial, q, k, Without(q, c));
  }

  lemma FromSlotKeepsStruct(s: St, c: nat, i: nat)
    requires Struct(s, -1) && i < WHEEL_SIZE && c < |s.loc| && s.loc[c] == Slot(i)
    ensures c in s.wheel[i] && Struct(FromSlot(s, c, i), c)
  {
    hide Holds, SlotSorted;
    var t := FromSlot(s, c, i);
    FromSlotPlaced(s, c, i);
    forall j | 0 <= j < WHEEL_SIZE ensures SlotSorted(t.serial, t.wheel[j]) {
      assert SlotSorted(s.serial, s.wheel[j]);
      if j == i { SlotSortedWithout(s.serial, s.wheel[i], c); }
    }
    SumLenUpdate(s.wheel, i, Without(s.wheel[i], c));
  }

  lemma FromVecKeepsStruct(s: St, c: nat, v: nat)
    requires Struct(s, -1) && v < VEC_SIZE && c < |s.loc| && s.vec[v] == c
    ensures s.loc[c] == Sock(v) && Struct(FromVec(s, c, v), c)
  {
    hide Holds, SlotSorted, SumLen;
    assert s.loc[s.vec[v]] == Sock(v);
    SlotsUntouched(s, c, Held);
    HoldsOther(s.loc, s.freeQ, Free, c, Held);
    HoldsOther(s.loc, s.qHead, Queued, c, Held);
    HoldsOther(s.loc, s.wq, Batch, c, Held);
  }
}
