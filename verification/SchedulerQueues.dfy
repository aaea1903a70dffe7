/**
 The scheduler's queues on links: the slots of the wheel, the free queue and `q_head` as tail queues in one memory.
 Moving a cell between two of them by the macros is what the steps of the scheduler do to its queues.
 */
module SchedulerQueues {
  import opened Links
  import opened SchedulerTicks
  import opened SchedulerState
  import opened TailQueues

  /** Which of the queues are the free queue and `q_head`; the others are the slots. */
  const FREE: nat := WHEEL_SIZE
  const Q_HEAD: nat := WHEEL_SIZE + 1

  ghost function QueuesOf(s: St): seq<seq<nat>> {
    s.wheel + [s.freeQ, s.qHead]
  }

  ghost predicate AllApart(lists: seq<seq<nat>>) {
    forall i, j, x :: 0 <= i < |lists| && 0 <= j < |lists| && i != j && x in lists[i] ==> x !in lists[j]
  }

  /** The tail queues are linked as these lists. */
  ghost predicate AllLinked(mem: Memory, qs: seq<TailQueue>, lists: seq<seq<nat>>)
    reads mem, qs
  {
    && |qs| == |lists| && (forall i, j :: 0 <= i < j < |qs| ==> qs[i] != qs[j])
    && forall i :: 0 <= i < |qs| ==> qs[i].mem == mem && qs[i].list == lists[i] && qs[i].Valid()
  }

  /** The element at place `k` of list `a` goes to the end of list `b`. */
  ghost function Moved(lists: seq<seq<nat>>, a: nat, k: nat, b: nat): seq<seq<nat>>
    requires a < |lists| && b < |lists| && k < |lists[a]|
  {
    lists[a := RemovedAt(lists[a], k)][b := lists[b] + [lists[a][k]]]
  }

  /** TAILQ_REMOVE from one queue and TAILQ_INSERT_TAIL into another, all others staying as they are. */
  method Move(mem: Memory, qs: seq<TailQueue>, a: nat, e: nat, b: nat, ghost k: nat, ghost lists: seq<seq<nat>>)
    requires AllLinked(mem, qs, lists) && AllApart(lists)
    requires a < |qs| && b < |qs| && a != b && k < |lists[a]| && lists[a][k] == e
    modifies mem, qs[a], qs[b]
    ensures AllLinked(mem, qs, Moved(lists, a, k, b))
  {
    hide Queue, OthersKept;
    ghost var links := mem.links;
    InMemory(links, lists[a], qs[a].head, k);
    qs[a].Remove(e, k);
    ghost var links1 := mem.links;
    forall i | 0 <= i < |qs| && i != a ensures Queue(links1, lists[i], qs[i].head) {
      OtherQueueStays(links, links1, lists[a], lists[i], qs[i].head);
    }
    SameMemory(links, links1, lists[a]);
    qs[b].InsertTail(e);
    ghost var links2 := mem.links;
    forall i | 0 <= i < |qs| && i != b ensures Queue(links2, Moved(lists, a, k, b)[i], qs[i].head) {
      OtherQueueStays(links1, links2, lists[b] + [e], Moved(lists, a, k, b)[i], qs[i].head);
    }
  }

  lemma InMemory(links: seq<Link>, l: seq<nat>, head: Head, k: nat)
    requires Queue(links, l, head) && k < |l|
    ensures l[k] < |links| && Distinct(l) && l[k] !in RemovedAt(l, k)
    ensures forall x :: x in RemovedAt(l, k) ==> x in l
  {
    assert LinkOk(links, l, k);
  }

  lemma SameMemory(links: seq<Link>, links2: seq<Link>, l: seq<nat>)
    requires OthersKept(links, links2, l)
    ensures |links2| == |links|
  {
  }

  // ---------------------------------------------------------- the scheduler

  ghost function PlaceOf(i: nat): Loc {
    if i < WHEEL_SIZE then Slot(i) else if i == FREE then Free else Queued
  }

  /** No cell is in two queues. */
  lemma QueuesApart(s: St)
    requires Struct(s, -1)
    ensures |QueuesOf(s)| == WHEEL_SIZE + 2 && AllApart(QueuesOf(s))
  {
    hide Holds, Filled, Sorted, SumLen;
    var lists := QueuesOf(s);
    forall i, j, x | 0 <= i < |lists| && 0 <= j < |lists| && i != j && x in lists[i] ensures x !in lists[j] {
      assert Holds(s.loc, lists[i], PlaceOf(i)) && Holds(s.loc, lists[j], PlaceOf(j));
      HeldThere(s.loc, lists[i], PlaceOf(i), x);
      if x in lists[j] { HeldThere(s.loc, lists[j], PlaceOf(j), x); }
    }
  }

  lemma HeldThere(loc: seq<Loc>, q: seq<nat>, l: Loc, x: nat)
    requires Holds(loc, q, l) && x in q
    ensures x < |loc| && loc[x] == l
  {
  }

  /** On links, cancelling a timer outside a walk of its slot takes the cell out of its slot and frees it. */
  method CancelOnLinks(mem: Memory, qs: seq<TailQueue>, c: nat, i: nat, ghost s: St)
    requires Struct(s, -1) && i < WHEEL_SIZE && c < |s.loc| && s.loc[c] == Slot(i)
    requires AllLinked(mem, qs, QueuesOf(s))
    modifies mem, qs
    ensures AllLinked(mem, qs, QueuesOf(Destroy(FromSlot(s, c, i), c)))
  {
    hide Struct, AllApart, Destroy, FromSlot;
    QueuesApart(s);
    SlotHas(s, c, i);
    ghost var k :| 0 <= k < |s.wheel[i]| && s.wheel[i][k] == c;
    CancelMoves(s, c, i, k);
    Move(mem, qs, i, c, FREE, k, QueuesOf(s));
  }

  lemma CancelMoves(s: St, c: nat, i: nat, k: nat)
    requires Struct(s, -1) && i < WHEEL_SIZE && c < |s.loc| && s.loc[c] == Slot(i)
    requires |s.wheel| == WHEEL_SIZE && k < |s.wheel[i]| && s.wheel[i][k] == c
    ensures Shape(s) && Moved(QueuesOf(s), i, k, FREE) == QueuesOf(Destroy(FromSlot(s, c, i), c))
  {
    hide Struct;
    StructShape(s, -1);
    SlotHas(s, c, i);
    CutKeepsOthers(s.wheel[i], k);
  }

  lemma SlotHas(s: St, c: nat, i: nat)
    requires Struct(s, -1) && i < WHEEL_SIZE && c < |s.loc| && s.loc[c] == Slot(i)
    ensures |s.wheel| == WHEEL_SIZE && c in s.wheel[i]
    ensures forall j, k :: 0 <= j < k < |s.wheel[i]| ==> s.wheel[i][j] != s.wheel[i][k]
  {
    assert Holds(s.loc, s.wheel[i], Slot(i));
  }

  /** On links, setting a timer in a recycled cell takes the first free cell to the end of its slot. */
  method SetOnLinks(mem: Memory, qs: seq<TailQueue>, i: nat, ghost x: Cell, ghost s: St) returns (c: nat)
    requires Struct(s, -1) && i < WHEEL_SIZE && s.freeQ != []
    requires AllLinked(mem, qs, QueuesOf(s))
    modifies mem, qs
    ensures c == s.freeQ[0] < |s.cells|
    ensures AllLinked(mem, qs, QueuesOf(ToSlot(Create(s, x), c, i)))
  {
    hide Struct, AllApart, Create, ToSlot;
    QueuesApart(s);
    SetMoves(s, x, i);
    assert QueuesOf(s)[FREE] == s.freeQ;
    FirstOfQueue(mem.links, s.freeQ, qs[FREE].head);
    c := qs[FREE].head.first;
    Move(mem, qs, FREE, c, i, 0, QueuesOf(s));
  }

  lemma SetMoves(s: St, x: Cell, i: nat)
    requires Struct(s, -1) && i < WHEEL_SIZE && s.freeQ != []
    ensures Shape(s) && s.freeQ[0] < |s.cells| && Shape(Create(s, x))
    ensures Moved(QueuesOf(s), FREE, 0, i) == QueuesOf(ToSlot(Create(s, x), s.freeQ[0], i))
  {
    hide Struct;
    CreateKeepsStruct(s, x);
    StructShape(s, -1);
    StructShape(Create(s, x), NextCell(s));
    var t := ToSlot(Create(s, x), s.freeQ[0], i);
    assert t.freeQ == RemovedAt(s.freeQ, 0) && t.wheel == s.wheel[i := s.wheel[i] + [s.freeQ[0]]];
    assert Moved(QueuesOf(s), FREE, 0, i) == QueuesOf(t);
  }

  lemma StructShape(s: St, held: int)
    requires Struct(s, held)
    ensures Shape(s)
  {
  }

  lemma FirstOfQueue(links: seq<Link>, l: seq<nat>, head: Head)
    requires Queue(links, l, head) && l != []
    ensures head.first == l[0]
  {
  }
}
