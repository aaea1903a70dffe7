/**
 The doubly linked tail queue macros: each insertion and removal rewrites a few links, and
 the queue stays a list linked both ways.  A link to an element is its number, -1 is null;
 the address of a `next` field is the number of the element it is in, -1 for the head's own.
 */
module TailQueues {
  import opened Links

  datatype Link = Link(next: int, prev: int)
  datatype Head = Head(first: int, last: int)

  ghost predicate LinkOk(links: seq<Link>, l: seq<nat>, j: nat)
    requires j < |l|
  {
    l[j] < |links| && links[l[j]] == Link(After(l, j), Before(l, j))
  }

  ghost function Ends(l: seq<nat>): Head {
    if l == [] then Head(-1, -1) else Head(l[0], l[|l| - 1])
  }

  /** The links run through `l` both ways, and the head has its ends. */
  ghost predicate Queue(links: seq<Link>, l: seq<nat>, head: Head) {
    head == Ends(l) && Distinct(l) && forall j :: 0 <= j < |l| ==> LinkOk(links, l, j)
  }

  /** The list with `e` at place `k`. */
  function InsertedAt(l: seq<nat>, k: nat, e: nat): seq<nat>
    requires k <= |l|
  {
    l[..k] + [e] + l[k..]
  }

  function RemovedAt(l: seq<nat>, k: nat): seq<nat>
    requires k < |l|
  {
    l[..k] + l[k + 1..]
  }

  lemma PlacesAre(l: seq<nat>, k: nat, e: nat)
    requires k <= |l|
    ensures InsertedAt(l, k, e) == l[..k] + [e] + l[k..]
    ensures k < |l| ==> RemovedAt(l, k) == l[..k] + l[k + 1..]
  {
  }

  /** The elements of other queues keep their links. */
  ghost predicate OthersKept(links: seq<Link>, links2: seq<Link>, l: seq<nat>) {
    |links2| == |links| && forall x :: 0 <= x < |links| && x !in l ==> links2[x] == links[x]
  }

  /** The memory with `e` linked in between `p` and `n`, either of which may be null. */
  ghost function Spliced(links: seq<Link>, p: int, e: nat, n: int): seq<Link>
    requires e < |links|
  {
    var a := if 0 <= p < |links| then links[p := links[p].(next := e)] else links;
    var b := if 0 <= n < |links| then a[n := a[n].(prev := e)] else a;
    b[e := Link(n, p)]
  }

  /** The memory with `p` and `n` linked to each other. */
  ghost function Bridged(links: seq<Link>, p: int, n: int): seq<Link> {
    var a := if 0 <= n < |links| then links[n := links[n].(prev := p)] else links;
    if 0 <= p < |links| then a[p := a[p].(next := n)] else a
  }

  lemma SplicedAt(links: seq<Link>, p: int, e: nat, n: int, x: nat)
    requires e < |links| && x < |links|
    ensures |Spliced(links, p, e, n)| == |links|
    ensures Spliced(links, p, e, n)[x] ==
            if x == e then Link(n, p) else Link(if x == p then e else links[x].next, if x == n then e
                else links[x].prev)
  {
  }

  lemma BridgedAt(links: seq<Link>, p: int, n: int, x: nat)
    requires x < |links|
    ensures |Bridged(links, p, n)| == |links|
    ensures Bridged(links, p, n)[x] == Link(if x == p then n else links[x].next, if x == n then p else links[x].prev)
  {
  }

  ghost function At(l: seq<nat>, k: int): int {
    if 0 <= k < |l| then l[k] else -1
  }

  lemma QueueAt(links: seq<Link>, l: seq<nat>, head: Head, j: nat)
    requires Queue(links, l, head) && j < |l|
    ensures LinkOk(links, l, j)
  {
  }

  /** No other place holds the same element. */
  lemma OnlyAt(l: seq<nat>, i: nat, k: int)
    requires Distinct(l) && i < |l|
    ensures l[i] == At(l, k) <==> i == k
  {
  }

  lemma InsertedAtIs(l: seq<nat>, k: nat, e: nat, j: nat)
    requires k <= |l| && j <= |l|
    ensures var r := InsertedAt(l, k, e);
      && |r| == |l| + 1
      && r[j] == (if j < k then l[j] else if j == k then e else l[j - 1])
      && After(r, j) == (if j + 1 == k then e else if j == k then At(l, k) else if j < k then After(l, j)
          else After(l, j - 1))
      && Before(r, j) == (if j == k then At(l, k - 1) else if j == k + 1 then e else if j < k then Before(l, j)
          else Before(l, j - 1))
  {
  }

  lemma InsertedOne(links: seq<Link>, l: seq<nat>, head: Head, k: nat, e: nat, j: nat)
    requires Queue(links, l, head) && k <= |l| && e < |links| && e !in l && j <= |l|
    ensures |InsertedAt(l, k, e)| == |l| + 1 && LinkOk(Spliced(links, At(l, k - 1), e, At(l, k)),
        InsertedAt(l, k, e), j)
  {
    assert Distinct(l);
    hide Queue, Distinct, Spliced, InsertedAt, At, After, Before;
    SplicedAt(links, At(l, k - 1), e, At(l, k), e);
    InsertedAtIs(l, k, e, j);
    if j != k {
      var i := if j < k then j else j - 1;
      QueueAt(links, l, head, i);
      SplicedAt(links, At(l, k - 1), e, At(l, k), l[i]);
      OnlyAt(l, i, k - 1);
      OnlyAt(l, i, k);
    }
  }

  lemma InsertedDistinct(l: seq<nat>, k: nat, e: nat)
    requires Distinct(l) && k <= |l| && e !in l
    ensures Distinct(InsertedAt(l, k, e))
  {
    var r := InsertedAt(l, k, e);
    assert forall x :: 0 <= x < |l| ==> l[x] in l;
    assert forall j :: 0 <= j < |r| ==> r[j] == if j < k then l[j] else if j == k then e else l[j - 1];
  }

  lemma SplicedQueue(links: seq<Link>, l: seq<nat>, head: Head, k: nat, e: nat)
    requires Queue(links, l, head) && k <= |l| && e < |links| && e !in l
    ensures var links2, r := Spliced(links, At(l, k - 1), e, At(l, k)), InsertedAt(l, k, e);
      && Queue(links2, r, Head(if k == 0 then e else head.first, if k == |l| then e else head.last))
      && OthersKept(links, links2, r)
  {
    hide Spliced, LinkOk, InsertedAt, At, Distinct;
    var links2, r := Spliced(links, At(l, k - 1), e, At(l, k)), InsertedAt(l, k, e);
    InsertedAtIs(l, k, e, 0);
    forall j | 0 <= j < |r| ensures LinkOk(links2, r, j) {
      InsertedOne(links, l, head, k, e, j);
    }
    InsertedDistinct(l, k, e);
    InsertedKeepsOthers(links, l, k, e);
    InsertedEnds(l, k, e);
  }

  lemma InsertedEnds(l: seq<nat>, k: nat, e: nat)
    requires k <= |l|
    ensures Ends(InsertedAt(l, k, e)) == Head(if k == 0 then e else Ends(l).first, if k == |l| then e else Ends(l).last)
  {
  }

  lemma InsertedKeepsOthers(links: seq<Link>, l: seq<nat>, k: nat, e: nat)
    requires k <= |l| && e < |links|
    ensures OthersKept(links, Spliced(links, At(l, k - 1), e, At(l, k)), InsertedAt(l, k, e))
  {
    var r := InsertedAt(l, k, e);
    assert r[k] == e && (k > 0 ==> r[k - 1] == l[k - 1]) && (k < |l| ==> r[k + 1] == l[k]);
  }

  lemma RemovedAtIs(l: seq<nat>, k: nat, j: nat)
    requires k < |l| && j < |l| - 1
    ensures var r := RemovedAt(l, k);
      && |r| == |l| - 1
      && r[j] == (if j < k then l[j] else l[j + 1])
      && After(r, j) == (if j + 1 == k then At(l, k + 1) else if j < k then After(l, j) else After(l, j + 1))
      && Before(r, j) == (if j == k then At(l, k - 1) else if j < k then Before(l, j) else Before(l, j + 1))
  {
  }

  lemma RemovedOne(links: seq<Link>, l: seq<nat>, head: Head, k: nat, j: nat)
    requires Queue(links, l, head) && k < |l| && j < |l| - 1
    ensures |RemovedAt(l, k)| == |l| - 1 && LinkOk(Bridged(links, At(l, k - 1), At(l, k + 1)), RemovedAt(l, k), j)
  {
    assert Distinct(l);
    hide Queue, Distinct, Bridged, RemovedAt, At, After, Before;
    RemovedAtIs(l, k, j);
    var i := if j < k then j else j + 1;
    QueueAt(links, l, head, i);
    BridgedAt(links, At(l, k - 1), At(l, k + 1), l[i]);
    OnlyAt(l, i, k - 1);
    OnlyAt(l, i, k + 1);
  }

  lemma RemovedEnds(l: seq<nat>, k: nat)
    requires k < |l| && Distinct(l)
    ensures Distinct(RemovedAt(l, k))
    ensures Ends(RemovedAt(l, k)) == Head(if k == 0 then At(l, 1) else l[0], if k == |l| - 1 then At(l, k - 1)
        else l[|l| - 1])
  {
  }

  lemma BridgedQueue(links: seq<Link>, l: seq<nat>, head: Head, k: nat)
    requires Queue(links, l, head) && k < |l|
    ensures var links2, r := Bridged(links, At(l, k - 1), At(l, k + 1)), RemovedAt(l, k);
      && Queue(links2, r, Head(if k == 0 then At(l, 1) else head.first, if k == |l| - 1 then At(l, k - 1)
          else head.last))
      && OthersKept(links, links2, l)
  {
    hide Bridged, LinkOk, RemovedAt, At, Distinct;
    var links2, r := Bridged(links, At(l, k - 1), At(l, k + 1)), RemovedAt(l, k);
    RemovedEnds(l, k);
    forall j | 0 <= j < |r| ensures LinkOk(links2, r, j) {
      LengthRemoved(l, k);
      RemovedOne(links, l, head, k, j);
    }
    RemovedKeepsOthers(links, l, k);
  }

  lemma LengthRemoved(l: seq<nat>, k: nat)
    requires k < |l|
    ensures |RemovedAt(l, k)| == |l| - 1
  {
  }

  lemma RemovedKeepsOthers(links: seq<Link>, l: seq<nat>, k: nat)
    requires k < |l|
    ensures OthersKept(links, Bridged(links, At(l, k - 1), At(l, k + 1)), l)
  {
  }

  /** The neighbours of place `k`. */
  lemma Around(links: seq<Link>, l: seq<nat>, head: Head, k: nat)
    requires Queue(links, l, head) && k < |l|
    ensures l[k] < |links| && links[l[k]] == Link(At(l, k + 1), At(l, k - 1))
    ensures -1 <= At(l, k + 1) < |links| && At(l, k + 1) != l[k]
    ensures -1 <= At(l, k - 1) < |links| && At(l, k - 1) != l[k]
    ensures At(l, k - 1) == At(l, k + 1) ==> At(l, k + 1) == -1
    ensures head.first == l[0] && head.last == l[|l| - 1]
  {
    QueueAt(links, l, head, k);
    if k > 0 { QueueAt(links, l, head, k - 1); }
    if k + 1 < |l| { QueueAt(links, l, head, k + 1); }
  }

  lemma NoneAround(links: seq<Link>, head: Head)
    requires Queue(links, [], head)
    ensures head == Head(-1, -1)
  {
  }

  /** The cells' link fields, shared by all the queues they may be in. */
  class Memory {
    var links: seq<Link>

    constructor (n: nat)
      ensures |links| == n
    {
      links := seq(n, _ => Link(-1, -1));
    }
  }

  class TailQueue {
    const mem: Memory
    var head: Head
    ghost var list: seq<nat>

    ghost predicate Valid()
      reads this, mem
    {
      Queue(mem.links, list, head)
    }

    /** TAILQ_INIT. */
    constructor (mem: Memory)
      ensures this.mem == mem && Valid() && list == []
    {
      this.mem, head, list := mem, Head(-1, -1), [];
    }

    /**
     The copy of a head by hand, and TAILQ_INIT of the original.  The first element's `prev` still names the original
     head, so the copy is no queue to remove from; but its elements are all there, in order, from the copied `first`.
     */
    method CopyOut() returns (taken: Head)
      requires Valid()
      modifies this
      ensures Valid() && list == [] && taken == old(head) && Forward(mem.links, old(list), taken.first)
    {
      QueueIsForward(mem.links, list, head);
      taken := head;
      head, list := Head(-1, -1), [];
    }

    /** Stores through the address of a `next` field. */
    method StoreNext(address: int, e: int)
      requires -1 <= address < |mem.links|
      modifies `head, mem
      ensures address == -1 ==> head == old(head).(first := e) && mem.links == old(mem.links)
      ensures address != -1 ==>
          head == old(head) && mem.links == old(mem.links)[address := old(mem.links)[address].(next := e)]
    {
      if address == -1 {
        head := head.(first := e);
      } else {
        mem.links := mem.links[address := mem.links[address].(next := e)];
      }
    }

    method SetPrev(e: nat, address: int)
      requires e < |mem.links|
      modifies mem
      ensures mem.links == old(mem.links)[e := old(mem.links)[e].(prev := address)]
    {
      mem.links := mem.links[e := mem.links[e].(prev := address)];
    }

    method SetNext(e: nat, next: int)
      requires e < |mem.links|
      modifies mem
      ensures mem.links == old(mem.links)[e := old(mem.links)[e].(next := next)]
    {
      mem.links := mem.links[e := mem.links[e].(next := next)];
    }

    method InsertHead(e: nat)
      requires Valid() && e < |mem.links| && e !in list
      modifies this, mem
      ensures Valid() && list == [e] + old(list) && OthersKept(old(mem.links), mem.links, list)
    {
      hide Queue, InsertedAt, OthersKept;
      ghost var links := mem.links;
      if list == [] { NoneAround(links, head); } else { Around(links, list, head, 0); }
      SplicedQueue(links, list, head, 0, e);
      SetNext(e, head.first);
      if mem.links[e].next != -1 {
        SetPrev(head.first, e);
      } else {
        head := head.(last := e);
      }
      head := head.(first := e);
      SetPrev(e, -1);
      assert mem.links == Spliced(links, -1, e, At(list, 0));
      AtFront(list, e);
      list := [e] + list;
    }

    method InsertTail(e: nat)
      requires Valid() && e < |mem.links| && e !in list
      modifies this, mem
      ensures Valid() && list == old(list) + [e] && OthersKept(old(mem.links), mem.links, list)
    {
      hide Queue, InsertedAt, OthersKept;
      ghost var links := mem.links;
      if list == [] { NoneAround(links, head); } else { Around(links, list, head, |list| - 1); }
      SplicedQueue(links, list, head, |list|, e);
      SetNext(e, -1);
      SetPrev(e, head.last);
      StoreNext(head.last, e);
      head := head.(last := e);
      assert mem.links == Spliced(links, At(list, |list| - 1), e, -1);
      AtBack(list, e);
      list := list + [e];
    }

    /** Links `e` in before the element `at`, which stands at place `k`. */
    method InsertBefore(at: nat, e: nat, ghost k: nat)
      requires Valid() && e < |mem.links| && e !in list && k < |list| && list[k] == at
      modifies this, mem
      ensures Valid() && list == InsertedAt(old(list), k, e) && OthersKept(old(mem.links), mem.links, list)
      ensures list == old(list)[..k] + [e] + old(list)[k..]
    {
      hide Queue, InsertedAt, OthersKept;
      ghost var links := mem.links;
      Around(links, list, head, k);
      NotAmong(list, e, k);
      SplicedQueue(links, list, head, k, e);
      SetPrev(e, mem.links[at].prev);
      SetNext(e, at);
      StoreNext(mem.links[at].prev, e);
      SetPrev(at, e);
      assert mem.links == Spliced(links, At(list, k - 1), e, at);
      PlacesAre(list, k, e);
      list := InsertedAt(list, k, e);
    }

    /** Links `e` in behind the element `at`, which stands at place `k`. */
    method InsertAfter(at: nat, e: nat, ghost k: nat)
      requires Valid() && e < |mem.links| && e !in list && k < |list| && list[k] == at
      modifies this, mem
      ensures Valid() && list == InsertedAt(old(list), k + 1, e) && OthersKept(old(mem.links), mem.links, list)
      ensures list == old(list)[..k + 1] + [e] + old(list)[k + 1..]
    {
      hide Queue, InsertedAt, OthersKept;
      ghost var links := mem.links;
      Around(links, list, head, k);
      NotAmong(list, e, k);
      SplicedQueue(links, list, head, k + 1, e);
      SetNext(e, mem.links[at].next);
      if mem.links[e].next != -1 {
        SetPrev(mem.links[e].next, e);
      } else {
        head := head.(last := e);
      }
      SetNext(at, e);
      SetPrev(e, at);
      assert mem.links == Spliced(links, at, e, At(list, k + 1));
      PlacesAre(list, k + 1, e);
      list := InsertedAt(list, k + 1, e);
    }

    /** Unlinks the element `e`, which stands at place `k`. */
    method Remove(e: nat, ghost k: nat)
      requires Valid() && k < |list| && list[k] == e
      modifies this, mem
      ensures Valid() && list == RemovedAt(old(list), k) && OthersKept(old(mem.links), mem.links, old(list))
      ensures list == old(list)[..k] + old(list)[k + 1..]
    {
      hide Queue, RemovedAt, OthersKept;
      ghost var links := mem.links;
      Around(links, list, head, k);
      BridgedQueue(links, list, head, k);
      if mem.links[e].next != -1 {
        SetPrev(mem.links[e].next, mem.links[e].prev);
      } else {
        head := head.(last := mem.links[e].prev);
      }
      StoreNext(mem.links[e].prev, mem.links[e].next);
      assert mem.links == Bridged(links, At(list, k - 1), At(list, k + 1));
      PlacesAre(list, k, e);
      list := RemovedAt(list, k);
    }
  }

  lemma AtFront(l: seq<nat>, e: nat)
    ensures InsertedAt(l, 0, e) == [e] + l
  {
  }

  lemma AtBack(l: seq<nat>, e: nat)
    ensures InsertedAt(l, |l|, e) == l + [e]
  {
  }

  lemma NotAmong(l: seq<nat>, e: nat, k: nat)
    requires e !in l && k < |l|
    ensures e != l[k] && At(l, k - 1) != e && At(l, k + 1) != e
  {
  }

  /** Following `next` from `first` visits `l`. */
  ghost predicate Forward(links: seq<Link>, l: seq<nat>, first: int) {
    && first == At(l, 0) && Distinct(l)
    && forall j :: 0 <= j < |l| ==> l[j] < |links| && links[l[j]].next == After(l, j)
  }

  lemma QueueIsForward(links: seq<Link>, l: seq<nat>, head: Head)
    requires Queue(links, l, head)
    ensures Forward(links, l, head.first)
  {
    forall j | 0 <= j < |l| ensures l[j] < |links| && links[l[j]].next == After(l, j) {
      assert LinkOk(links, l, j);
    }
  }

  /** Whatever is done meanwhile to queues of other elements, the rest of a copied queue can still be followed. */
  lemma ForwardStays(links: seq<Link>, links2: seq<Link>, l: seq<nat>, first: int, others: seq<nat>)
    requires Forward(links, l, first) && OthersKept(links, links2, others) && forall x :: x in l ==> x !in others
    ensures Forward(links2, l, first)
  {
    assert forall j :: 0 <= j < |l| ==> l[j] in l;
  }

  lemma ForwardOne(links: seq<Link>, l: seq<nat>, first: int)
    requires Forward(links, l, first)
    ensures l == [] ==> first == -1
    ensures l != [] ==>
        0 <= first < |links| && first == l[0] && first !in l[1..] && Forward(links, l[1..], links[first].next)
  {
    if l != [] {
      assert links[l[0]].next == After(l, 0);
      forall j | 0 <= j < |l| - 1 ensures l[1..][j] < |links| && links[l[1..][j]].next == After(l[1..], j) {
        assert l[1..][j] == l[j + 1] && links[l[j + 1]].next == After(l, j + 1);
      }
    }
  }

  /**
   Walks a copied queue, each `next` read before its element goes to the end of another queue, as the working queue's
   cells go to the free queue: every element is met once, in order.
   */
  method Drain(first: int, free: TailQueue, ghost l: seq<nat>)
    requires free.Valid() && Forward(free.mem.links, l, first) && forall x :: x in l ==> x !in free.list
    modifies free, free.mem
    ensures free.Valid() && free.list == old(free.list) + l
  {
    hide Forward, Queue;
    var n1 := first;
    ghost var rest: seq<nat> := l;
    ForwardOne(free.mem.links, rest, n1);
    while n1 != -1
      invariant free.Valid() && Forward(free.mem.links, rest, n1) && free.list + rest == old(free.list) + l
      invariant forall x :: x in rest ==> x !in free.list
      invariant n1 == -1 <==> rest == []
      decreases |rest|
    {
      ForwardOne(free.mem.links, rest, n1);
      var n2 := free.mem.links[n1].next;
      ghost var links := free.mem.links;
      assert rest == [rest[0]] + rest[1..];
      free.InsertTail(n1);
      rest := rest[1..];
      ForwardStays(links, free.mem.links, rest, n2, free.list);
      n1 := n2;
      ForwardOne(free.mem.links, rest, n1);
    }
  }

  /** What is done to one queue leaves a queue with other elements as it was. */
  lemma OtherQueueStays(links: seq<Link>, links2: seq<Link>, l: seq<nat>, m: seq<nat>, head: Head)
    requires Queue(links, m, head) && OthersKept(links, links2, l) && forall x :: x in m ==> x !in l
    ensures Queue(links2, m, head)
  {
    forall j | 0 <= j < |m| ensures LinkOk(links2, m, j) {
      assert LinkOk(links, m, j) && m[j] in m;
    }
  }
}
