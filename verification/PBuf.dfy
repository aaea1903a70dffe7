/**
 Chains of buffers: buffers handed out from a free list and linked into singly linked tail
 queues, written to at the end.  A pointer to a buffer is its index in `bufs`, -1 is null; a
 queue's `last` names the buffer whose link is written next, -1 the head's own.
 */
module PBufs {
  import opened Links

  datatype Buf = Buf(data: seq<bv8>, size: nat, rOffset: nat, length: nat, next: int)

  datatype Head = Head(first: int, last: int)

  // ---------------------------------------------------------- specification

  ghost predicate Sound(b: Buf) {
    |b.data| == b.size && b.rOffset + b.length <= b.size && b.size > 0
  }

  ghost predicate AllSound(bufs: seq<Buf>) {
    forall e :: 0 <= e < |bufs| ==> Sound(bufs[e])
  }

  /** The links from the head run through `l`, and `last` is where the next one goes. */
  ghost predicate Queue(bufs: seq<Buf>, l: seq<nat>, head: Head) {
    && head.first == (if l == [] then -1 else l[0])
    && head.last == (if l == [] then -1 else l[|l| - 1])
    && Distinct(l)
    && forall j :: 0 <= j < |l| ==> l[j] < |bufs| && bufs[l[j]].next == After(l, j)
  }

  ghost function Payload(b: Buf): seq<bv8>
    requires Sound(b)
  {
    b.data[b.rOffset..b.rOffset + b.length]
  }

  /** The bytes waiting in a chain, buffer after buffer. */
  ghost function Contents(bufs: seq<Buf>, l: seq<nat>): seq<bv8>
    requires AllSound(bufs) && forall j :: 0 <= j < |l| ==> l[j] < |bufs|
  {
    if l == [] then [] else Contents(bufs, l[..|l| - 1]) + Payload(bufs[l[|l| - 1]])
  }

  /** The contents of a chain are, buffer after buffer, the bytes from its read offset on. */
  lemma ContentsAre(bufs: seq<Buf>, l: seq<nat>, e: nat)
    requires AllSound(bufs) && (forall j :: 0 <= j < |l| ==> l[j] < |bufs|) && e < |bufs|
    ensures Contents(bufs, []) == []
    ensures bufs[e].rOffset + bufs[e].length <= |bufs[e].data|
    ensures Contents(bufs, l + [e]) ==
      Contents(bufs, l) + bufs[e].data[bufs[e].rOffset..bufs[e].rOffset + bufs[e].length]
  {
    assert (l + [e])[..|l|] == l && Sound(bufs[e]);
  }

  /** Links apart, the buffers in `l` are the same. */
  ghost predicate SameIn(b1: seq<Buf>, b2: seq<Buf>, l: seq<nat>) {
    forall j :: 0 <= j < |l| ==> l[j] < |b1| && l[j] < |b2| && b2[l[j]].(next := 0) == b1[l[j]].(next := 0)
  }

  lemma {:induction false} ContentsSame(b1: seq<Buf>, b2: seq<Buf>, l: seq<nat>)
    requires AllSound(b1) && AllSound(b2) && SameIn(b1, b2, l)
    ensures forall j :: 0 <= j < |l| ==> l[j] < |b1| && l[j] < |b2|
    ensures Contents(b2, l) == Contents(b1, l)
  {
    if l != [] {
      var n := |l| - 1;
      ContentsSame(b1, b2, l[..n]);
      assert b2[l[n]].(next := 0) == b1[l[n]].(next := 0);
      assert Payload(b2[l[n]]) == Payload(b2[l[n]].(next := 0));
      assert Payload(b1[l[n]]) == Payload(b1[l[n]].(next := 0));
    }
  }

  // --------------------------------------------------------- tail queue macros

  /** STAILQ_INSERT_TAIL: the links after putting `e` behind the others. */
  ghost function Linked(bufs: seq<Buf>, head: Head, e: nat): seq<Buf>
    requires e < |bufs|
  {
    var b := bufs[e := bufs[e].(next := -1)];
    if 0 <= head.last < |b| then b[head.last := b[head.last].(next := e)] else b
  }

  lemma LinkedQueue(bufs: seq<Buf>, l: seq<nat>, head: Head, e: nat)
    requires Queue(bufs, l, head) && e < |bufs| && e !in l
    ensures Queue(Linked(bufs, head, e), l + [e], Head(if head.last == -1 then e else head.first, e))
  {
    var r, b := l + [e], Linked(bufs, head, e);
    forall j | 0 <= j < |r| ensures r[j] < |b| && b[r[j]].next == After(r, j) {
      if j < |l| {
        assert r[j] == l[j] && l[j] != e;
        assert bufs[l[j]].next == After(l, j);
      }
    }
  }

  lemma LinkedElsewhere(bufs: seq<Buf>, l: seq<nat>, head: Head, e: nat, m: seq<nat>, h: Head)
    requires Queue(bufs, l, head) && Queue(bufs, m, h) && e < |bufs| && e !in m && forall x :: x in l ==> x !in m
    ensures Queue(Linked(bufs, head, e), m, h)
  {
    var b := Linked(bufs, head, e);
    forall j | 0 <= j < |m| ensures m[j] < |b| && b[m[j]].next == After(m, j) {
      assert m[j] in m;
      assert l != [] ==> l[|l| - 1] in l;
      assert bufs[m[j]].next == After(m, j);
    }
  }

  lemma LinkedSame(bufs: seq<Buf>, head: Head, e: nat)
    requires e < |bufs|
    ensures |Linked(bufs, head, e)| == |bufs|
    ensures forall x :: 0 <= x < |bufs| ==> Linked(bufs, head, e)[x].(next := 0) == bufs[x].(next := 0)
    ensures AllSound(bufs) ==> AllSound(Linked(bufs, head, e))
  {
    var b := Linked(bufs, head, e);
    forall x | 0 <= x < |bufs| ensures b[x].(next := 0) == bufs[x].(next := 0) && (AllSound(bufs) ==> Sound(b[x])) {
      assert AllSound(bufs) ==> Sound(bufs[x]);
    }
  }

  /** STAILQ_REMOVE_HEAD. */
  lemma HeadRemoved(bufs: seq<Buf>, l: seq<nat>, head: Head)
    requires Queue(bufs, l, head) && l != []
    ensures 0 <= head.first < |bufs|
    ensures var first := bufs[head.first].next; Queue(bufs, l[1..], Head(first, if first == -1 then -1 else head.last))
  {
    var r := l[1..];
    assert bufs[l[0]].next == After(l, 0);
    forall j | 0 <= j < |r| ensures r[j] < |bufs| && bufs[r[j]].next == After(r, j) {
      assert r[j] == l[j + 1] && bufs[l[j + 1]].next == After(l, j + 1);
    }
  }

  /** A queue does not mind more memory, or data written to its buffers. */
  lemma QueueStays(b1: seq<Buf>, b2: seq<Buf>, l: seq<nat>, head: Head)
    requires Queue(b1, l, head) && forall j :: 0 <= j < |l| ==>
        l[j] < |b2| && (l[j] < |b1| ==> b2[l[j]].next == b1[l[j]].next)
    ensures Queue(b2, l, head)
  {
  }

  // ---------------------------------------------------------------- writing

  function Min(a: nat, b: nat): nat { if a < b then a else b }

  function RoomIn(b: Buf): nat
    requires b.rOffset + b.length <= b.size
  {
    b.size - (b.length + b.rOffset)
  }

  /** The buffer with the bytes copied behind its data. */
  function Filled(b: Buf, bytes: seq<bv8>): Buf
    requires |b.data| == b.size && b.rOffset + b.length + |bytes| <= b.size
  {
    var at := b.length + b.rOffset;
    b.(data := b.data[..at] + bytes + b.data[at + |bytes|..], length := b.length + |bytes|)
  }

  lemma FilledPayload(b: Buf, bytes: seq<bv8>)
    requires Sound(b) && b.rOffset + b.length + |bytes| <= b.size
    ensures Sound(Filled(b, bytes)) && Payload(Filled(b, bytes)) == Payload(b) + bytes
  {
  }

  /** Writing to the last buffer appends to the chain. */
  lemma LastFilled(bufs: seq<Buf>, l: seq<nat>, bytes: seq<bv8>)
    requires AllSound(bufs) && Distinct(l) && l != [] && forall j :: 0 <= j < |l| ==> l[j] < |bufs|
    requires var b := bufs[l[|l| - 1]]; b.rOffset + b.length + |bytes| <= b.size
    ensures var e := l[|l| - 1]; var b2 := bufs[e := Filled(bufs[e], bytes)];
      AllSound(b2) && Contents(b2, l) == Contents(bufs, l) + bytes
  {
    var n := |l| - 1;
    var e := l[n];
    var b2 := bufs[e := Filled(bufs[e], bytes)];
    FilledPayload(bufs[e], bytes);
    assert AllSound(b2);
    ContentsSame(bufs, b2, l[..n]);
    assert Contents(b2, l) == Contents(b2, l[..n]) + Payload(b2[e]);
  }

  lemma EmptyLast(bufs: seq<Buf>, l: seq<nat>, e: nat)
    requires AllSound(bufs) && (forall j :: 0 <= j < |l| ==> l[j] < |bufs|) && e < |bufs| && bufs[e].length == 0
    ensures Contents(bufs, l + [e]) == Contents(bufs, l)
  {
    assert (l + [e])[..|l|] == l;
  }

  // ------------------------------------------------------------ the context

  class Chain {
    var head: Head
    ghost var list: seq<nat>

    constructor ()
      ensures head == Head(-1, -1) && list == []
    {
      head, list := Head(-1, -1), [];
    }
  }

  ghost predicate Apart(l: seq<nat>, m: seq<nat>) {
    forall x :: x in l ==> x !in m
  }

  /** Buffers that belong neither to the chain nor to the free list are left alone. */
  ghost predicate OthersKept(b1: seq<Buf>, b2: seq<Buf>, l: seq<nat>, m: seq<nat>) {
    |b1| <= |b2| && forall e :: 0 <= e < |b1| && e !in l && e !in m ==> b2[e] == b1[e]
  }

  class Context {
    const bufSize: nat
    var bufs: seq<Buf>
    var freeList: Head
    ghost var free: seq<nat>

    ghost predicate Valid()
      reads this
    {
      bufSize > 0 && AllSound(bufs) && Queue(bufs, free, freeList)
    }

    /** The chain is well formed, and none of its buffers is free. */
    ghost predicate Holds(chain: Chain)
      reads this, chain
    {
      Valid() && Queue(bufs, chain.list, chain.head) && Apart(chain.list, free)
    }

    constructor (size: nat)
      requires size > 0
      ensures Valid() && bufSize == size && free == []
    {
      bufSize, bufs, freeList, free := size, [], Head(-1, -1), [];
    }

    /** An empty buffer: the first free one, or a new one. */
    method Alloc() returns (b: nat)
      requires Valid()
      modifies this
      ensures Valid() && b < |bufs| && bufs[b].length == 0 && bufs[b].rOffset == 0
      ensures if old(free) == [] then b == |old(bufs)| && free == [] else b == old(free)[0] && free == old(free)[1..]
      ensures b !in free && |old(bufs)| <= |bufs|
      ensures forall e :: 0 <= e < |old(bufs)| && e != b ==> bufs[e] == old(bufs)[e]
    {
      if freeList.first != -1 {
        HeadRemoved(bufs, free, freeList);
        b := freeList.first;
        var first := bufs[b].next;
        freeList := Head(first, if first == -1 then -1 else freeList.last);
        free := free[1..];
      } else {
        b := |bufs|;
        bufs := bufs + [Buf(seq(bufSize, _ => 0), bufSize, 0, 0, -1)];
      }
      bufs := bufs[b := bufs[b].(rOffset := 0, length := 0)];
      QueueStays(old(bufs), bufs, free, freeList);
    }

    /** STAILQ_INSERT_TAIL on a chain. */
    method InsertTail(chain: Chain, b: nat)
      requires Holds(chain) && b < |bufs| && b !in chain.list && b !in free
      modifies `bufs, chain
      ensures Holds(chain) && chain.list == old(chain.list) + [b]
      ensures |bufs| == |old(bufs)| && forall e :: 0 <= e < |bufs| ==> bufs[e].(next := 0) == old(bufs)[e].(next := 0)
      ensures forall e :: 0 <= e < |bufs| && e != b && e !in old(chain.list) ==> bufs[e] == old(bufs)[e]
    {
      LinkedQueue(bufs, chain.list, chain.head, b);
      LinkedElsewhere(bufs, chain.list, chain.head, b, free, freeList);
      LinkedSame(bufs, chain.head, b);
      LinkedNear(bufs, chain.list, chain.head, b);
      ghost var linked := Linked(bufs, chain.head, b);
      bufs := bufs[b := bufs[b].(next := -1)];
      if chain.head.last == -1 {
        chain.head := Head(b, b);
      } else {
        bufs := bufs[chain.head.last := bufs[chain.head.last].(next := b)];
        chain.head := chain.head.(last := b);
      }
      assert bufs == linked;
      chain.list := chain.list + [b];
    }

    /** Takes an empty buffer onto the end of the chain. */
    method Extend(chain: Chain) returns (b: nat)
      requires Holds(chain)
      modifies this, chain
      ensures Holds(chain) && chain.list == old(chain.list) + [b] && b < |bufs| && RoomIn(bufs[b]) > 0
      ensures ContentsOf(bufs, chain.list) == old(ContentsOf(bufs, chain.list))
      ensures |old(bufs)| <= |bufs| && (b in old(free) || b >= |old(bufs)|) && forall x :: x in free ==> x in old(free)
      ensures forall e :: 0 <= e < |old(bufs)| && e != b && e !in old(chain.list) ==> bufs[e] == old(bufs)[e]
    {
      hide Queue, Sound, Contents;
      QueueInRange(bufs, chain.list, chain.head);
      QueueInRange(bufs, free, freeList);
      ghost var b0, l := bufs, chain.list;
      b := Alloc();
      assert forall j :: 0 <= j < |l| ==> l[j] in l && l[j] != b;
      QueueStays(b0, bufs, l, chain.head);
      ghost var b1 := bufs;
      SoundAt(b1, b);
      InsertTail(chain, b);
      SoundAt(bufs, b);
      assert bufs[b].(next := 0) == b1[b].(next := 0);
      EmptyLast(bufs, l, b);
      ContentsSame(b0, bufs, l);
    }

    /** Copies as much as fits behind the data of the last buffer. */
    method Fill(chain: Chain, b: nat, bytes: seq<bv8>) returns (n: nat)
      requires Holds(chain) && chain.list != [] && b == chain.list[|chain.list| - 1]
      modifies `bufs
      ensures Holds(chain) && b < |bufs| == |old(bufs)| && n <= |bytes|
      ensures bytes != [] && RoomIn(old(bufs)[b]) > 0 ==> n > 0
      ensures n == |bytes| || bufs[b].rOffset + bufs[b].length == bufs[b].size
      ensures ContentsOf(bufs, chain.list) == old(ContentsOf(bufs, chain.list)) + bytes[..n]
      ensures forall e :: 0 <= e < |bufs| && e != b ==> bufs[e] == old(bufs)[e]
    {
      hide Queue, Contents;
      QueueInRange(bufs, chain.list, chain.head);
      QueueInRange(bufs, free, freeList);
      SoundAt(bufs, b);
      n := Min(|bytes|, RoomIn(bufs[b]));
      ghost var was := bufs;
      LastFilled(bufs, chain.list, bytes[..n]);
      bufs := bufs[b := Filled(bufs[b], bytes[..n])];
      QueueStays(was, bufs, chain.list, chain.head);
      QueueStays(was, bufs, free, freeList);
    }

    /** Writes the bytes to the end of the chain, into its last buffer and then into new ones. */
    method WriteToChain(chain: Chain, data: seq<bv8>)
      requires Holds(chain)
      modifies this, chain
      ensures Holds(chain) && ContentsOf(bufs, chain.list) == old(ContentsOf(bufs, chain.list)) + data
      ensures old(chain.list) <= chain.list && OthersKept(old(bufs), bufs, old(chain.list), old(free))
      ensures forall x :: x in chain.list && x !in old(chain.list) ==> x in old(free) || x >= |old(bufs)|
      ensures forall x :: x in free ==> x in old(free)
    {
      hide Queue, AllSound, ContentsOf;
      LastOf(bufs, chain.list, chain.head);
      var buf := chain.head.last;
      var rest := data;
      ghost var written := [];
      while |rest| > 0
        invariant Holds(chain) && data == written + rest
        invariant ContentsOf(bufs, chain.list) == old(ContentsOf(bufs, chain.list)) + written
        invariant buf != -1 ==> chain.list != [] && buf == chain.list[|chain.list| - 1]
        invariant old(chain.list) <= chain.list && OthersKept(old(bufs), bufs, old(chain.list), old(free))
        invariant forall x :: x in chain.list && x !in old(chain.list) ==> x in old(free) || x >= |old(bufs)|
        invariant forall x :: x in free ==> x in old(free)
        decreases |rest|, buf != -1
      {
        if buf == -1 {
          buf := Extend(chain);
        }
        var n := Fill(chain, buf, rest);
        written, rest := written + rest[..n], rest[n..];
        buf := -1;
      }
    }

    /** Puts a buffer behind the free ones. */
    method Free(b: nat)
      requires Valid() && b < |bufs| && b !in free
      modifies this
      ensures Valid() && free == old(free) + [b]
      ensures |bufs| == |old(bufs)| && forall e :: 0 <= e < |bufs| && e != b && e !in old(free) ==>
          bufs[e] == old(bufs)[e]
    {
      LinkedQueue(bufs, free, freeList, b);
      LinkedSame(bufs, freeList, b);
      LinkedNear(bufs, free, freeList, b);
      ghost var linked := Linked(bufs, freeList, b);
      bufs := bufs[b := bufs[b].(next := -1)];
      if freeList.last == -1 {
        freeList := Head(b, b);
      } else {
        bufs := bufs[freeList.last := bufs[freeList.last].(next := b)];
        freeList := freeList.(last := b);
      }
      assert bufs == linked;
      free := free + [b];
    }

    /** Frees a chain's buffers one by one, each link read before its buffer goes; the head itself is not reset. */
    method FreeChain(chain: Chain)
      requires Holds(chain)
      modifies this
      ensures Valid() && free == old(free) + chain.list
      ensures OthersKept(old(bufs), bufs, chain.list, old(free)) && |bufs| == |old(bufs)|
    {
      hide Queue, AllSound, Distinct;
      ghost var l, n: nat := chain.list, 0;
      QueueInRange(bufs, l, chain.head);
      QueueInRange(bufs, free, freeList);
      FirstOf(bufs, l, chain.head);
      var n1 := chain.head.first;
      while n1 != -1
        invariant n <= |l| && n1 == (if n < |l| then l[n] else -1)
        invariant Valid() && free == old(free) + l[..n] && |bufs| == |old(bufs)|
        invariant OthersKept(old(bufs), bufs, l, old(free))
        invariant forall j :: n <= j < |l| ==> bufs[l[j]] == old(bufs)[l[j]]
        decreases |l| - n
      {
        NextOf(old(bufs), l, chain.head, n);
        var n2 := bufs[n1].next;
        Free(n1);
        n1, n := n2, n + 1;
      }
      assert l[..n] == l;
    }
  }

  /** What is written to one chain of a context leaves the others as they were. */
  method WriteBeside(context: Context, chain: Chain, other: Chain, data: seq<bv8>)
    requires context.Holds(chain) && context.Holds(other) && chain != other && Apart(other.list, chain.list)
    modifies context, chain
    ensures context.Holds(chain) && context.Holds(other) && Apart(other.list, chain.list)
    ensures ContentsOf(context.bufs, chain.list) == old(ContentsOf(context.bufs, chain.list)) + data
    ensures ContentsOf(context.bufs, other.list) == old(ContentsOf(context.bufs, other.list))
  {
    hide Queue, AllSound, Contents;
    ghost var b0, m := context.bufs, other.list;
    QueueInRange(b0, m, other.head);
    context.WriteToChain(chain, data);
    assert forall j :: 0 <= j < |m| ==> m[j] in m;
    QueueStays(b0, context.bufs, m, other.head);
    ContentsSame(b0, context.bufs, m);
  }

  ghost function ContentsOf(bufs: seq<Buf>, l: seq<nat>): seq<bv8> {
    if AllSound(bufs) && forall j :: 0 <= j < |l| ==> l[j] < |bufs| then Contents(bufs, l) else []
  }

  lemma QueueInRange(bufs: seq<Buf>, l: seq<nat>, head: Head)
    requires Queue(bufs, l, head)
    ensures Distinct(l) && (forall j :: 0 <= j < |l| ==> l[j] < |bufs|) && (forall x :: x in l ==> x < |bufs|)
  {
  }

  lemma LastOf(bufs: seq<Buf>, l: seq<nat>, head: Head)
    requires Queue(bufs, l, head)
    ensures head.last == if l == [] then -1 else l[|l| - 1]
  {
  }

  lemma FirstOf(bufs: seq<Buf>, l: seq<nat>, head: Head)
    requires Queue(bufs, l, head)
    ensures head.first == if l == [] then -1 else l[0]
  {
  }

  lemma NextOf(bufs: seq<Buf>, l: seq<nat>, head: Head, j: nat)
    requires Queue(bufs, l, head) && j < |l|
    ensures l[j] < |bufs| && bufs[l[j]].next == (if j + 1 < |l| then l[j + 1] else -1)
    ensures l[j] !in l[..j] && forall k :: j < k < |l| ==> l[k] != l[j]
  {
  }

  lemma SoundAt(bufs: seq<Buf>, e: nat)
    requires AllSound(bufs) && e < |bufs|
    ensures Sound(bufs[e])
  {
  }

  lemma LinkedNear(bufs: seq<Buf>, l: seq<nat>, head: Head, e: nat)
    requires Queue(bufs, l, head) && e < |bufs|
    ensures head.last == -1 || (0 <= head.last < |bufs| && head.last in l)
    ensures forall x :: 0 <= x < |bufs| && x != e && x !in l ==> Linked(bufs, head, e)[x] == bufs[x]
  {
  }
}
