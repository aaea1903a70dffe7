/**
 Walking a table: the order in which an iterator meets the elements, and copying a chain.
 */
module AssocWalk {
  import opened AssocState

  /** The elements of chains `i` and later, chain by chain. */
  ghost function Flat(lists: seq<seq<nat>>, i: nat): seq<nat>
    decreases |lists| - i
  {
    if i >= |lists| then [] else lists[i] + Flat(lists, i + 1)
  }

  /** `f` names each entry of the map exactly once. */
  ghost predicate Enumerates(els: seq<El>, f: seq<nat>, m: map<Key, nat>) {
    && Agrees(els, f, m)
    && (forall a, b :: 0 <= a < b < |f| ==> els[f[a]].key != els[f[b]].key)
    && (forall k :: k in m ==> HasKey(els, f, k))
  }

  /** What `Enumerates` says, of the keys hashing to `i` or more. */
  ghost predicate EnumeratesFrom(els: seq<El>, f: seq<nat>, m: map<Key, nat>, hash: Key -> nat, i: nat) {
    && Agrees(els, f, m)
    && (forall a :: 0 <= a < |f| ==> hash(els[f[a]].key) >= i)
    && (forall a, b :: 0 <= a < b < |f| ==> els[f[a]].key != els[f[b]].key)
    && (forall k :: k in m && hash(k) >= i ==> HasKey(els, f, k))
  }

  lemma EnumeratesOne(els: seq<El>, l: seq<nat>, f: seq<nat>, m: map<Key, nat>, hash: Key -> nat, i: nat)
    requires EnumeratesFrom(els, f, m, hash, i + 1) && Keyed(els, l, hash, i) && Agrees(els, l, m)
    requires forall k :: k in m && hash(k) == i ==> HasKey(els, l, k)
    ensures EnumeratesFrom(els, l + f, m, hash, i)
  {
    var r := l + f;
    assert forall a :: 0 <= a < |r| ==> r[a] == if a < |l| then l[a] else f[a - |l|];
    forall k | k in m && hash(k) >= i ensures HasKey(els, r, k) {
      if hash(k) == i {
        var j :| 0 <= j < |l| && l[j] < |els| && els[l[j]].key == k;
        assert r[j] == l[j];
      } else {
        var j :| 0 <= j < |f| && f[j] < |els| && els[f[j]].key == k;
        assert r[|l| + j] == f[j];
      }
    }
  }

  lemma {:induction false} FlatFrom(t: Table, hash: Key -> nat, i: nat)
    requires Ok(t, hash) && i <= |t.lists|
    ensures EnumeratesFrom(t.els, Flat(t.lists, i), t.contents, hash, i)
    decreases |t.lists| - i
  {
    hide HasKey, Linked, Keyed, Agrees;
    if i == |t.lists| {
      assert Agrees(t.els, [], t.contents) by { NothingAgrees(t.els, t.contents); }
    } else {
      FlatFrom(t, hash, i + 1);
      ChainParts(t, hash, i);
      EnumeratesOne(t.els, t.lists[i], Flat(t.lists, i + 1), t.contents, hash, i);
    }
  }

  lemma NothingAgrees(els: seq<El>, m: map<Key, nat>)
    ensures Agrees(els, [], m)
  {
  }

  /** Walking the chains in order meets every entry once. */
  lemma FlatEnumerates(t: Table, hash: Key -> nat)
    requires Ok(t, hash)
    ensures Enumerates(t.els, Flat(t.lists, 0), t.contents)
  {
    hide Ok, HasKey, Agrees;
    FlatFrom(t, hash, 0);
  }

  lemma {:induction false} FlatSame(lists: seq<seq<nat>>, lists2: seq<seq<nat>>, i: nat)
    requires |lists| == |lists2| && forall m :: i <= m < |lists| ==> lists2[m] == lists[m]
    ensures Flat(lists2, i) == Flat(lists, i)
    decreases |lists| - i
  {
    if i < |lists| {
      FlatSame(lists, lists2, i + 1);
    }
  }

  // ---------------------------------------------------------------- iterator

  /** An iterator about to return `next` has `todo` before it. */
  ghost predicate Stands(t: Table, chain: int, next: int, at: nat, todo: seq<nat>) {
    if next == -1 then todo == []
    else
      && 0 <= chain < |t.lists| && at < |t.lists[chain]| && t.lists[chain][at] == next
      && todo == t.lists[chain][at..] + Flat(t.lists, chain + 1)
  }

  /** The element last returned is in its chain, before the one to come. */
  ghost predicate Behind(t: Table, prevChain: int, prev: int, prevAt: nat, chain: int, next: int, at: nat) {
    && 0 <= prevChain < |t.lists| && prevAt < |t.lists[prevChain]| && t.lists[prevChain][prevAt] == prev
    && (next != -1 ==> prevChain < chain || (prevChain == chain && prevAt < at))
  }

  /** Within a chain, the element to come next is the one linked. */
  lemma StepInChain(t: Table, hash: Key -> nat, chain: int, next: int, at: nat, todo: seq<nat>)
    requires Ok(t, hash) && Stands(t, chain, next, at, todo) && next != -1
    ensures 0 <= chain < |t.chains| && 0 <= next < |t.els| && todo != [] && todo[0] == next
    ensures t.els[next].next != -1 ==>
              && Stands(t, chain, t.els[next].next, at + 1, todo[1..])
              && Behind(t, chain, next, at, chain, t.els[next].next, at + 1)
    ensures t.els[next].next == -1 ==> todo[1..] == Flat(t.lists, chain + 1)
  {
    hide HasKey, Keyed, Agrees, Ok, Flat, Linked;
    OkShape(t, hash, "");
    ChainParts(t, hash, chain);
    LinkedAt(t.els, t.lists[chain], t.chains[chain], at);
    var l := t.lists[chain];
    assert l[at..] == [l[at]] + l[at + 1..];
    assert todo[1..] == l[at + 1..] + Flat(t.lists, chain + 1);
  }

  lemma StandsNowhere(t: Table, chain: int, at: nat, todo: seq<nat>)
    ensures Stands(t, chain, -1, at, todo) == (todo == [])
  {
  }

  /** An element of a chain is behind every later chain. */
  lemma BehindLater(t: Table, chain: int, next: int, at: nat, todo: seq<nat>, later: int, e: int)
    requires Stands(t, chain, next, at, todo) && next != -1 && (e == -1 || later > chain)
    ensures Behind(t, chain, next, at, later, e, 0)
  {
  }

  /** An empty chain adds nothing to the walk, and a chain's first element begins the rest. */
  lemma FirstOfChain(t: Table, hash: Key -> nat, i: nat)
    requires Ok(t, hash) && i < |t.lists|
    ensures |t.chains| == |t.lists|
    ensures t.chains[i] == -1 ==> Flat(t.lists, i) == Flat(t.lists, i + 1)
    ensures t.chains[i] != -1 ==> Stands(t, i, t.chains[i], 0, Flat(t.lists, i))
  {
    hide HasKey, Keyed, Agrees;
    ChainParts(t, hash, i);
    HeadInChain(t.els, t.lists[i], t.chains[i]);
    assert t.lists[i][0..] == t.lists[i];
  }

  /** Taking the last returned element out of its chain leaves the rest of the walk as it was. */
  lemma UnlinkKeepsWalk(t: Table, prevChain: int, prev: int, prevAt: nat, chain: int, next: int, at: nat,
      todo: seq<nat>)
    requires |t.chains| == |t.lists| && Stands(t, chain, next, at, todo)
    requires Behind(t, prevChain, prev, prevAt, chain, next, at) && prev < |t.els|
    ensures Stands(Unlink(t, prevChain, prevAt), chain, next, if chain == prevChain && at > 0 then at - 1 else at, todo)
  {
    hide Unhook, Flat;
    if next != -1 {
      var u := Unlink(t, prevChain, prevAt);
      FlatSame(t.lists, u.lists, chain + 1);
      if chain == prevChain {
        assert u.lists[chain][at - 1..] == t.lists[chain][at..];
      }
    }
  }

  // ---------------------------------------------------------------- counting

  lemma AddedKey(m: map<Key, nat>, k: Key, data: nat)
    ensures |m[k := data]| == if k in m then |m| else |m| + 1
  {
    assert m[k := data].Keys == m.Keys + {k};
  }

  lemma RemovedKey(m: map<Key, nat>, k: Key)
    requires k in m
    ensures |m - {k}| == |m| - 1
  {
    assert (m - {k}).Keys == m.Keys - {k};
  }
}
