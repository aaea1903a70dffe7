/**
 The table's iterator.  The element it returned last may be deleted through it; a full run
 then still meets every key once.
 */
module AssocIteration {
  import opened AssocState
  import opened AssocWalk
  import opened Assocs

  datatype Entry = Entry(key: Key, data: nat)

  class AssocIterator {
    const assoc: Assoc
    var prevChain: int
    var prev: int
    var nextChain: int
    var next: int
    ghost var prevAt: nat
    ghost var nextAt: nat
    /** The elements still to be returned, in order. */
    ghost var todo: seq<nat>

    ghost predicate Ready()
      reads this, assoc, assoc.chains
    {
      assoc.Valid() && Stands(assoc.View(), nextChain, next, nextAt, todo)
    }

    /** The element returned last has not been deleted. */
    ghost predicate CanDelete()
      reads this, assoc, assoc.chains
    {
      Behind(assoc.View(), prevChain, prev, prevAt, nextChain, next, nextAt)
    }

    constructor (assoc: Assoc)
      requires assoc.Valid()
      ensures this.assoc == assoc && Ready() && todo == Flat(assoc.lists, 0)
    {
      hide Ok, Linked, ChainOk;
      this.assoc := assoc;
      prevChain, prev, prevAt := -1, -1, 0;
      OkShape(assoc.View(), assoc.hash, "");
      var i, e := FirstOccupied(assoc, 0);
      nextChain, next, nextAt := i, e, 0;
      todo := Flat(assoc.lists, 0);
    }

    /** Returns the next entry and steps on. */
    method Iter() returns (status: Status, entry: Entry)
      requires Ready()
      modifies this
      ensures Ready() && assoc.Valid()
      ensures old(todo) == [] ==> status == EndOfData && todo == []
      ensures old(todo) != [] ==>
                && status == Done && CanDelete() && todo == old(todo)[1..] && prev == old(todo)[0]
                && 0 <= prev < |assoc.els| && entry == Entry(assoc.els[prev].key, assoc.els[prev].data)
    {
      hide Ok, Linked, ChainOk, Flat, Stands, Behind;
      StandsNowhere(assoc.View(), nextChain, nextAt, todo);
      if next == -1 {
        return EndOfData, Entry("", 0);
      }
      StepInChain(assoc.View(), assoc.hash, nextChain, next, nextAt, todo);
      entry := Entry(assoc.els[next].key, assoc.els[next].data);
      prevChain, prev, prevAt := nextChain, next, nextAt;
      StepOn();
      todo := todo[1..];
      status := Done;
    }

    /** Moves to the element linked behind the one to be returned, or to the next occupied chain. */
    method StepOn()
      requires Ready() && next != -1 && todo != []
      modifies `nextChain, `next, `nextAt
      ensures Stands(assoc.View(), nextChain, next, nextAt, todo[1..])
      ensures Behind(assoc.View(), old(nextChain), old(next), old(nextAt), nextChain, next, nextAt)
    {
      hide Ok, Linked, ChainOk, Flat, Stands, Behind;
      ghost var t := assoc.View();
      OkShape(t, assoc.hash, "");
      StepInChain(t, assoc.hash, nextChain, next, nextAt, todo);
      if assoc.els[next].next != -1 {
        next, nextAt := assoc.els[next].next, nextAt + 1;
      } else {
        var i, e := FirstOccupied(assoc, nextChain + 1);
        BehindLater(t, nextChain, next, nextAt, todo, if e != -1 then i else nextChain, e);
        StandsNowhere(t, i, 0, todo[1..]);
        StandsNowhere(t, nextChain, 0, todo[1..]);
        if e != -1 {
          nextChain := i;
        }
        next, nextAt := e, 0;
      }
    }

    /** Deletes the element returned last. */
    method IterDelete()
      requires Ready() && CanDelete() && 0 <= prev < |assoc.els|
      modifies `nextAt, assoc, assoc.chains
      ensures Ready() && assoc.replaced == old(assoc.replaced)
      ensures assoc.contents == old(assoc.contents) - {old(assoc.els)[prev].key}
      ensures assoc.Valid() && SameEntriesIn(old(assoc.els), assoc.els)
    {
      hide Ok, Linked, ChainOk, Flat, Stands;
      ghost var t := assoc.View();
      OkShape(t, assoc.hash, "");
      UnlinkKeepsWalk(t, prevChain, prev, prevAt, nextChain, next, nextAt, todo);
      UnhookKeepsEntries(assoc.els, prev);
      assoc.TakeOut(prevChain, prev, prevAt);
      if nextChain == prevChain && nextAt > 0 {
        nextAt := nextAt - 1;
      }
    }
  }

  lemma UnhookKeepsEntries(els: seq<El>, e: nat)
    requires e < |els|
    ensures SameEntriesIn(els, Unhook(els, e))
  {
  }

  /** The first element of the first occupied chain from `from` on. */
  method FirstOccupied(assoc: Assoc, from: nat) returns (i: nat, e: int)
    requires assoc.Valid() && from <= assoc.chains.Length
    ensures Stands(assoc.View(), i, e, 0, Flat(assoc.lists, from))
    ensures i >= from
  {
    hide Ok, ChainOk;
    i := from;
    ghost var t := assoc.View();
    OkShape(t, assoc.hash, "");
    while i < assoc.chains.Length && assoc.chains[i] == -1
      invariant from <= i <= assoc.chains.Length
      invariant Flat(assoc.lists, from) == Flat(assoc.lists, i)
    {
      FirstOfChain(t, assoc.hash, i);
      i := i + 1;
    }
    if i < assoc.chains.Length {
      FirstOfChain(t, assoc.hash, i);
      e := assoc.chains[i];
    } else {
      e := -1;
    }
  }

  /** `seen` lists the entries of the first elements of `f`. */
  ghost predicate Read(els: seq<El>, f: seq<nat>, seen: seq<Entry>) {
    && |seen| <= |f|
    && (forall n :: 0 <= n < |seen| ==> f[n] < |els| && seen[n] == Entry(els[f[n]].key, els[f[n]].data))
  }

  /** Every entry of the map was returned, once. */
  ghost predicate SeenOnce(seen: seq<Entry>, m: map<Key, nat>) {
    && (forall a, b :: 0 <= a < b < |seen| ==> seen[a].key != seen[b].key)
    && (forall n :: 0 <= n < |seen| ==> seen[n].key in m && m[seen[n].key] == seen[n].data)
    && (forall k :: k in m ==> Entry(k, m[k]) in seen)
  }

  ghost predicate SameEntriesIn(els: seq<El>, els2: seq<El>) {
    && |els2| == |els|
    && forall e :: 0 <= e < |els| ==> els2[e].key == els[e].key && els2[e].data == els[e].data
  }

  /** The map without the returned keys that `drop` picks. */
  ghost function Without(m: map<Key, nat>, seen: seq<Entry>, drop: Key -> bool): map<Key, nat>
    decreases |seen|
  {
    if seen == [] then m
    else
      var rest, key := Without(m, seen[..|seen| - 1], drop), seen[|seen| - 1].key;
      if drop(key) then rest - {key} else rest
  }

  lemma ReadMore(els: seq<El>, f: seq<nat>, seen: seq<Entry>, m: map<Key, nat>, drop: Key -> bool)
    requires Read(els, f, seen) && |seen| < |f| && f[|seen|] < |els|
    ensures var e := Entry(els[f[|seen|]].key, els[f[|seen|]].data);
      && Read(els, f, seen + [e])
      && Without(m, seen + [e], drop) == if drop(e.key) then Without(m, seen, drop) - {e.key}
          else Without(m, seen, drop)
  {
    var e := Entry(els[f[|seen|]].key, els[f[|seen|]].data);
    assert (seen + [e])[..|seen|] == seen;
  }

  lemma AllRead(els: seq<El>, f: seq<nat>, seen: seq<Entry>, m: map<Key, nat>)
    requires Enumerates(els, f, m) && Read(els, f, seen) && |seen| == |f|
    ensures SeenOnce(seen, m)
  {
    forall k | k in m ensures Entry(k, m[k]) in seen {
      assert HasKey(els, f, k);
      var j :| 0 <= j < |f| && f[j] < |els| && els[f[j]].key == k;
      assert seen[j] == Entry(k, m[k]);
    }
  }

  lemma {:induction false} WithoutAll(m: map<Key, nat>, seen: seq<Entry>, drop: Key -> bool)
    ensures Without(m, seen, drop) == map k | k in m
        && !(drop(k) && exists n :: 0 <= n < |seen| && seen[n].key == k) :: m[k]
  {
    if seen != [] {
      var last := |seen| - 1;
      WithoutAll(m, seen[..last], drop);
      assert forall n :: 0 <= n < last ==> seen[..last][n] == seen[n];
    }
  }

  /** A full run of an iterator, deleting the entries `drop` picks as they are returned. */
  method IterateAll(assoc: Assoc, drop: Key -> bool) returns (seen: seq<Entry>)
    requires assoc.Valid()
    modifies assoc, assoc.chains
    ensures assoc.Valid() && assoc.replaced == old(assoc.replaced)
    ensures SeenOnce(seen, old(assoc.contents))
    ensures forall n :: 0 <= n < |seen| ==>
              seen[n].key in old(assoc.contents) && old(assoc.contents)[seen[n].key] == seen[n].data
    ensures forall m, n :: 0 <= m < n < |seen| ==> seen[m].key != seen[n].key
    ensures forall k :: k in old(assoc.contents) ==> exists n :: 0 <= n < |seen| && seen[n].key == k
    ensures assoc.contents == map k | k in old(assoc.contents) && !drop(k) :: old(assoc.contents)[k]
  {
    hide Ok, ChainOk, Flat, Enumerates, Read, SeenOnce, SameEntriesIn, Without;
    ghost var f, els, m := Flat(assoc.lists, 0), assoc.els, assoc.contents;
    FlatEnumerates(assoc.View(), assoc.hash);
    seen := RunIterator(assoc, drop);
    AllRead(els, f, seen, m);
    WithoutAll(m, seen, drop);
    SeenAll(seen, m);
  }

  lemma SeenAll(seen: seq<Entry>, m: map<Key, nat>)
    requires SeenOnce(seen, m)
    ensures forall k :: k in m ==> exists n :: 0 <= n < |seen| && seen[n].key == k
    ensures forall n :: 0 <= n < |seen| ==> seen[n].key in m && m[seen[n].key] == seen[n].data
    ensures forall i, n :: 0 <= i < n < |seen| ==> seen[i].key != seen[n].key
  {
    forall k | k in m ensures exists n :: 0 <= n < |seen| && seen[n].key == k {
      var n :| 0 <= n < |seen| && seen[n] == Entry(k, m[k]);
      assert seen[n].key == k;
    }
  }

  method RunIterator(assoc: Assoc, drop: Key -> bool) returns (seen: seq<Entry>)
    requires assoc.Valid()
    modifies assoc, assoc.chains
    ensures assoc.Valid() && assoc.replaced == old(assoc.replaced)
    ensures var f := Flat(old(assoc.lists), 0); Read(old(assoc.els), f, seen) && |seen| == |f|
    ensures assoc.contents == Without(old(assoc.contents), seen, drop)
  {
    hide Ok, ChainOk, Flat, Read, Without, Stands, Behind, AssocIterator.Ready, AssocIterator.CanDelete, Assoc.Valid;
    ghost var f, els, m := Flat(assoc.lists, 0), assoc.els, assoc.contents;
    var iter := new AssocIterator(assoc);
    seen := [];
    NothingRead(els, f, m, drop);
    var status, entry := iter.Iter();
    while status == Done
      invariant iter.Ready() && iter.assoc.Valid() && fresh(iter) && iter.assoc == assoc
          && assoc.replaced == old(assoc.replaced)
      invariant SameEntriesIn(els, assoc.els)
      invariant Read(els, f, seen) && |seen| <= |f|
      invariant if status == Done then
          && |seen| < |f| && iter.CanDelete() && iter.todo == f[|seen| + 1..] && iter.prev == f[|seen|] < |els|
          && entry == Entry(els[f[|seen|]].key, els[f[|seen|]].data)
        else |seen| == |f|
      invariant assoc.contents == Without(m, seen, drop)
      decreases |f| - |seen|, status == Done
    {
      if drop(entry.key) {
        iter.IterDelete();
      }
      ReadMore(els, f, seen, m, drop);
      seen := seen + [entry];
      status, entry := iter.Iter();
    }
  }

  lemma NothingRead(els: seq<El>, f: seq<nat>, m: map<Key, nat>, drop: Key -> bool)
    ensures Read(els, f, []) && Without(m, [], drop) == m
  {
  }
}
