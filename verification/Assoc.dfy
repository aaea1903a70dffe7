/**
 The chained hash table and its iterator: methods that rewrite `chains`, the elements'
 links and the counter in place, each proved against the map the table stands for.
 */
module Assocs {
  import opened AssocState
  import opened AssocWalk

  const WRAP: nat := 0x1_0000_0000

  datatype Status = Done | NotFound | Already | EndOfData

  class Assoc {
    const hash: Key -> nat
    const chains: array<int>
    var els: seq<El>
    var numElements: nat
    /** The data handed to the elements' destructors so far. */
    var destroyed: seq<nat>
    ghost var lists: seq<seq<nat>>
    ghost var contents: map<Key, nat>
    /** Inserts that overwrote an entry. */
    ghost var replaced: nat

    ghost function View(): Table
      reads this, chains
    {
      Table(chains[..], els, lists, contents)
    }

    ghost predicate Valid()
      reads this, chains
    {
      Ok(View(), hash) && numElements == (|contents| + replaced) % WRAP
    }

    constructor (hash: Key -> nat, size: nat)
      requires forall k :: hash(k) < size
      ensures Valid() && contents == map[] && replaced == 0 && destroyed == []
      ensures this.hash == hash && chains.Length == |lists| == size && fresh(chains)
    {
      this.hash := hash;
      chains := new int[size](_ => -1);
      els, numElements, destroyed := [], 0, [];
      lists, contents, replaced := seq(size, _ => []), map[], 0;
    }

    /** The element holding `key`, if there is one. */
    method FetchBucket(key: Key) returns (found: bool, bucket: int, ghost at: nat)
      requires Valid()
      ensures found == (key in contents)
      ensures hash(key) < |lists|
      ensures found ==>
          at < |lists[hash(key)]| && lists[hash(key)][at] == bucket && bucket < |els| && els[bucket].key == key
    {
      hide HasKey, Keyed, Agrees, Ok, Linked, ChainOk;
      ghost var i := hash(key);
      OkShape(View(), hash, key);
      ChainParts(View(), hash, i);
      ghost var l := lists[i];
      HeadInChain(els, l, chains[i]);
      bucket, at := chains[hash(key)], 0;
      found := false;
      while bucket != -1 && !found
        invariant at <= |l| && (bucket != -1 ==> at < |l| && l[at] == bucket < |els|) && (bucket == -1 ==> at == |l|)
        invariant forall j :: 0 <= j < at ==> l[j] < |els| && els[l[j]].key != key
        invariant found ==> bucket != -1 && els[bucket].key == key
        decreases |l| - at, !found
      {
        LinkedAt(els, l, chains[i], at);
        if els[bucket].key == key {
          found := true;
        } else {
          bucket, at := els[bucket].next, at + 1;
          if at < |l| { LinkedAt(els, l, chains[i], at); }
        }
      }
      if found {
        FoundIsThere(View(), hash, key, at);
      } else {
        MissingIsNotThere(View(), hash, key);
      }
    }

    method Fetch(key: Key) returns (status: Status, data: nat)
      requires Valid()
      ensures key in contents ==> status == Done && data == contents[key]
      ensures key !in contents ==> status == NotFound
    {
      hide HasKey, Keyed, Ok, Linked, ChainOk;
      var found, bucket, at := FetchBucket(key);
      if !found {
        return NotFound, 0;
      }
      ChainParts(View(), hash, hash(key));
      return Done, els[bucket].data;
    }

    /** A new key goes to the head of its chain; an old one is overwritten, if that was asked for. */
    method Insert(key: Key, data: nat, replace: bool) returns (status: Status)
      requires Valid()
      modifies this, chains
      ensures Valid()
      ensures status == if key in old(contents) && !replace then Already else Done
      ensures contents == if status == Done then old(contents)[key := data] else old(contents)
      ensures replaced == if status == Done && key in old(contents) then old(replaced) + 1 else old(replaced)
      ensures destroyed == if status == Done && key in old(contents) then old(destroyed) + [old(contents)[key]]
          else old(destroyed)
    {
      hide HasKey, Keyed, Agrees, Ok, Linked, ChainOk;
      var found, bucket, at := FetchBucket(key);
      if !found {
        AddedKey(contents, key, data);
        AddHead(key, data);
      } else {
        if !replace {
          return Already;
        }
        AddedKey(contents, key, data);
        Overwrite(key, data, bucket, at);
      }
      CountOne();
      status := Done;
    }

    method CountOne()
      requires Ok(View(), hash) && |contents| + replaced > 0 && numElements == (|contents| + replaced - 1) % WRAP
      modifies `numElements
      ensures Valid()
    {
      hide Ok;
      numElements := (numElements + 1) % WRAP;
    }

    /** Destroys the data of the key's element and puts other data in its place. */
    method Overwrite(key: Key, data: nat, bucket: nat, ghost at: nat)
      requires Ok(View(), hash) && hash(key) < |lists| && at < |lists[hash(key)]|
      requires lists[hash(key)][at] == bucket < |els| && els[bucket].key == key
      modifies `els, `destroyed, `contents, `replaced
      ensures Ok(View(), hash) && key in old(contents) && contents == old(contents)[key := data]
      ensures destroyed == old(destroyed) + [old(contents)[key]] && replaced == old(replaced) + 1
    {
      hide HasKey, Keyed, Agrees, Ok, Linked, ChainOk;
      ghost var t := View();
      EntryIs(t, hash, key, at);
      ReplaceKeepsOk(t, hash, hash(key), at, data);
      destroyed := destroyed + [els[bucket].data];
      els := els[bucket := els[bucket].(data := data)];
      contents, replaced := contents[key := data], replaced + 1;
      assert View() == Replace(t, hash(key), at, data);
    }

    /** Hooks a new element in front of its chain. */
    method AddHead(key: Key, data: nat)
      requires Ok(View(), hash) && key !in contents
      modifies `els, `lists, `contents, chains
      ensures Ok(View(), hash) && contents == old(contents)[key := data]
    {
      hide HasKey, Keyed, Agrees, Ok, Linked, ChainOk;
      ghost var t := View();
      InsertKeepsOk(t, hash, key, data);
      var i, n := hash(key), |els|;
      ChainParts(t, hash, i);
      HeadInChain(els, lists[i], chains[i]);
      var first := chains[i];
      if first != -1 {
        els := els[first := els[first].(prev := n)];
      }
      els := els + [El(key, data, -1, first)];
      chains[i] := n;
      lists, contents := lists[i := [n] + lists[i]], contents[key := data];
      assert View() == AssocState.Insert(t, hash, key, data);
    }

    method Delete(key: Key) returns (status: Status)
      requires Valid()
      modifies this, chains
      ensures Valid() && replaced == old(replaced)
      ensures status == if key in old(contents) then Done else NotFound
      ensures contents == old(contents) - {key}
      ensures destroyed == if key in old(contents) then old(destroyed) + [old(contents)[key]] else old(destroyed)
    {
      hide HasKey, Keyed, Agrees, Ok, Linked, ChainOk;
      var found, bucket, at := FetchBucket(key);
      if !found {
        return NotFound;
      }
      EntryIs(View(), hash, key, at);
      TakeOut(hash(key), bucket, at);
      status := Done;
    }

    /** Unhooks the element `e` of chain `i` and destroys it. */
    method TakeOut(i: nat, e: nat, ghost at: nat)
      requires Valid() && i < |lists| && at < |lists[i]| && lists[i][at] == e < |els|
      modifies this, chains
      ensures old(els)[e].key in old(contents)
      ensures Valid() && replaced == old(replaced) && contents == old(contents) - {old(els)[e].key}
      ensures destroyed == old(destroyed) + [old(contents)[old(els)[e].key]]
      ensures |lists| == |chains[..]| && View() == Unlink(old(View()), i, at)
    {
      hide HasKey, Keyed, Agrees, Ok, Linked, ChainOk, AssocState.Unhook;
      ghost var t := View();
      var x := els[e];
      UnlinkInRange(t, hash, i, at);
      RemovedKey(contents, x.key);
      destroyed := destroyed + [x.data];
      UnlinkElement(i, e, at);
      numElements := if numElements == 0 then WRAP - 1 else numElements - 1;
    }

    /** Takes the element out of its chain. */
    method UnlinkElement(i: nat, e: nat, ghost at: nat)
      requires Ok(View(), hash) && i < |lists| && at < |lists[i]| && lists[i][at] == e < |els|
      modifies `els, `lists, `contents, chains
      ensures Ok(View(), hash) && contents == old(contents) - {old(els)[e].key}
      ensures |old(lists)| == |old(chains[..])| && |lists| == |chains[..]| && View() == Unlink(old(View()), i, at)
    {
      hide HasKey, Keyed, Agrees, Ok, Linked, ChainOk, AssocState.Unhook;
      ghost var t := View();
      OkShape(t, hash, "");
      UnlinkKeepsOk(t, hash, i, at);
      UnlinkInRange(t, hash, i, at);
      lists, contents := lists[i := lists[i][..at] + lists[i][at + 1..]], contents - {els[e].key};
      Unhook(i, e);
      assert View() == Unlink(t, i, at);
    }

    /** Makes the neighbours of element `e` point past it. */
    method Unhook(i: nat, e: nat)
      requires i < chains.Length && e < |els| && -1 <= els[e].prev < |els| && -1 <= els[e].next < |els|
      modifies `els, chains
      ensures els == AssocState.Unhook(old(els), e)
      ensures chains[..] == if old(els)[e].prev == -1 then old(chains[..])[i := old(els)[e].next] else old(chains[..])
    {
      var x := els[e];
      if x.prev != -1 {
        els := els[x.prev := els[x.prev].(next := x.next)];
      } else {
        chains[i] := x.next;
      }
      if x.next != -1 {
        els := els[x.next := els[x.next].(prev := x.prev)];
      }
    }
  }

  lemma FoundIsThere(t: Table, hash: Key -> nat, key: Key, j: nat)
    requires Ok(t, hash) && hash(key) < |t.lists| && j < |t.lists[hash(key)]|
    requires t.lists[hash(key)][j] < |t.els| && t.els[t.lists[hash(key)][j]].key == key
    ensures key in t.contents
  {
    hide Ok, Keyed, Linked;
    ChainParts(t, hash, hash(key));
  }

  lemma EntryIs(t: Table, hash: Key -> nat, key: Key, j: nat)
    requires Ok(t, hash) && hash(key) < |t.lists| && j < |t.lists[hash(key)]|
    requires t.lists[hash(key)][j] < |t.els| && t.els[t.lists[hash(key)][j]].key == key
    ensures key in t.contents && t.contents[key] == t.els[t.lists[hash(key)][j]].data
  {
    hide Ok, Keyed, Linked;
    ChainParts(t, hash, hash(key));
  }

  lemma MissingIsNotThere(t: Table, hash: Key -> nat, key: Key)
    requires Ok(t, hash) && hash(key) < |t.lists|
    requires forall j :: 0 <= j < |t.lists[hash(key)]| ==>
               t.lists[hash(key)][j] < |t.els| && t.els[t.lists[hash(key)][j]].key != key
    ensures key !in t.contents
  {
    hide ChainOk;
    assert !HasKey(t.els, t.lists[hash(key)], key);
  }

  lemma UnlinkInRange(t: Table, hash: Key -> nat, i: nat, j: nat)
    requires Ok(t, hash) && i < |t.lists| && j < |t.lists[i]|
    ensures t.lists[i][j] < |t.els|
    ensures var x := t.els[t.lists[i][j]];
      -1 <= x.prev < |t.els| && -1 <= x.next < |t.els| && x.key in t.contents && t.contents[x.key] == x.data
  {
    hide Ok, Keyed, Linked;
    ChainParts(t, hash, i);
    assert |t.lists| == |t.chains| by { OkShape(t, hash, ""); }
    var l := t.lists[i];
    LinkedAt(t.els, l, t.chains[i], j);
    if j > 0 { LinkedAt(t.els, l, t.chains[i], j - 1); }
    if j + 1 < |l| { LinkedAt(t.els, l, t.chains[i], j + 1); }
  }

  /**
   The counter is the number of keys exactly when that fits 32 bits and the overwriting inserts make whole
   turns of them, as none do.
   */
  lemma CountIsSizeIff(a: Assoc)
    requires a.Valid()
    ensures a.numElements == |a.contents| <==> |a.contents| < WRAP && a.replaced % WRAP == 0
  {
    hide Ok;
    TurnsOnly(|a.contents|, a.replaced);
  }

  lemma TurnsOnly(n: nat, more: nat)
    ensures (n + more) % WRAP == n <==> n < WRAP && more % WRAP == 0
  {
    var turns, rest := more / WRAP, more % WRAP;
    assert more == turns * WRAP + rest;
    if n < WRAP {
      assert (n + more) % WRAP == (n + rest) % WRAP;
    }
  }

  /** One key, inserted and then overwritten, counts two. */
  method OverwriteCountsTwice(key: Key, data: nat, other: nat) returns (a: Assoc)
    ensures fresh(a) && a.Valid() && a.contents == map[key := other] && |a.contents| == 1 && a.numElements == 2
  {
    hide Ok;
    a := new Assoc(OneChain, 1);
    var status := a.Insert(key, data, false);
    status := a.Insert(key, other, true);
  }

  function OneChain(key: Key): nat {
    0
  }
}
