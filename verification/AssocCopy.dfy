/**
 Copying a table: each chain is rebuilt at its old length and order, with copied data, in
 memory of its own.
 */
module AssocCopy {
  import opened Links
  import opened AssocState
  import opened Assocs

  /** Chain `l2` at `head` holds, in order, the keys of `l` and copies of its data. */
  ghost predicate CopyOf(els2: seq<El>, l2: seq<nat>, head: int, els: seq<El>, l: seq<nat>, copy: nat -> nat) {
    && Linked(els2, l2, head)
    && |l2| == |l|
    && forall j :: 0 <= j < |l| ==>
         && l[j] < |els| && l2[j] < |els2|
         && els2[l2[j]].key == els[l[j]].key && els2[l2[j]].data == copy(els[l[j]].data)
  }

  ghost function CopiedMap(m: map<Key, nat>, copy: nat -> nat): map<Key, nat> {
    map k | k in m :: copy(m[k])
  }

  /** The copies of the elements `l`, placed from `base` on. */
  ghost function Copies(els: seq<El>, l: seq<nat>, base: nat, copy: nat -> nat): seq<El>
    requires forall j :: 0 <= j < |l| ==> l[j] < |els|
  {
    seq(|l|, j requires 0 <= j < |l| =>
      El(els[l[j]].key, copy(els[l[j]].data), if j > 0 then base + j - 1 else -1, if j + 1 < |l| then base + j + 1
          else -1))
  }

  ghost function Run(base: nat, n: nat): seq<nat> {
    seq(n, j requires 0 <= j => base + j)
  }

  lemma CopiesAt(els0: seq<El>, els: seq<El>, l: seq<nat>, copy: nat -> nat, j: nat)
    requires j < |l| && forall j :: 0 <= j < |l| ==> l[j] < |els|
    ensures var els2, r := els0 + Copies(els, l, |els0|, copy), Run(|els0|, |l|);
      && r[j] == |els0| + j < |els2|
      && els2[r[j]] == El(els[l[j]].key, copy(els[l[j]].data), Before(r, j), After(r, j))
  {
    var els2, r := els0 + Copies(els, l, |els0|, copy), Run(|els0|, |l|);
    assert els2[|els0| + j] == Copies(els, l, |els0|, copy)[j];
  }

  lemma CopiesChain(els0: seq<El>, els: seq<El>, l: seq<nat>, copy: nat -> nat)
    requires forall j :: 0 <= j < |l| ==> l[j] < |els|
    ensures CopyOf(els0 + Copies(els, l, |els0|, copy), Run(|els0|, |l|), if l == [] then -1 else |els0|, els, l, copy)
  {
    hide Copies, After, Before, Run;
    var els2, r := els0 + Copies(els, l, |els0|, copy), Run(|els0|, |l|);
    assert |r| == |l| by { RunLength(|els0|, |l|); }
    forall j | 0 <= j < |l|
      ensures r[j] == |els0| + j < |els2|
      ensures els2[r[j]] == El(els[l[j]].key, copy(els[l[j]].data), Before(r, j), After(r, j))
    {
      CopiesAt(els0, els, l, copy, j);
    }
  }

  lemma RunLength(base: nat, n: nat)
    ensures |Run(base, n)| == n
  {
  }

  /** One more copy is hooked behind the last. */
  lemma CopiesStep(els0: seq<El>, els: seq<El>, l: seq<nat>, k: nat, copy: nat -> nat)
    requires k < |l| && forall j :: 0 <= j < |l| ==> l[j] < |els|
    ensures var base, x := |els0|, els[l[k]];
      && |els0 + Copies(els, l[..k], base, copy)| == base + k
      && els0 + Copies(els, l[..k + 1], base, copy)
         == (if k == 0 then els0
             else (els0 + Copies(els, l[..k], base, copy))[base
                 + k - 1 := (els0 + Copies(els, l[..k], base, copy))[base + k - 1].(next := base + k)])
            + [El(x.key, copy(x.data), if k == 0 then -1 else base + k - 1, -1)]
  {
  }

  lemma CopyOfGrows(els2: seq<El>, more: seq<El>, l2: seq<nat>, head: int, els: seq<El>, l: seq<nat>, copy: nat -> nat)
    requires CopyOf(els2, l2, head, els, l, copy)
    ensures CopyOf(els2 + more, l2, head, els, l, copy)
  {
  }

  lemma CopiedChainOk(t: Table, u: Table, hash: Key -> nat, copy: nat -> nat, i: nat)
    requires Ok(t, hash) && |u.lists| == |u.chains| == |t.lists| && i < |t.lists|
    requires CopyOf(u.els, u.lists[i], u.chains[i], t.els, t.lists[i], copy)
        && u.contents == CopiedMap(t.contents, copy)
    ensures ChainOk(u, hash, i)
  {
    hide Ok, HasKey, Linked;
    ChainParts(t, hash, i);
  }

  lemma CopiedHasKey(els2: seq<El>, l2: seq<nat>, head: int, els: seq<El>, l: seq<nat>, copy: nat -> nat, k: Key)
    requires CopyOf(els2, l2, head, els, l, copy) && HasKey(els, l, k)
    ensures HasKey(els2, l2, k)
  {
    hide Linked;
    var j :| 0 <= j < |l| && l[j] < |els| && els[l[j]].key == k;
    assert els2[l2[j]].key == k;
  }

  /** A table whose chains are copies is well formed, and stands for the copied map. */
  lemma CopiedOk(t: Table, u: Table, hash: Key -> nat, copy: nat -> nat)
    requires Ok(t, hash) && |u.lists| == |u.chains| == |t.lists| == |t.chains|
        && u.contents == CopiedMap(t.contents, copy)
    requires forall i :: 0 <= i < |t.lists| ==> CopyOf(u.els, u.lists[i], u.chains[i], t.els, t.lists[i], copy)
    ensures Ok(u, hash)
  {
    hide ChainOk, HasKey, CopyOf;
    forall i | 0 <= i < |u.lists| ensures ChainOk(u, hash, i) {
      CopiedChainOk(t, u, hash, copy, i);
    }
    forall k | k in u.contents ensures HasKey(u.els, u.lists[hash(k)], k) {
      CopiedHasKey(u.els, u.lists[hash(k)], u.chains[hash(k)], t.els, t.lists[hash(k)], copy, k);
    }
  }

  /** Copies chain `i` of `from` to the end of `els0`. */
  method CopyChain(from: Assoc, i: nat, els0: seq<El>, copy: nat -> nat) returns (els: seq<El>, head: int)
    requires from.Valid() && i < from.chains.Length
    ensures i < |from.lists| && exists more :: els == els0 + more
    ensures CopyOf(els, Run(|els0|, |from.lists[i]|), head, from.els, from.lists[i], copy)
  {
    hide Ok, ChainOk, Keyed, Agrees, Linked, CopyOf, Copies;
    ghost var l, k := Chain(from, i), 0;
    els, head := els0, -1;
    var source, ptr := from.chains[i], -1;
    NoCopies(els0, from.els, l, copy);
    while source != -1
      invariant k <= |l| && (source == if k < |l| then l[k] else -1)
      invariant els == els0 + Copies(from.els, l[..k], |els0|, copy)
      invariant ptr == (if k == 0 then -1 else |els0| + k - 1) && head == if k == 0 then -1 else |els0|
      decreases |l| - k
    {
      CopiesStep(els0, from.els, l, k, copy);
      LinkedAt(from.els, l, from.chains[i], k);
      var tmp := |els|;
      els := els + [El("", 0, -1, -1)];
      if head == -1 {
        head := tmp;
      } else {
        els := els[ptr := els[ptr].(next := tmp)];
        els := els[tmp := els[tmp].(prev := ptr)];
      }
      ptr := tmp;
      els := els[ptr := els[ptr].(data := copy(from.els[source].data), key := from.els[source].key)];
      source, k := from.els[source].next, k + 1;
    }
    assert l[..k] == l;
    CopiesChain(els0, from.els, l, copy);
  }

  lemma NoCopies(els0: seq<El>, els: seq<El>, l: seq<nat>, copy: nat -> nat)
    ensures els0 + Copies(els, l[..0], |els0|, copy) == els0
  {
  }

  /** Chain `i` as a list, and what is known of it. */
  ghost function Chain(a: Assoc, i: nat): (l: seq<nat>)
    requires a.Valid() && i < a.chains.Length
    reads a, a.chains
    ensures i < |a.lists| && l == a.lists[i] && Linked(a.els, l, a.chains[i])
    ensures forall j :: 0 <= j < |l| ==> l[j] < |a.els|
    ensures a.chains[i] == if l == [] then -1 else l[0]
  {
    ChainParts(a.View(), a.hash, i);
    a.lists[i]
  }

  /** A copy with its own chains: the same keys in the same order, each with copied data. */
  method Copy(from: Assoc, copy: nat -> nat) returns (knew: Assoc)
    requires from.Valid()
    ensures knew.Valid() && fresh(knew) && fresh(knew.chains) && knew.hash == from.hash
    ensures knew.contents == CopiedMap(from.contents, copy) && knew.numElements == from.numElements
    ensures forall k :: k in knew.contents <==> k in from.contents
    ensures forall k :: k in from.contents ==> knew.contents[k] == copy(from.contents[k])
    ensures CopiedUpTo(knew.els, knew.lists, knew.chains[..], from.els, from.lists, copy, |from.lists|)
  {
    hide Ok, ChainOk, CopyOf, CopiedMap;
    knew := CopyChains(from, copy);
    knew.numElements := from.numElements;
    knew.contents, knew.replaced := CopiedMap(from.contents, copy), from.replaced;
    CopiedSize(from.contents, copy);
    CopiedIs(from.contents, copy);
    CopiedOk(from.View(), knew.View(), from.hash, copy);
  }

  /** A table with copies of all the chains, not yet counted. */
  method CopyChains(from: Assoc, copy: nat -> nat) returns (knew: Assoc)
    requires from.Valid()
    ensures fresh(knew) && fresh(knew.chains) && knew.hash == from.hash
    ensures knew.chains.Length == from.chains.Length == |from.lists| == |knew.lists|
    ensures CopiedUpTo(knew.els, knew.lists, knew.chains[..], from.els, from.lists, copy, |from.lists|)
  {
    hide Ok, ChainOk, CopyOf;
    knew := new Assoc(from.hash, Size(from));
    var i := 0;
    while i < knew.chains.Length
      invariant 0 <= i <= knew.chains.Length == from.chains.Length == |from.lists| == |knew.lists|
      invariant from.Valid() && fresh(knew) && fresh(knew.chains) && knew.hash == from.hash
      invariant CopiedUpTo(knew.els, knew.lists, knew.chains[..], from.els, from.lists, copy, i)
      modifies knew, knew.chains
    {
      CopyOne(from, knew, i, copy);
      i := i + 1;
    }
  }

  ghost predicate CopiedUpTo(els2: seq<El>, lists2: seq<seq<nat>>, chains2: seq<int>, els: seq<El>,
      lists: seq<seq<nat>>, copy: nat -> nat, n: nat) {
    && n <= |lists| == |lists2| == |chains2|
    && forall i :: 0 <= i < n ==> CopyOf(els2, lists2[i], chains2[i], els, lists[i], copy)
  }

  lemma CopiedIs(m: map<Key, nat>, copy: nat -> nat)
    ensures forall k :: k in CopiedMap(m, copy) <==> k in m
    ensures forall k :: k in m ==> CopiedMap(m, copy)[k] == copy(m[k])
  {
  }

  lemma CopiedSize(m: map<Key, nat>, copy: nat -> nat)
    ensures |CopiedMap(m, copy)| == |m|
  {
    assert CopiedMap(m, copy).Keys == m.Keys;
  }

  lemma CopiedOneMore(els2: seq<El>, more: seq<El>, lists2: seq<seq<nat>>, chains2: seq<int>,
                      els: seq<El>, lists: seq<seq<nat>>, copy: nat -> nat, n: nat, l: seq<nat>, head: int)
    requires CopiedUpTo(els2, lists2, chains2, els, lists, copy, n) && n < |lists|
    requires CopyOf(els2 + more, l, head, els, lists[n], copy)
    ensures CopiedUpTo(els2 + more, lists2[n := l], chains2[n := head], els, lists, copy, n + 1)
  {
    hide CopyOf;
    forall m | 0 <= m < n ensures CopyOf(els2 + more, lists2[n := l][m], chains2[n := head][m], els, lists[m], copy) {
      CopyOfGrows(els2, more, lists2[m], chains2[m], els, lists[m], copy);
    }
  }

  /** Copies chain `i` into place. */
  method CopyOne(from: Assoc, knew: Assoc, i: nat, copy: nat -> nat)
    requires from.Valid() && from != knew && from.chains != knew.chains
    requires CopiedUpTo(knew.els, knew.lists, knew.chains[..], from.els, from.lists, copy, i)
        && i < |from.lists| == from.chains.Length
    modifies knew`els, knew`lists, knew.chains
    ensures CopiedUpTo(knew.els, knew.lists, knew.chains[..], from.els, from.lists, copy, i + 1)
  {
    hide Ok, ChainOk, CopyOf, Run;
    assert |knew.chains[..]| == |from.lists|;
    ghost var chains1 := knew.chains[..];
    var els, head := CopyChain(from, i, knew.els, copy);
    ghost var more :| els == knew.els + more;
    ghost var l := Run(|knew.els|, |from.lists[i]|);
    CopiedOneMore(knew.els, more, knew.lists, chains1, from.els, from.lists, copy, i, l, head);
    knew.chains[i] := head;
    knew.lists, knew.els := knew.lists[i := l], els;
    assert knew.chains[..] == chains1[i := head];
  }

  function Size(a: Assoc): (n: nat)
    requires a.Valid()
    reads a, a.chains
    ensures n == a.chains.Length == |a.lists| && forall k :: a.hash(k) < n
  {
    a.chains.Length
  }
}
