/**
 The memory of an associative array: elements linked both ways in one chain per hash
 value.  A pointer is an index into the arena `els`, and -1 is the null pointer.
 */
module AssocState {
  import opened Links

  type Key = string

  datatype El = El(key: Key, data: nat, prev: int, next: int)

  /** A snapshot: the chain heads and elements, the chains as lists, and the map they stand for. */
  datatype Table = Table(chains: seq<int>, els: seq<El>, lists: seq<seq<nat>>, contents: map<Key, nat>)

  /** Following `next` from `head` visits `l`, and `prev` mirrors it. */
  ghost predicate Linked(els: seq<El>, l: seq<nat>, head: int) {
    && head == (if l == [] then -1 else l[0])
    && (forall j :: 0 <= j < |l| ==> l[j] < |els| && els[l[j]].next == After(l, j) && els[l[j]].prev == Before(l, j))
  }

  /** Each key of the chain hashes to it, and occurs once. */
  ghost predicate Keyed(els: seq<El>, l: seq<nat>, hash: Key -> nat, i: nat) {
    && (forall j :: 0 <= j < |l| ==> l[j] < |els| && hash(els[l[j]].key) == i)
    && (forall j, k :: 0 <= j < k < |l| ==> els[l[j]].key != els[l[k]].key)
  }

  /** The chain's entries are the map's. */
  ghost predicate Agrees(els: seq<El>, l: seq<nat>, m: map<Key, nat>) {
    forall j :: 0 <= j < |l| ==> l[j] < |els| && els[l[j]].key in m && m[els[l[j]].key] == els[l[j]].data
  }

  ghost predicate HasKey(els: seq<El>, l: seq<nat>, key: Key) {
    exists j :: 0 <= j < |l| && l[j] < |els| && els[l[j]].key == key
  }

  ghost predicate ChainOk(t: Table, hash: Key -> nat, i: nat)
    requires i < |t.lists| == |t.chains|
  {
    Linked(t.els, t.lists[i], t.chains[i]) && Keyed(t.els, t.lists[i], hash, i) && Agrees(t.els, t.lists[i], t.contents)
  }

  ghost predicate Ok(t: Table, hash: Key -> nat) {
    && |t.chains| == |t.lists|
    && (forall k :: hash(k) < |t.chains|)
    && (forall i :: 0 <= i < |t.lists| ==> ChainOk(t, hash, i))
    && (forall k :: k in t.contents ==> HasKey(t.els, t.lists[hash(k)], k))
  }

  lemma ChainParts(t: Table, hash: Key -> nat, i: nat)
    requires Ok(t, hash) && i < |t.lists|
    ensures Linked(t.els, t.lists[i], t.chains[i]) && Keyed(t.els, t.lists[i], hash, i)
        && Agrees(t.els, t.lists[i], t.contents)
  {
    hide HasKey, Linked, Keyed, Agrees;
    assert ChainOk(t, hash, i);
  }

  lemma LinkedAt(els: seq<El>, l: seq<nat>, head: int, j: nat)
    requires Linked(els, l, head) && j < |l|
    ensures l[j] < |els| && els[l[j]].next == After(l, j) && els[l[j]].prev == Before(l, j)
  {
  }

  /** Different chains have no element in common. */
  lemma ChainsApart(t: Table, hash: Key -> nat, i: nat, m: nat)
    requires Ok(t, hash) && i < |t.lists| && m < |t.lists| && i != m
    ensures forall a :: 0 <= a < |t.lists[m]| ==> t.lists[m][a] < |t.els| && t.lists[m][a] !in t.lists[i]
  {
    hide HasKey, Linked, Agrees, Ok;
    ChainParts(t, hash, i);
    ChainParts(t, hash, m);
  }

  /** Keys and data decide what a chain is keyed by and holds. */
  lemma SameEntries(els: seq<El>, els2: seq<El>, l: seq<nat>, hash: Key -> nat, i: nat, m: map<Key, nat>)
    requires |els| <= |els2| && forall b :: 0 <= b < |els| ==> els2[b].key == els[b].key && els2[b].data == els[b].data
    requires Keyed(els, l, hash, i) && Agrees(els, l, m)
    ensures Keyed(els2, l, hash, i) && Agrees(els2, l, m)
  {
  }

  /** What changing elements outside a chain leaves of it. */
  lemma ChainUnchanged(els: seq<El>, els2: seq<El>, l: seq<nat>, head: int, hash: Key -> nat, i: nat, m: map<Key, nat>)
    requires Linked(els, l, head) && Keyed(els, l, hash, i) && Agrees(els, l, m)
    requires forall j :: 0 <= j < |l| ==> l[j] < |els2| && els2[l[j]] == els[l[j]]
    ensures Linked(els2, l, head) && Keyed(els2, l, hash, i) && Agrees(els2, l, m)
  {
    assert forall j :: 0 <= j < |l| ==> l[j] < |els|;
  }

  lemma AgreesMore(els: seq<El>, l: seq<nat>, m: map<Key, nat>, hash: Key -> nat, i: nat, key: Key, data: nat)
    requires Agrees(els, l, m) && Keyed(els, l, hash, i) && hash(key) != i
    ensures Agrees(els, l, m[key := data])
  {
  }

  lemma AgreesLess(els: seq<El>, l: seq<nat>, m: map<Key, nat>, hash: Key -> nat, i: nat, key: Key)
    requires Agrees(els, l, m) && Keyed(els, l, hash, i) && hash(key) != i
    ensures Agrees(els, l, m - {key})
  {
  }

  // -------------------------------------------------------------- insert head

  ghost function Insert(t: Table, hash: Key -> nat, key: Key, data: nat): Table
    requires |t.chains| == |t.lists| && hash(key) < |t.chains|
  {
    var i, n := hash(key), |t.els|;
    Table(t.chains[i := n], Hook(t.els, t.chains[i], key, data), t.lists[i := [n] + t.lists[i]],
        t.contents[key := data])
  }

  /** The arena with a new first element in front of `head`. */
  ghost function Hook(els: seq<El>, head: int, key: Key, data: nat): seq<El> {
    (if 0 <= head < |els| then els[head := els[head].(prev := |els|)] else els) + [El(key, data, -1, head)]
  }

  lemma InsertLinks(els: seq<El>, l: seq<nat>, head: int, key: Key, data: nat)
    requires Linked(els, l, head)
    requires forall j, k :: 0 <= j < k < |l| ==> l[j] != l[k]
    ensures Linked(Hook(els, head, key, data), [|els|] + l, |els|)
  {
    var els2, r := Hook(els, head, key, data), [|els|] + l;
    forall j | 0 <= j < |r|
      ensures r[j] < |els2| && els2[r[j]].next == After(r, j) && els2[r[j]].prev == Before(r, j)
    {
      if j > 0 {
        LinkedAt(els, l, head, j - 1);
        assert r[j] == l[j - 1];
      }
    }
  }

  lemma KeyedDistinct(els: seq<El>, l: seq<nat>, hash: Key -> nat, i: nat)
    requires Keyed(els, l, hash, i)
    ensures forall j, k :: 0 <= j < k < |l| ==> l[j] != l[k]
  {
  }

  /** A chain with a new key at its head. */
  lemma EntriesMore(els: seq<El>, l: seq<nat>, n: nat, hash: Key -> nat, i: nat, m: map<Key, nat>)
    requires Keyed(els, l, hash, i) && Agrees(els, l, m) && n < |els| && hash(els[n].key) == i && els[n].key !in m
    ensures Keyed(els, [n] + l, hash, i) && Agrees(els, [n] + l, m[els[n].key := els[n].data])
  {
    var r := [n] + l;
    assert forall j :: 0 < j < |r| ==> r[j] == l[j - 1];
  }

  lemma InsertedChain(t: Table, hash: Key -> nat, key: Key, data: nat)
    requires Ok(t, hash) && key !in t.contents
    ensures |t.lists| == |t.chains| && hash(key) < |t.chains|
    ensures var u := Insert(t, hash, key, data); |u.lists| == |u.chains| && ChainOk(u, hash, hash(key))
  {
    hide HasKey, Ok, Linked, Keyed, Agrees;
    OkShape(t, hash, key);
    var i := hash(key);
    ChainParts(t, hash, i);
    KeyedDistinct(t.els, t.lists[i], hash, i);
    InsertLinks(t.els, t.lists[i], t.chains[i], key, data);
    var u := Insert(t, hash, key, data);
    SameEntries(t.els, u.els, t.lists[i], hash, i, t.contents);
    EntriesMore(u.els, t.lists[i], |t.els|, hash, i, t.contents);
  }

  lemma OkShape(t: Table, hash: Key -> nat, key: Key)
    requires Ok(t, hash)
    ensures |t.lists| == |t.chains| && hash(key) < |t.chains|
  {
  }

  lemma InsertKeepsOthers(t: Table, hash: Key -> nat, key: Key, data: nat, m: nat)
    requires Ok(t, hash) && key !in t.contents && m < |t.lists| && m != hash(key)
    ensures var u := Insert(t, hash, key, data); |u.lists| == |u.chains| == |t.lists| && ChainOk(u, hash, m)
  {
    hide HasKey, Ok, Linked, Agrees;
    OkShape(t, hash, key);
    var i, u := hash(key), Insert(t, hash, key, data);
    ChainParts(t, hash, m);
    ChainParts(t, hash, i);
    HeadInChain(t.els, t.lists[i], t.chains[i]);
    ChainsApart(t, hash, i, m);
    ChainUnchanged(t.els, u.els, t.lists[m], t.chains[m], hash, m, t.contents);
    AgreesMore(u.els, t.lists[m], t.contents, hash, m, key, data);
  }

  lemma HeadInChain(els: seq<El>, l: seq<nat>, head: int)
    requires Linked(els, l, head)
    ensures head != -1 ==> l != [] && head == l[0] && head < |els|
    ensures head == -1 ==> l == []
  {
  }

  lemma InsertKeepsOk(t: Table, hash: Key -> nat, key: Key, data: nat)
    requires Ok(t, hash) && key !in t.contents
    ensures |t.lists| == |t.chains| && hash(key) < |t.chains| && Ok(Insert(t, hash, key, data), hash)
  {
    hide ChainOk, HasKey;
    OkShape(t, hash, key);
    var u := Insert(t, hash, key, data);
    forall m | 0 <= m < |u.lists| ensures ChainOk(u, hash, m) {
      if m == hash(key) { InsertedChain(t, hash, key, data); } else { InsertKeepsOthers(t, hash, key, data, m); }
    }
    forall k | k in u.contents ensures HasKey(u.els, u.lists[hash(k)], k) {
      InsertKeepsKey(t, hash, key, data, k);
    }
  }

  lemma InsertKeepsKey(t: Table, hash: Key -> nat, key: Key, data: nat, k: Key)
    requires Ok(t, hash) && (k == key || k in t.contents)
    ensures |t.lists| == |t.chains| && hash(key) < |t.chains| && hash(k) < |t.chains|
    ensures var u := Insert(t, hash, key, data); HasKey(u.els, u.lists[hash(k)], k)
  {
    hide ChainOk;
    var u := Insert(t, hash, key, data);
    if k == key {
      assert u.els[u.lists[hash(k)][0]].key == key;
    } else {
      var j :| 0 <= j < |t.lists[hash(k)]| && t.lists[hash(k)][j] < |t.els| && t.els[t.lists[hash(k)][j]].key == k;
      var j2 := if hash(k) == hash(key) then j + 1 else j;
      assert u.lists[hash(k)][j2] == t.lists[hash(k)][j];
    }
  }

  // ------------------------------------------------------------------ unlink

  /** The element at place `j` of chain `i` is unhooked from both neighbours. */
  ghost function Unlink(t: Table, i: nat, j: nat): Table
    requires i < |t.lists| == |t.chains| && j < |t.lists[i]| && t.lists[i][j] < |t.els|
  {
    var l := t.lists[i];
    var x := t.els[l[j]];
    Table(if x.prev == -1 then t.chains[i := x.next] else t.chains, Unhook(t.els, l[j]),
          t.lists[i := l[..j] + l[j + 1..]], t.contents - {x.key})
  }

  /** The arena after unhooking element `e` from its neighbours. */
  ghost function Unhook(els: seq<El>, e: nat): seq<El>
    requires e < |els|
  {
    var x := els[e];
    var els1 := if 0 <= x.prev < |els| then els[x.prev := els[x.prev].(next := x.next)] else els;
    if 0 <= x.next < |els1| then els1[x.next := els1[x.next].(prev := x.prev)] else els1
  }

  /** Unhooking rewrites one `next` and one `prev`. */
  lemma UnhookAt(els: seq<El>, e: nat, b: nat)
    requires e < |els| && b < |els|
    ensures |Unhook(els, e)| == |els|
    ensures Unhook(els, e)[b].next == if b == els[e].prev then els[e].next else els[b].next
    ensures Unhook(els, e)[b].prev == if b == els[e].next then els[e].prev else els[b].prev
    ensures Unhook(els, e)[b].key == els[b].key && Unhook(els, e)[b].data == els[b].data
  {
  }

  ghost predicate NextOk(els: seq<El>, l: seq<nat>, j: nat)
    requires j < |l|
  {
    l[j] < |els| && els[l[j]].next == After(l, j)
  }

  ghost predicate PrevOk(els: seq<El>, l: seq<nat>, j: nat)
    requires j < |l|
  {
    l[j] < |els| && els[l[j]].prev == Before(l, j)
  }

  lemma UnlinkedNext(els: seq<El>, l: seq<nat>, head: int, j: nat, a: nat)
    requires Linked(els, l, head) && j < |l| && a < |l| - 1 && l[j] < |els|
    requires forall a, b :: 0 <= a < b < |l| ==> l[a] != l[b]
    ensures NextOk(Unhook(els, l[j]), l[..j] + l[j + 1..], a)
  {
    hide Unhook, Linked;
    var b := if a < j then a else a + 1;
    LinkedAt(els, l, head, j);
    LinkedAt(els, l, head, b);
    UnhookAt(els, l[j], l[b]);
    var r := l[..j] + l[j + 1..];
    assert r[a] == l[b];
    assert a + 1 < |r| ==> r[a + 1] == l[if a + 1 < j then a + 1 else a + 2];
  }

  lemma UnlinkedPrev(els: seq<El>, l: seq<nat>, head: int, j: nat, a: nat)
    requires Linked(els, l, head) && j < |l| && a < |l| - 1 && l[j] < |els|
    requires forall a, b :: 0 <= a < b < |l| ==> l[a] != l[b]
    ensures PrevOk(Unhook(els, l[j]), l[..j] + l[j + 1..], a)
  {
    hide Unhook, Linked;
    var b := if a < j then a else a + 1;
    LinkedAt(els, l, head, j);
    LinkedAt(els, l, head, b);
    UnhookAt(els, l[j], l[b]);
    var r := l[..j] + l[j + 1..];
    assert r[a] == l[b];
    assert a > 0 ==> r[a - 1] == l[if a - 1 < j then a - 1 else a];
  }

  lemma UnlinkLinks(els: seq<El>, l: seq<nat>, head: int, j: nat)
    requires Linked(els, l, head) && j < |l|
    requires forall a, b :: 0 <= a < b < |l| ==> l[a] != l[b]
    ensures l[j] < |els|
    ensures Linked(Unhook(els, l[j]), l[..j] + l[j + 1..], if els[l[j]].prev == -1 then els[l[j]].next else head)
  {
    hide Unhook, After, Before;
    LinkedAt(els, l, head, j);
    var els2, r := Unhook(els, l[j]), l[..j] + l[j + 1..];
    forall a | 0 <= a < |r|
      ensures r[a] < |els2| && els2[r[a]].next == After(r, a) && els2[r[a]].prev == Before(r, a)
    {
      UnlinkedNext(els, l, head, j, a);
      UnlinkedPrev(els, l, head, j, a);
    }
    UnlinkedHead(els, l, head, j);
  }

  lemma UnlinkedHead(els: seq<El>, l: seq<nat>, head: int, j: nat)
    requires Linked(els, l, head) && j < |l|
    ensures l[j] < |els|
    ensures var r := l[..j] + l[j + 1..];
      (if els[l[j]].prev == -1 then els[l[j]].next else head) == (if r == [] then -1 else r[0])
  {
    LinkedAt(els, l, head, j);
  }

  lemma UnlinkTouchesOwnChain(t: Table, hash: Key -> nat, i: nat, j: nat)
    requires Ok(t, hash) && i < |t.lists| && j < |t.lists[i]|
    ensures |t.lists| == |t.chains| && t.lists[i][j] < |t.els|
    ensures var els := Unhook(t.els, t.lists[i][j]);
      && |els| == |t.els|
      && (forall b :: 0 <= b < |t.els| ==> els[b].key == t.els[b].key && els[b].data == t.els[b].data)
      && (forall b :: 0 <= b < |t.els| && b !in t.lists[i] ==> els[b] == t.els[b])
  {
    hide HasKey, Ok, Keyed, Agrees;
    assert |t.lists| == |t.chains| by { OkShape(t, hash, ""); }
    ChainParts(t, hash, i);
    LinkedAt(t.els, t.lists[i], t.chains[i], j);
  }

  /** A chain without the key at place `j`. */
  lemma EntriesLess(els: seq<El>, l: seq<nat>, j: nat, hash: Key -> nat, i: nat, m: map<Key, nat>, r: seq<nat>)
    requires Keyed(els, l, hash, i) && Agrees(els, l, m) && j < |l| && r == l[..j] + l[j + 1..]
    ensures l[j] < |els| && Keyed(els, r, hash, i) && Agrees(els, r, m - {els[l[j]].key})
  {
    assert forall a :: 0 <= a < |r| ==> r[a] == l[if a < j then a else a + 1];
  }

  lemma UnlinkedChain(t: Table, hash: Key -> nat, i: nat, j: nat)
    requires Ok(t, hash) && i < |t.lists| && j < |t.lists[i]|
    ensures |t.lists| == |t.chains| && t.lists[i][j] < |t.els|
    ensures var u := Unlink(t, i, j); |u.lists| == |u.chains| && ChainOk(u, hash, i)
  {
    hide HasKey, Ok, Linked, Keyed, Agrees, Unhook;
    UnlinkTouchesOwnChain(t, hash, i, j);
    ChainParts(t, hash, i);
    KeyedDistinct(t.els, t.lists[i], hash, i);
    UnlinkLinks(t.els, t.lists[i], t.chains[i], j);
    var u := Unlink(t, i, j);
    SameEntries(t.els, u.els, t.lists[i], hash, i, t.contents);
    EntriesLess(u.els, t.lists[i], j, hash, i, t.contents, u.lists[i]);
  }

  lemma UnlinkKeepsOthers(t: Table, hash: Key -> nat, i: nat, j: nat, m: nat)
    requires Ok(t, hash) && i < |t.lists| && j < |t.lists[i]| && m < |t.lists| && m != i
    ensures |t.lists| == |t.chains| && t.lists[i][j] < |t.els|
    ensures var u := Unlink(t, i, j); |u.lists| == |u.chains| == |t.lists| && ChainOk(u, hash, m)
  {
    hide HasKey, Ok, Linked, Agrees, Unhook;
    UnlinkTouchesOwnChain(t, hash, i, j);
    var u := Unlink(t, i, j);
    ChainParts(t, hash, m);
    ChainParts(t, hash, i);
    ChainsApart(t, hash, i, m);
    ChainUnchanged(t.els, u.els, t.lists[m], t.chains[m], hash, m, t.contents);
    AgreesLess(u.els, t.lists[m], t.contents, hash, m, t.els[t.lists[i][j]].key);
  }

  lemma UnlinkKeepsKey(t: Table, hash: Key -> nat, i: nat, j: nat, k: Key)
    requires Ok(t, hash) && i < |t.lists| && j < |t.lists[i]| && k in t.contents
    requires t.lists[i][j] < |t.els| && k != t.els[t.lists[i][j]].key
    ensures |t.lists| == |t.chains| && hash(k) < |t.chains|
    ensures var u := Unlink(t, i, j); HasKey(u.els, u.lists[hash(k)], k)
  {
    hide ChainOk, Unhook;
    UnlinkTouchesOwnChain(t, hash, i, j);
    var u := Unlink(t, i, j);
    var l := t.lists[hash(k)];
    var a :| 0 <= a < |l| && l[a] < |t.els| && t.els[l[a]].key == k;
    var a2 := if hash(k) == i && a > j then a - 1 else a;
    assert u.lists[hash(k)][a2] == l[a];
  }

  lemma UnlinkKeepsOk(t: Table, hash: Key -> nat, i: nat, j: nat)
    requires Ok(t, hash) && i < |t.lists| && j < |t.lists[i]|
    ensures |t.lists| == |t.chains| && t.lists[i][j] < |t.els| && t.els[t.lists[i][j]].key in t.contents
    ensures Ok(Unlink(t, i, j), hash)
  {
    hide ChainOk, HasKey, Linked, Keyed, Unhook;
    UnlinkTouchesOwnChain(t, hash, i, j);
    ChainParts(t, hash, i);
    var u := Unlink(t, i, j);
    forall m | 0 <= m < |u.lists| ensures ChainOk(u, hash, m) {
      if m == i { UnlinkedChain(t, hash, i, j); } else { UnlinkKeepsOthers(t, hash, i, j, m); }
    }
    forall k | k in u.contents ensures HasKey(u.els, u.lists[hash(k)], k) {
      UnlinkKeepsKey(t, hash, i, j, k);
    }
  }

  // ----------------------------------------------------------------- replace

  ghost function Replace(t: Table, i: nat, j: nat, data: nat): Table
    requires i < |t.lists| && j < |t.lists[i]| && t.lists[i][j] < |t.els|
  {
    var e := t.lists[i][j];
    t.(els := t.els[e := t.els[e].(data := data)], contents := t.contents[t.els[e].key := data])
  }

  lemma ReplaceKeepsOk(t: Table, hash: Key -> nat, i: nat, j: nat, data: nat)
    requires Ok(t, hash) && i < |t.lists| && j < |t.lists[i]|
    ensures t.lists[i][j] < |t.els| && t.els[t.lists[i][j]].key in t.contents && Ok(Replace(t, i, j, data), hash)
  {
    hide ChainOk, HasKey, Linked, Keyed, Agrees;
    assert |t.lists| == |t.chains| by { OkShape(t, hash, ""); }
    ReplaceInRange(t, hash, i, j);
    var u := Replace(t, i, j, data);
    forall m | 0 <= m < |u.lists| ensures ChainOk(u, hash, m) {
      ReplaceKeepsChain(t, hash, i, j, data, m);
    }
    forall k | k in u.contents ensures HasKey(u.els, u.lists[hash(k)], k) {
      assert HasKey(t.els, t.lists[hash(k)], k);
      ReplaceKeepsHasKey(t.els, u.els, t.lists[hash(k)], k);
    }
  }

  lemma ReplaceKeepsHasKey(els: seq<El>, els2: seq<El>, l: seq<nat>, k: Key)
    requires HasKey(els, l, k) && |els2| == |els| && forall b :: 0 <= b < |els| ==> els2[b].key == els[b].key
    ensures HasKey(els2, l, k)
  {
  }

  lemma ReplaceInRange(t: Table, hash: Key -> nat, i: nat, j: nat)
    requires Ok(t, hash) && i < |t.lists| && j < |t.lists[i]|
    ensures t.lists[i][j] < |t.els| && t.els[t.lists[i][j]].key in t.contents
  {
    hide HasKey, Linked, Keyed, Ok;
    ChainParts(t, hash, i);
  }

  lemma ReplaceOwn(els: seq<El>, l: seq<nat>, j: nat, hash: Key -> nat, i: nat, head: int, m: map<Key, nat>, data: nat)
    requires Linked(els, l, head) && Keyed(els, l, hash, i) && Agrees(els, l, m) && j < |l|
    ensures l[j] < |els|
    ensures var els2 := els[l[j] := els[l[j]].(data := data)];
      Linked(els2, l, head) && Keyed(els2, l, hash, i) && Agrees(els2, l, m[els[l[j]].key := data])
  {
    KeyedDistinct(els, l, hash, i);
  }

  lemma ReplaceKeepsChain(t: Table, hash: Key -> nat, i: nat, j: nat, data: nat, m: nat)
    requires Ok(t, hash) && i < |t.lists| && j < |t.lists[i]| && m < |t.lists|
    ensures |t.lists| == |t.chains| && t.lists[i][j] < |t.els| && ChainOk(Replace(t, i, j, data), hash, m)
  {
    hide HasKey, Ok, Linked, Agrees;
    assert |t.lists| == |t.chains| by { OkShape(t, hash, ""); }
    ChainParts(t, hash, m);
    ChainParts(t, hash, i);
    if m == i {
      ReplaceOwn(t.els, t.lists[i], j, hash, i, t.chains[i], t.contents, data);
    } else {
      ChainsApart(t, hash, i, m);
      var u := Replace(t, i, j, data);
      assert t.lists[i][j] in t.lists[i];
      ChainUnchanged(t.els, u.els, t.lists[m], t.chains[m], hash, m, t.contents);
      AgreesMore(u.els, t.lists[m], t.contents, hash, m, t.els[t.lists[i][j]].key, data);
    }
  }
}
