/**
 The registry kept in this process: its methods change the table in place and raise events,
 and each is proved to do to the table what `RegistrySpec` says.
 */
module LocalRegistries {
  import opened Options
  import opened RegistryNames
  import opened RegistrySpec
  import opened RegistryCallbacks
  import opened RegistryChildren

  /** A look at the name's node is not a look at released memory. */
  ghost predicate Live(t: Table, name: string) {
    name in t ==> !t[name].Freed?
  }

  /**
   What a set fetches has not been released: the name and, while they are absent, its ancestors up to the
   first that is there.
   */
  ghost predicate Readable(t: Table, name: string)
    decreases |name|
  {
    IsValid(name) ==>
      if name in t then !t[name].Freed? else LastDot(name) < 0 || Readable(t, name[..LastDot(name)])
  }

  /** Entering a longer name changes nothing of that. */
  lemma {:induction false} ReadableSkipsLonger(t: Table, name: string, longer: string, node: Node)
    requires |name| < |longer|
    ensures Readable(t[longer := node], name) <==> Readable(t, name)
    decreases |name|
  {
    if LastDot(name) >= 0 {
      ReadableSkipsLonger(t, name[..LastDot(name)], longer, node);
    }
  }

  /** In a tree everything is readable. */
  lemma {:induction false} TreeIsReadable(t: Table, name: string)
    requires Tree(t)
    ensures Live(t, name) && Readable(t, name)
    decreases |name|
  {
    if LastDot(name) >= 0 {
      TreeIsReadable(t, name[..LastDot(name)]);
    }
  }

  /** From the history `h` to `h2`, met by the registrations `cs`, the operation `o` was carried out. */
  ghost predicate Did(o: Outcome, status: Status, table: Table, h: seq<Delivery>, h2: seq<Delivery>, cs: Callbacks) {
    status == o.status && table == o.table && Raised(h, h2, cs, o.events)
  }

  class LocalRegistry {
    const callbacks: CallbackTable
    var table: Table

    /** Every name is legal, in whatever state the nodes are. */
    ghost predicate Valid()
      reads this, callbacks
    {
      callbacks.Valid() && AllValid(table)
    }

    /** The root is there from the start. */
    constructor ()
      ensures Valid() && fresh(callbacks) && table == FRESH && callbacks.callbacks == map[]
      ensures Raised([], callbacks.history, map[], [Event(Add, "")])
    {
      callbacks := new CallbackTable();
      table := map[];
      new;
      var status := Set("", Registry);
      assert SetSpec(map[], "", Registry) == Outcome(Done, map["" := Registry], [Event(Add, "")]);
    }

    method FetchNode(name: string, nodeType: NodeType) returns (status: Status, node: Node)
      requires Valid() && Live(table, name)
      ensures status == if !IsValid(name) then BadArgs else if name !in table then NotFound
                        else if HasType(table[name], nodeType) then Done else Failed
      ensures status == Done ==> node == table[name] && match nodeType
        case RegistryNode => node.Registry?
        case ScalarNode(t) => node.Scalar? && node.scalarType == t
        case ArrayNode(t) => node.Array? && node.arrayType == t
      ensures (IsValid(name) && name in table
               && ((table[name].Registry? && nodeType == RegistryNode)
                   || (table[name].Scalar? && nodeType == ScalarNode(table[name].scalarType))
                   || (table[name].Array? && nodeType == ArrayNode(table[name].arrayType)))) ==> status == Done
    {
      node := Registry;
      if !IsValid(name) {
        return BadArgs, node;
      }
      if name !in table {
        return NotFound, node;
      }
      node := table[name];
      status := if HasType(node, nodeType) then Done else Failed;
    }

    /** Copies an array's bytes out, if the caller's buffer of `size` bytes holds them. */
    method GetArray(name: string, arrayType: ArrayType, size: nat) returns (status: Status, data: seq<bv8>)
      requires Valid() && Live(table, name)
      ensures status == if !IsValid(name) then BadArgs else if name !in table then NotFound
                        else if !HasType(table[name], ArrayNode(arrayType)) then Failed
                        else if size < |table[name].data| then BadArgs else Done
      ensures status == Done ==> data == table[name].data
    {
      var node;
      status, node := FetchNode(name, ArrayNode(arrayType));
      if status != Done {
        return status, [];
      }
      if size < |node.data| {
        return BadArgs, [];
      }
      data := node.data;
    }

    /** Enters a new name, then its parent, then raises the event. */
    method InsertNode(name: string, node: Node) returns (status: Status)
      requires Valid() && !node.Freed? && (LastDot(name) >= 0 ==> Readable(table, name[..LastDot(name)]))
      modifies `table, callbacks`invoked, callbacks`history
      ensures Valid()
      ensures Did(InsertSpec(old(table), name, node), status, table, old(callbacks.history), callbacks.history,
          callbacks.callbacks)
      decreases |name|, 1
    {
      hide IsValid, CallbackTable.Valid, Raised;
      NothingRaised(callbacks.history, callbacks.callbacks);
      if !IsValid(name) {
        return BadArgs;
      }
      if name in table {
        return Already;
      }
      if LastDot(name) >= 0 { ReadableSkipsLonger(table, name[..LastDot(name)], name, node); }
      table := table[name := node];
      status := SetParentRegistries(name);
      if status != Done {
        return;
      }
      ghost var h, up := callbacks.history, SetParentSpec(old(table)[name := node], name);
      callbacks.RaiseEvent(name, Add);
      RaisedThen(old(callbacks.history), h, callbacks.history, callbacks.callbacks, up.events, [Event(Add, name)]);
    }

    method SetParentRegistries(name: string) returns (status: Status)
      requires Valid() && (LastDot(name) >= 0 ==> Readable(table, name[..LastDot(name)]))
      modifies `table, callbacks`invoked, callbacks`history
      ensures Valid()
      ensures Did(SetParentSpec(old(table), name), status, table, old(callbacks.history), callbacks.history,
          callbacks.callbacks)
      decreases |name|, 0
    {
      hide IsValid, CallbackTable.Valid, Raised, SetSpec;
      NothingRaised(callbacks.history, callbacks.callbacks);
      var dot := LastDot(name);
      if dot >= 0 {
        status := Set(name[..dot], Registry);
      } else {
        status := Done;
      }
    }

    /** Sets a registry or a scalar; a failed insert releases the node but leaves the entry. */
    method Set(name: string, node: Node) returns (status: Status)
      requires Valid() && Readable(table, name) && (node.Registry? || node.Scalar?)
      modifies `table, callbacks`invoked, callbacks`history
      ensures Valid()
      ensures Did(SetSpec(old(table), name, node), status, table, old(callbacks.history), callbacks.history,
          callbacks.callbacks)
      ensures (IsValid(name) && name in old(table)
               && ((old(table)[name].Registry? && node.Registry?)
                   || (old(table)[name].Scalar? && node.Scalar? && old(table)[name].scalarType == node.scalarType))) ==>
        && status == Done && table == old(table)[name := node]
        && Raised(old(callbacks.history), callbacks.history, callbacks.callbacks,
                  if old(table)[name] != node then [Event(Change, name)] else [])
      ensures (IsValid(name) && name in old(table)
               && !((old(table)[name].Registry? && node.Registry?)
                   || (old(table)[name].Scalar? && node.Scalar? && old(table)[name].scalarType == node.scalarType))) ==>
        && status == Failed && table == old(table)
        && Raised(old(callbacks.history), callbacks.history, callbacks.callbacks, [])
      ensures !IsValid(name) ==>
        && status == BadArgs && table == old(table)
        && Raised(old(callbacks.history), callbacks.history, callbacks.callbacks, [])
      decreases |name|, 2
    {
      hide IsValid, CallbackTable.Valid, Raised, InsertSpec;
      NothingRaised(callbacks.history, callbacks.callbacks);
      var found;
      status, found := FetchNode(name, TypeOf(node));
      if status == NotFound {
        status := InsertNode(name, node);
        if status != Done {
          table := table[name := Freed];
        }
      } else if status == Done && found != node {
        table := table[name := node];
        callbacks.RaiseEvent(name, Change);
      }
    }

    /** Sets an array, in place if it fits the old one, else in a node of its own. */
    method SetArray(name: string, arrayType: ArrayType, data: seq<bv8>) returns (status: Status)
      requires Valid() && Readable(table, name)
      modifies `table, callbacks`invoked, callbacks`history
      ensures Valid()
      ensures Did(SetSpec(old(table), name, Array(arrayType, data)), status, table,
                  old(callbacks.history), callbacks.history, callbacks.callbacks)
      ensures (IsValid(name) && name in old(table)
               && old(table)[name].Array? && old(table)[name].arrayType == arrayType) ==>
        && status == Done && table == old(table)[name := Array(arrayType, data)]
        && Raised(old(callbacks.history), callbacks.history, callbacks.callbacks,
                  if old(table)[name].data != data then [Event(Change, name)] else [])
      ensures (IsValid(name) && name in old(table)
               && !(old(table)[name].Array? && old(table)[name].arrayType == arrayType)) ==>
        && status == Failed && table == old(table)
        && Raised(old(callbacks.history), callbacks.history, callbacks.callbacks, [])
      ensures !IsValid(name) ==>
        && status == BadArgs && table == old(table)
        && Raised(old(callbacks.history), callbacks.history, callbacks.callbacks, [])
    {
      hide IsValid, CallbackTable.Valid, Raised, InsertSpec;
      NothingRaised(callbacks.history, callbacks.callbacks);
      var was;
      status, was := FetchNode(name, ArrayNode(arrayType));
      if status == NotFound {
        status := InsertNode(name, Array(arrayType, data));
      } else if status == Done && was.data != data {
        table := table[name := Array(arrayType, data)];
        callbacks.RaiseEvent(name, Change);
      }
    }

    /** Deletes a name and all beneath it, releasing their nodes, and puts the root back. */
    method Delete(name: string) returns (status: Status)
      requires Valid() && forall k :: k in table && Beneath(name, k) ==> Live(table, k)
      modifies `table, callbacks`invoked, callbacks`history
      ensures Valid()
      ensures Did(DeleteSpec(old(table), name), status, table, old(callbacks.history), callbacks.history,
          callbacks.callbacks)
      ensures IsValid(name) && name != "" ==>
        && status == Done
        && (forall k :: k in table <==> (k in old(table) && k != name
                                         && !(|name| < |k| && k[..|name|] == name && k[|name|] == '.')))
        && (forall k :: k in table ==> table[k] == old(table)[k])
        && Raised(old(callbacks.history), callbacks.history, callbacks.callbacks, [Event(RegistrySpec.Delete, name)])
      ensures name == "" ==>
        && status == Done && table == map["" := Registry]
        && Raised(old(callbacks.history), callbacks.history, callbacks.callbacks,
                  [Event(RegistrySpec.Delete, ""), Event(Add, "")])
      ensures !IsValid(name) ==>
        && status == BadArgs && table == old(table)
        && Raised(old(callbacks.history), callbacks.history, callbacks.callbacks, [])
    {
      hide IsValid, CallbackTable.Valid, Raised, SetSpec, Beneath;
      NothingRaised(callbacks.history, callbacks.callbacks);
      RootIsValid();
      if !IsValid(name) {
        return BadArgs;
      }
      DeleteEntries(name);
      if name != "" { KeptAre(old(table), name); }
      ghost var t, h0 := table, callbacks.history;
      callbacks.RaiseEvent(name, RegistrySpec.Delete);
      status := Done;
      if name == "" {
        ghost var h := callbacks.history;
        RootAgain(t);
        status := Set("", Registry);
        RaisedThen(h0, h, callbacks.history, callbacks.callbacks, [Event(RegistrySpec.Delete, "")],
            SetSpec(t, "", Registry).events);
        assert [Event(RegistrySpec.Delete, "")] + [Event(Add, "")] == [Event(RegistrySpec.Delete, ""), Event(Add, "")];
      }
    }

    /** Walks the table, in any order, taking out what lies beneath the name. */
    method DeleteEntries(name: string)
      modifies `table
      ensures table == Without(old(table), name)
    {
      hide Beneath;
      var todo := table.Keys;
      while todo != {}
        invariant todo <= old(table).Keys
        invariant table == map k | k in old(table) && (k in todo || !Beneath(name, k)) :: old(table)[k]
        decreases |todo|
      {
        var k :| k in todo;
        todo := todo - {k};
        MatchIsBeneath(name, k);
        if Matches(name, k) {
          table := table - {k};
        }
      }
    }

    /** Counts the children of a registry; for the root, all the other names. */
    method GetChildCount(parent: string) returns (status: Status, count: nat)
      requires Valid() && Live(table, parent)
      ensures status == if !IsValid(parent) then BadArgs else if parent !in table then NotFound
                        else if table[parent].Registry? then Done else Failed
      ensures status == Done ==> count == |CountedUnder(table, parent)|
    {
      hide IsValid, CallbackTable.Valid, Matches, CountsAsChild, LooksLikeChild;
      count := 0;
      var node;
      status, node := FetchNode(parent, RegistryNode);
      if status != Done {
        return;
      }
      var todo := table.Keys;
      ghost var counted := {};
      while todo != {}
        invariant todo <= table.Keys && count == |counted|
        invariant counted == set k | k in CountedUnder(table, parent) && k !in todo
        decreases |todo|
      {
        var k :| k in todo;
        CountTakesChildren(parent, k);
        if Matches(parent, k) && CountsAsChild(parent, k) {
          count, counted := count + 1, counted + {k};
        }
        todo := todo - {k};
      }
      assert counted == CountedUnder(table, parent);
    }

    /**
     Collects the children into room for `size` names, which has to be more than there are; the first is
     written unchecked.
     */
    method GetChildren(parent: string, size: nat) returns (status: Status, children: seq<string>)
      requires Valid() && (size > 0 || !IsValid(parent) || ChildrenOf(table, parent) == {})
      ensures status == if IsValid(parent) && (ChildrenOf(table, parent) == {} || |ChildrenOf(table, parent)| < size)
          then Done else BadArgs
      ensures status == Done ==> Sorted(children) && Lists(children, ChildrenOf(table, parent))
      ensures status == Done ==> forall k :: k in children <==>
        (k in table && if parent == "" then k != "" && '.' !in k
         else |k| > |parent| + 1 && k[..|parent|] == parent && k[|parent|] == '.' && '.' !in k[|parent| + 1..])
      ensures status == Done ==> forall i, j :: 0 <= i < j < |children| ==> children[i] != children[j]
    {
      hide IsValid, CallbackTable.Valid, Matches, LooksLikeChild, Sorted, AllValid;
      children := [];
      if !IsValid(parent) {
        return BadArgs, children;
      }
      var todo := table.Keys;
      ghost var found := {};
      while todo != {}
        invariant todo <= table.Keys && Lists(children, found) && (children == [] || |children| < size)
        invariant found == set k | k in ChildrenOf(table, parent) && k !in todo
        decreases |todo|
      {
        var k :| k in todo;
        todo := todo - {k};
        if LooksLikeChild(parent, k) {
          ListsMore(children, found, k);
          children, found := children + [k], found + {k};
          if |children| >= size {
            FoundSome(children, found, ChildrenOf(table, parent));
            return BadArgs, children;
          }
        }
      }
      assert found == ChildrenOf(table, parent);
      FoundSome(children, found, ChildrenOf(table, parent));
      ghost var listed := children;
      children := QSort(children);
      SameList(listed, children, found);
      ChildrenAre(table, parent);
      status := Done;
    }

    /** The `i`th child in the order of `GetChildren`. */
    method GetChildRegistry(parent: string, i: nat) returns (status: Status, child: string)
      requires Valid() && Live(table, parent)
      ensures status == if !IsValid(parent) then BadArgs else if parent !in table then NotFound
                        else if !table[parent].Registry? then Failed
                        else if i < |ChildrenOf(table, parent)| then Done else NotFound
      ensures status == Done ==> child in ChildrenOf(table, parent)
      ensures status == Done ==> exists all ::
          Sorted(all) && Lists(all, ChildrenOf(table, parent)) && i < |all| && all[i] == child
    {
      hide IsValid, CallbackTable.Valid, ChildrenOf, CountedUnder, Sorted, Lists;
      child := "";
      var count;
      status, count := GetChildCount(parent);
      if status != Done {
        return;
      }
      CountCoversChildren(table, parent);
      if i >= count {
        return NotFound, child;
      }
      var children;
      status, children := GetChildren(parent, count + 1);
      ListLength(children, ChildrenOf(table, parent));
      if i >= |children| {
        return NotFound, child;
      }
      child := children[i];
    }

    /** The final event is raised on any name at all. */
    method Fin(name: string)
      requires Valid()
      modifies callbacks`invoked, callbacks`history
      ensures Valid() && Did(Step(table, FinOp(name)), Done, table, old(callbacks.history), callbacks.history,
          callbacks.callbacks)
      ensures Raised(old(callbacks.history), callbacks.history, callbacks.callbacks, [Event(Final, name)])
    {
      hide CallbackTable.Valid, Raised;
      callbacks.RaiseEvent(name, Final);
    }
  }

  /**
   A change is told: a value is set, a callback for changes registered on the name, another value set, and the same
   value set again.  The callback is called once, for the change.
   */
  method ChangeIsTold(value: int, other: int, fn: nat, arg: nat) returns (registry: LocalRegistry)
    requires value != other
    ensures fresh(registry) && registry.Valid()
    ensures "a" in registry.table && registry.table["a"] == Scalar(Int4Type, other)
    ensures registry.callbacks.invoked == [Call(Info(fn, Change, arg, "a"), Change, "a")]
  {
    hide CallbackTable.Valid, Raised, SetSpec, AllValid;
    registry := new LocalRegistry();
    ghost var h0 := registry.callbacks.history;
    NewNameIsSet(value);
    TreeIsReadable(FRESH, "a");
    var status := registry.Set("a", Scalar(Int4Type, value));
    ghost var h1 := registry.callbacks.history;
    RaisedThen([], h0, h1, map[], [Event(Add, "")], [Event(Add, "a")]);
    RaisedBare(h1, [Event(Add, "")] + [Event(Add, "a")]);
    TableFacts(registry.callbacks);
    NobodyIsTold(h1);
    status := registry.callbacks.Register("a", 0x02, fn, arg);
    ghost var cs := registry.callbacks.callbacks;
    status := registry.Set("a", Scalar(Int4Type, other));
    ghost var h2 := registry.callbacks.history;
    TableFacts(registry.callbacks);
    OneIsTold(h1, h2, cs, fn, arg);
    status := registry.Set("a", Scalar(Int4Type, other));
    TableFacts(registry.callbacks);
    NothingMore(h2, registry.callbacks.history, cs);
  }

  lemma TableFacts(callbacks: CallbackTable)
    requires callbacks.Valid()
    ensures Sound(callbacks.callbacks) && Told(callbacks.history, AllCalls(callbacks.history))
    ensures callbacks.invoked == AllCalls(callbacks.history)
  {
  }

  lemma RaisedBare(h: seq<Delivery>, events: seq<Event>)
    requires Raised([], h, map[], events)
    ensures forall d :: d in h ==> d.callbacks == map[]
  {
    forall d | d in h ensures d.callbacks == map[] {
      var i :| 0 <= i < |h| && h[i] == d;
      RaisedAt([], h, map[], events, i);
    }
  }

  lemma NothingMore(h0: seq<Delivery>, h1: seq<Delivery>, cs: Callbacks)
    requires Raised(h0, h1, cs, [])
    ensures h1 == h0
  {
  }

  lemma NewNameIsSet(value: int)
    ensures Tree(FRESH) && IsValid("a")
    ensures SetSpec(FRESH, "a", Scalar(Int4Type, value)) ==
      Outcome(Done, FRESH["a" := Scalar(Int4Type, value)], [Event(Add, "a")])
  {
    assert LastDot("a") == -1;
  }

  /** With nothing registered, nobody is told of anything. */
  lemma {:induction false} NobodyIsTold(history: seq<Delivery>)
    requires Told(history, AllCalls(history)) && forall d :: d in history ==> d.callbacks == map[]
    ensures AllCalls(history) == []
  {
    if history != [] {
      var n := |history| - 1;
      var d := history[n];
      assert d in history && forall x :: x in history[..n] ==> x in history;
      NobodyIsTold(history[..n]);
      assert forall c :: !Due(d.callbacks, d.event.name, d.event.name, d.event.action, c);
      HeadIn(d.calls);
    }
  }

  /** With one callback registered on the name for changes, a change of it calls that one, once. */
  lemma OneIsTold(h0: seq<Delivery>, h1: seq<Delivery>, cs: Callbacks, fn: nat, arg: nat)
    requires Raised(h0, h1, cs, [Event(Change, "a")]) && Told(h1, AllCalls(h1)) && Sound(cs)
    requires Changed(map[], cs, "a", fn, 0x02, Some(arg), |ACTIONS|)
    ensures AllCalls(h1) == AllCalls(h0) + [Call(Info(fn, Change, arg, "a"), Change, "a")]
  {
    hide SoundAt, Asks;
    RaisedAt(h0, h1, cs, [Event(Change, "a")], 0);
    var d := h1[|h0| + 0];
    assert h1[..|h1| - 1] == h0 && d.event == Event(Change, "a") && d.callbacks == cs;
    OneCallEach(cs, "a", Change, d.calls, "a", fn);
    AskedAreThere(map[], cs, "a", fn, 0x02, arg);
    MaskBits(0x02);
    SoundInfos(cs);
    var c := Call(Info(fn, Change, arg, "a"), Change, "a");
    forall i | 0 <= i < |d.calls| ensures d.calls[i] == c {
      var x := d.calls[i];
      assert x in d.calls && Due(cs, "a", "a", Change, x);
      assert ArgOf(cs, x.info.name, Id(x.info.fn, Change)).Some?;
    }
    AllSame(d.calls, c);
  }

  lemma HeadIn(calls: seq<Call>)
    ensures calls == [] || calls[0] in calls
  {
  }

  lemma AllSame(calls: seq<Call>, c: Call)
    requires forall i :: 0 <= i < |calls| ==> calls[i] == c
    ensures |calls| >= 2 ==> calls[0] == calls[1]
  {
  }

  /** The names the count of children takes in. */
  function CountedUnder(t: Table, parent: string): set<string> {
    set k | k in t && if parent == "" then k != "" else LooksLikeChild(parent, k)
  }

  /** The list holds each name of the set once. */
  ghost predicate Lists(s: seq<string>, names: set<string>) {
    && (forall k :: k in s <==> k in names)
    && (forall i, j :: 0 <= i < j < |s| ==> s[i] != s[j])
  }

  /** The children of a name are those one component longer. */
  lemma ChildrenAre(t: Table, parent: string)
    requires AllValid(t)
    ensures forall k :: k in ChildrenOf(t, parent) <==>
      (k in t && if parent == "" then k != "" && '.' !in k
       else |k| > |parent| + 1 && k[..|parent|] == parent && k[|parent|] == '.' && '.' !in k[|parent| + 1..])
  {
    hide LooksLikeChild, IsValid;
    forall k | k in t
      ensures LooksLikeChild(parent, k) <==>
        if parent == "" then k != "" && '.' !in k
        else |k| > |parent| + 1 && k[..|parent|] == parent && k[|parent|] == '.' && '.' !in k[|parent| + 1..]
    {
      SearchFindsChildren(parent, k);
    }
  }

  lemma ListsMore(s: seq<string>, names: set<string>, k: string)
    requires Lists(s, names) && k !in names
    ensures Lists(s + [k], names + {k})
  {
  }

  lemma ListsLess(s: seq<string>, names: set<string>)
    requires Lists(s, names) && s != []
    ensures Lists(s[..|s| - 1], names - {s[|s| - 1]})
  {
    var n := |s| - 1;
    forall k ensures k in s[..n] <==> k in s && k != s[n] {
      if k in s && k != s[n] {
        var i :| 0 <= i < |s| && s[i] == k;
        assert s[..n][i] == k;
      }
    }
  }

  lemma {:induction false} ListLength(s: seq<string>, names: set<string>)
    requires Lists(s, names)
    ensures |s| == |names| && forall i :: 0 <= i < |s| ==> s[i] in names
  {
    if s != [] {
      var n := |s| - 1;
      assert s == s[..n] + [s[n]];
      ListsLess(s, names);
      ListLength(s[..n], names - {s[n]});
    } else {
      assert names == {};
    }
  }

  lemma FoundSome(s: seq<string>, found: set<string>, all: set<string>)
    requires Lists(s, found) && found <= all
    ensures |s| == |found| <= |all|
  {
    ListLength(s, found);
    assert all == found + (all - found);
  }

  lemma SameList(s: seq<string>, r: seq<string>, names: set<string>)
    requires Lists(s, names) && multiset(r) == multiset(s)
    ensures Lists(r, names)
  {
    forall k ensures k in r <==> k in s {
      assert k in r <==> k in multiset(r);
    }
    forall i, j | 0 <= i < j < |r| ensures r[i] != r[j] {
      OnceInList(s, names, r[i]);
      TwiceInList(r, i, j);
    }
  }

  lemma {:induction false} OnceInList(s: seq<string>, names: set<string>, k: string)
    requires Lists(s, names)
    ensures multiset(s)[k] <= 1
  {
    if s != [] {
      var n := |s| - 1;
      assert s == s[..n] + [s[n]];
      ListsLess(s, names);
      OnceInList(s[..n], names - {s[n]}, k);
      assert s[n] !in s[..n];
    }
  }

  lemma TwiceInList(r: seq<string>, i: nat, j: nat)
    requires i < j < |r|
    ensures r[i] == r[j] ==> multiset(r)[r[i]] >= 2
  {
    assert r == r[..j] + [r[j]] + r[j + 1..];
    assert r[..j][i] == r[i];
  }

  /** The count is the number of children, or for the root at least that. */
  lemma CountCoversChildren(t: Table, parent: string)
    ensures |ChildrenOf(t, parent)| <= |CountedUnder(t, parent)|
    ensures parent != "" ==> CountedUnder(t, parent) == ChildrenOf(t, parent)
    ensures parent == "" && "" in t ==> |CountedUnder(t, parent)| == |t| - 1
  {
    if parent == "" {
      assert CountedUnder(t, "") == t.Keys - {""};
      assert CountedUnder(t, "") == ChildrenOf(t, "") + (CountedUnder(t, "") - ChildrenOf(t, ""));
    } else {
      assert CountedUnder(t, parent) == ChildrenOf(t, parent);
    }
  }

  /** The root's count is the number of its children exactly when no name has a second component. */
  lemma RootCountIff(t: Table)
    requires AllValid(t)
    ensures |CountedUnder(t, "")| == |ChildrenOf(t, "")| <==> forall k :: k in t ==> NoDot(k)
  {
    var counted, children := CountedUnder(t, ""), ChildrenOf(t, "");
    assert counted == children + (counted - children);
    forall k | k in t ensures k in counted && k !in children <==> !NoDot(k) {
      if k != "" {
        assert k[0] != '.' by { assert IsValid(k); }
        assert forall i :: 0 < i < |k| ==> k[1..][i - 1] == k[i];
      }
    }
  }

  /** A root with one child and one grandchild counts two. */
  lemma RootCountsGrandchildren()
    ensures var t: Table := map["" := Registry, "a" := Registry, "a.b" := Registry];
      Tree(t) && |CountedUnder(t, "")| == 2 && |ChildrenOf(t, "")| == 1
  {
    var t: Table := map["" := Registry, "a" := Registry, "a.b" := Registry];
    forall a, k | k in t && Ancestor(a, k) ensures a in t && t[a].Registry? {
      assert k == "a.b" && |a| == 1 && a == "a.b"[..1] == "a";
    }
    assert IsValid("") && IsValid("a") && IsValid("a.b");
    assert CountedUnder(t, "") == {"a", "a.b"};
    assert "a.b"[1..][0] == '.' && "a"[1..] == "";
    assert ChildrenOf(t, "") == {"a"};
  }

  lemma NothingRaised(h: seq<Delivery>, cs: Callbacks)
    ensures Raised(h, h, cs, [])
  {
  }

  lemma RootIsValid()
    ensures IsValid("")
  {
  }

  /** What a delete keeps: all but the name and what lies beneath it. */
  lemma KeptAre(t: Table, name: string)
    requires name != ""
    ensures forall k :: k in RegistrySpec.Without(t, name) <==>
              (k in t && k != name && !(|name| < |k| && k[..|name|] == name && k[|name|] == '.'))
    ensures forall k :: k in RegistrySpec.Without(t, name) ==> RegistrySpec.Without(t, name)[k] == t[k]
  {
  }

  /** With everything gone, setting the root enters it. */
  lemma RootAgain(t: Table)
    requires t == Without(t, "")
    ensures t == map[] && Readable(t, "") && SetSpec(t, "", Registry) ==
        Outcome(Done, map["" := Registry], [Event(Add, "")])
  {
  }
}
