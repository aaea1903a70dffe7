/**
 The registry as a table from names to nodes: what each operation does to it and which
 change events it raises, and when the table keeps being a tree.
 */
module RegistrySpec {
  import opened RegistryNames

  datatype ScalarType = CharType | UCharType | Int2Type | UInt2Type | Int4Type | UInt4Type | Int8Type | UInt8Type
  datatype ArrayType = BytesType | StringType
  datatype Node =
    | Registry
    | Scalar(scalarType: ScalarType, value: int)
    | Array(arrayType: ArrayType, data: seq<bv8>)
    | Freed // what a failed insert leaves behind: an entry whose node was released

  datatype Status = Done | NotFound | Already | BadArgs | Failed
  datatype Action = Add | Change | Delete | Final
  datatype Event = Event(action: Action, name: string)

  type Table = map<string, Node>

  datatype Outcome = Outcome(status: Status, table: Table, events: seq<Event>)

  datatype NodeType = RegistryNode | ScalarNode(scalarType: ScalarType) | ArrayNode(arrayType: ArrayType)

  predicate HasType(node: Node, nodeType: NodeType) {
    match node
    case Registry => nodeType == RegistryNode
    case Scalar(t, _) => nodeType == ScalarNode(t)
    case Array(t, _) => nodeType == ArrayNode(t)
    case Freed => false
  }

  function TypeOf(node: Node): (t: NodeType)
    requires !node.Freed?
    ensures HasType(node, t)
  {
    match node
    case Registry => RegistryNode
    case Scalar(t, _) => ScalarNode(t)
    case Array(t, _) => ArrayNode(t)
  }

  predicate SameType(a: Node, b: Node) {
    !b.Freed? && HasType(a, TypeOf(b))
  }

  // ---------------------------------------------------------- the operations

  /** The name is entered first; its parent is set after it, and the event raised last. */
  function InsertSpec(t: Table, name: string, node: Node): (o: Outcome)
    decreases |name|, 1
  {
    if !IsValid(name) then Outcome(BadArgs, t, [])
    else if name in t then Outcome(Already, t, [])
    else
      var up := SetParentSpec(t[name := node], name);
      if up.status != Done then up else up.(events := up.events + [Event(Add, name)])
  }

  function SetParentSpec(t: Table, name: string): (o: Outcome)
    decreases |name|, 0
  {
    if LastDot(name) < 0 then Outcome(Done, t, []) else SetSpec(t, name[..LastDot(name)], Registry)
  }

  /** Setting a registry, scalar or array; a failed insert releases all nodes but an array's. */
  function SetSpec(t: Table, name: string, node: Node): (o: Outcome)
    decreases |name|, 2
  {
    if !IsValid(name) then Outcome(BadArgs, t, [])
    else if name !in t then
      var o := InsertSpec(t, name, node);
      if o.status == Done || node.Array? then o else o.(table := o.table[name := Freed])
    else if !SameType(t[name], node) then Outcome(Failed, t, [])
    else if t[name] == node then Outcome(Done, t, [])
    else Outcome(Done, t[name := node], [Event(Change, name)])
  }

  predicate Beneath(top: string, name: string) {
    top == "" || Within(top, name)
  }

  function Without(t: Table, top: string): Table {
    map k | k in t && !Beneath(top, k) :: t[k]
  }

  function DeleteSpec(t: Table, name: string): (o: Outcome) {
    if !IsValid(name) then Outcome(BadArgs, t, [])
    else if name == "" then
      var o := SetSpec(Without(t, name), "", Registry);
      o.(events := [Event(Delete, name)] + o.events)
    else Outcome(Done, Without(t, name), [Event(Delete, name)])
  }

  // ------------------------------------------------------------ being a tree

  /** Each name's ancestors are there, as registries, up to the root. */
  ghost predicate Tree(t: Table) {
    && "" in t && t[""].Registry?
    && (forall k :: k in t ==> IsValid(k) && !t[k].Freed?)
    && (forall a, k :: k in t && Ancestor(a, k) ==> a in t && t[a].Registry?)
  }

  /** No ancestor of the name is taken by something other than a registry, or has an illegal name. */
  ghost predicate Fits(t: Table, name: string) {
    forall a :: Ancestor(a, name) ==> IsValid(a) && (a in t ==> t[a].Registry?)
  }

  /** The ancestors of the registries on the way to `name` are registries. */
  ghost predicate ClosedOn(t: Table, name: string) {
    forall a, b :: Ancestor(b, name) && b in t && t[b].Registry? && Ancestor(a, b) ==>
      IsValid(a) && a in t && t[a].Registry?
  }

  /** The ancestors that have to be made for `name`, outermost first. */
  function Missing(t: Table, name: string): (m: seq<string>)
    ensures forall a :: a in m ==> |a| < |name|
    decreases |name|
  {
    if LastDot(name) < 0 then []
    else
      var p := name[..LastDot(name)];
      if p in t then [] else Missing(t, p) + [p]
  }

  function Adds(names: seq<string>): (events: seq<Event>)
    ensures |events| == |names| && forall i :: 0 <= i < |names| ==> events[i] == Event(Add, names[i])
  {
    seq(|names|, i requires 0 <= i < |names| => Event(Add, names[i]))
  }

  /** The table with `name` entered and registries for the names in `made`. */
  function Grown(t: Table, made: seq<string>, name: string, node: Node): Table {
    map k | k in t.Keys + (set a | a in made) + {name} :: if k == name then node else if k in t then t[k] else Registry
  }

  /** Missing lists just the absent ancestors, each after its own ancestors. */
  lemma {:induction false} MissingAreAncestors(t: Table, name: string)
    requires ClosedOn(t, name) && Fits(t, name)
    ensures var m := Missing(t, name);
      && (forall a :: a in m <==> Ancestor(a, name) && a !in t)
      && (forall i, j :: 0 <= i < j < |m| ==> |m[i]| < |m[j]|)
    decreases |name|
  {
    var d := LastDot(name);
    if d >= 0 {
      var p := name[..d];
      OnParent(t, name);
      forall a ensures Ancestor(a, name) <==> a == p || Ancestor(a, p) {
        AncestorsOfParent(a, name);
      }
      if p !in t {
        MissingAreAncestors(t, p);
      }
    } else {
      forall a ensures !Ancestor(a, name) {
        AncestorsOfParent(a, name);
      }
    }
  }

  /** What holds on the way to a name holds on the way to its parent. */
  lemma OnParent(t: Table, name: string)
    requires LastDot(name) >= 0
    ensures var p := name[..LastDot(name)];
      && Ancestor(p, name)
      && (ClosedOn(t, name) ==> ClosedOn(t, p))
      && (Fits(t, name) <==> IsValid(p) && (p in t ==> t[p].Registry?) && Fits(t, p))
      && (ClosedOn(t, name) && p in t && t[p].Registry? ==> Fits(t, p))
  {
    var p := name[..LastDot(name)];
    forall a ensures Ancestor(a, name) <==> a == p || Ancestor(a, p) {
      AncestorsOfParent(a, name);
    }
  }

  /** Entering the name itself changes nothing on the way to it. */
  lemma EnteredKeepsWay(t: Table, name: string, node: Node)
    requires LastDot(name) >= 0
    ensures var p := name[..LastDot(name)];
      && (ClosedOn(t, p) <==> ClosedOn(t[name := node], p))
      && (Fits(t, p) <==> Fits(t[name := node], p))
      && Missing(t, p) == Missing(t[name := node], p)
  {
    MissingSkipsLonger(t, name[..LastDot(name)], name, node);
  }

  lemma {:induction false} MissingSkipsLonger(t: Table, p: string, name: string, node: Node)
    requires |p| < |name|
    ensures Missing(t, p) == Missing(t[name := node], p)
    decreases |p|
  {
    if LastDot(p) >= 0 {
      MissingSkipsLonger(t, p[..LastDot(p)], name, node);
    }
  }

  lemma GrownMore(t: Table, m: seq<string>, p: string, name: string, node: Node)
    requires name !in t && name !in m && p != name && p !in t
    ensures Grown(t[name := node], m, p, Registry) == Grown(t, m + [p], name, node)
  {
  }

  /** Whatever becomes of an insert or a set, the entries of other names stay as they are. */
  lemma {:induction false} OthersStay(t: Table, name: string, node: Node, k: string)
    requires k in t && (k != name || node.Registry?)
    ensures k in InsertSpec(t, name, node).table && InsertSpec(t, name, node).table[k] == t[k]
    ensures k in SetSpec(t, name, node).table && SetSpec(t, name, node).table[k] == t[k]
    decreases |name|
  {
    if LastDot(name) >= 0 {
      OthersStay(t[name := node], name[..LastDot(name)], Registry, k);
    }
  }

  predicate AllValid(t: Table) {
    forall k :: k in t ==> IsValid(k)
  }

  /** The name was entered, but its parent is no registry. */
  predicate StuckBelow(t: Table, name: string) {
    name in t && LastDot(name) >= 0 && var p := name[..LastDot(name)]; !(p in t && t[p].Registry?)
  }

  /** An insert succeeds exactly when the name fits; then it adds the missing ancestors, outermost first. */
  lemma {:induction false} InsertOutcome(t: Table, name: string, node: Node)
    requires IsValid(name) && name !in t && ClosedOn(t, name) && AllValid(t)
    ensures var o := InsertSpec(t, name, node);
      && (o.status == Done <==> Fits(t, name))
      && (o.status == Done ==>
            && o.table == Grown(t, Missing(t, name), name, node)
            && o.events == Adds(Missing(t, name)) + [Event(Add, name)])
      && (o.status != Done ==> o.events == [] && StuckBelow(o.table, name))
    decreases |name|
  {
    hide ClosedOn, Fits, Ancestor, IsValid, SetSpec, AllValid, StuckBelow;
    if LastDot(name) < 0 {
      NoAncestors(t, name, node);
    } else {
      ParentOutcome(t, name, node);
    }
  }

  lemma NoAncestors(t: Table, name: string, node: Node)
    requires LastDot(name) < 0
    ensures Fits(t, name) && Grown(t, Missing(t, name), name, node) == t[name := node]
  {
    forall a ensures !Ancestor(a, name) {
      AncestorsOfParent(a, name);
    }
  }

  lemma ParentOutcome(t: Table, name: string, node: Node)
    requires IsValid(name) && name !in t && ClosedOn(t, name) && AllValid(t) && LastDot(name) >= 0
    ensures var up := SetParentSpec(t[name := node], name);
      && (up.status == Done <==> Fits(t, name))
      && (up.status == Done ==>
          up.table == Grown(t, Missing(t, name), name, node) && up.events == Adds(Missing(t, name)))
      && (up.status != Done ==> up.events == [] && StuckBelow(up.table, name))
    decreases |name|, 0
  {
    hide ClosedOn, Fits, Ancestor, IsValid, InsertSpec, Adds, Missing;
    MissingUnfolds(t, name);
    var p, t1 := name[..LastDot(name)], t[name := node];
    OnParent(t, name);
    EnteredKeepsWay(t, name, node);
    if IsValid(p) && p !in t {
      InsertOutcome(t1, p, Registry);
      if Fits(t, p) {
        MissingAreAncestors(t, p);
        GrownMore(t, Missing(t, p), p, name, node);
        AddsMore(Missing(t, p), p);
      }
    }
    AddsNone();
    OthersStay(t1, p, Registry, name);
  }

  lemma MissingUnfolds(t: Table, name: string)
    requires LastDot(name) >= 0
    ensures var p := name[..LastDot(name)]; Missing(t, name) == if p in t then [] else Missing(t, p) + [p]
  {
  }

  lemma AddsMore(names: seq<string>, name: string)
    ensures Adds(names + [name]) == Adds(names) + [Event(Add, name)]
  {
  }

  lemma AddsNone()
    ensures Adds([]) == []
  {
  }

  lemma TreeCloses(t: Table, name: string)
    requires Tree(t)
    ensures ClosedOn(t, name) && AllValid(t)
  {
  }

  ghost predicate LegalNames(events: seq<Event>) {
    forall e :: e in events ==> IsValid(e.name)
  }

  /** Only legal names are ever told of a set. */
  lemma {:induction false} SetTellsLegalNames(t: Table, name: string, node: Node)
    ensures LegalNames(SetSpec(t, name, node).events) && LegalNames(InsertSpec(t, name, node).events)
    decreases |name|
  {
    hide IsValid;
    var up := SetParentSpec(t[name := node], name);
    if LastDot(name) >= 0 {
      SetTellsLegalNames(t[name := node], name[..LastDot(name)], Registry);
    }
    assert LegalNames(up.events);
    assert IsValid(name) ==> LegalNames(up.events + [Event(Add, name)]);
    assert IsValid(name) ==> LegalNames([Event(Change, name)]);
  }

  // -------------------------------------------------------------- the theorems

  /** Setting an absent name that fits: all missing ancestors are added, outermost first, then the name. */
  lemma SetAbsent(t: Table, name: string, node: Node)
    requires Tree(t) && IsValid(name) && name !in t && Fits(t, name)
    ensures var o, m := SetSpec(t, name, node), Missing(t, name);
      && o == Outcome(Done, Grown(t, m, name, node), Adds(m) + [Event(Add, name)])
      && (forall a :: a in m <==> Ancestor(a, name) && a !in t)
      && (forall i, j :: 0 <= i < j < |m| ==> |m[i]| < |m[j]| < |name|)
      && (forall k :: k in o.table <==> k in t || k in m || k == name)
      && o.table[name] == node && (forall k :: k in t ==> o.table[k] == t[k])
      && (forall k :: k in m ==> o.table[k] == Registry)
  {
    hide ClosedOn, Fits, Ancestor, IsValid, Tree, AllValid, SetSpec, InsertSpec, Missing;
    TreeCloses(t, name);
    SetNew(t, name, node);
    InsertOutcome(t, name, node);
    MissingAreAncestors(t, name);
  }

  lemma SetNew(t: Table, name: string, node: Node)
    requires IsValid(name) && name !in t
    ensures InsertSpec(t, name, node).status == Done ==> SetSpec(t, name, node) == InsertSpec(t, name, node)
  {
  }

  /**
   Setting a name that is there: another value of the same type takes its place and is told as one change, the same
   value changes nothing, and a value of another type is refused.
   */
  lemma SetPresent(t: Table, name: string, node: Node)
    requires IsValid(name) && name in t
    ensures var was, o := t[name], SetSpec(t, name, node);
      if || (was.Registry? && node.Registry?)
         || (was.Scalar? && node.Scalar? && was.scalarType == node.scalarType)
         || (was.Array? && node.Array? && was.arrayType == node.arrayType)
      then o == if was != node then Outcome(Done, t[name := node], [Event(Change, name)]) else Outcome(Done, t, [])
      else o == Outcome(Failed, t, [])
  {
  }

  /** An illegal name is refused by every operation that checks it. */
  lemma IllegalIsRefused(t: Table, name: string, node: Node)
    requires !IsValid(name)
    ensures SetSpec(t, name, node) == Outcome(BadArgs, t, []) && DeleteSpec(t, name) == Outcome(BadArgs, t, [])
  {
  }

  /** A set that returns success is read back, and leaves every other entry as it was. */
  lemma SetThenGet(t: Table, name: string, node: Node)
    requires Tree(t) && SetSpec(t, name, node).status == Done
    ensures var t2 := SetSpec(t, name, node).table;
      name in t2 && t2[name] == node && forall k :: k in t && k != name ==> k in t2 && t2[k] == t[k]
  {
    hide ClosedOn, Fits, Ancestor, Tree, AllValid;
    TreeCloses(t, name);
    if IsValid(name) && name !in t {
      InsertOutcome(t, name, node);
    }
    forall k | k in t && k != name ensures k in SetSpec(t, name, node).table
        && SetSpec(t, name, node).table[k] == t[k] {
      OthersStay(t, name, node, k);
    }
  }

  lemma {:induction false} GrownIsTree(t: Table, name: string, node: Node)
    requires Tree(t) && IsValid(name) && name !in t && Fits(t, name) && !node.Freed?
    ensures Tree(Grown(t, Missing(t, name), name, node))
  {
    TreeCloses(t, name);
    MissingAreAncestors(t, name);
    var m, t2 := Missing(t, name), Grown(t, Missing(t, name), name, node);
    forall a, k | k in t2 && Ancestor(a, k) ensures a in t2 && t2[a].Registry? {
      if k !in t && k != name { AncestorTransitive(a, k, name); }
    }
  }

  lemma StuckIsNoTree(t: Table, name: string)
    requires StuckBelow(t, name)
    ensures !Tree(t)
  {
    AncestorsOfParent(name[..LastDot(name)], name);
  }

  /** A set keeps the tree, unless the name is new and does not fit; then it always breaks it. */
  lemma SetKeepsTree(t: Table, name: string, node: Node)
    requires Tree(t) && !node.Freed?
    ensures Tree(SetSpec(t, name, node).table) <==> (!IsValid(name) || name in t || Fits(t, name))
  {
    hide ClosedOn, Fits, Ancestor, AllValid, Missing, Grown, StuckBelow, InsertSpec, LastDot;
    TreeCloses(t, name);
    if IsValid(name) && name !in t {
      InsertOutcome(t, name, node);
      if Fits(t, name) {
        GrownIsTree(t, name, node);
      } else {
        StuckStays(InsertSpec(t, name, node).table, name);
        StuckIsNoTree(SetSpec(t, name, node).table, name);
      }
    }
  }

  lemma StuckStays(t: Table, name: string)
    requires StuckBelow(t, name)
    ensures StuckBelow(t[name := Freed], name)
  {
  }

  /** A set on a new name that does not fit fails, with no event; but the entry stays, beneath no registry. */
  lemma SetUnfit(t: Table, name: string, node: Node)
    requires Tree(t) && IsValid(name) && name !in t && !Fits(t, name)
    ensures var o := SetSpec(t, name, node);
      && o.status != Done && o.events == [] && StuckBelow(o.table, name)
      && o.table[name] == (if node.Array? then node else Freed)
  {
    hide ClosedOn, Fits, Ancestor, AllValid, Tree, IsValid, StuckBelow, SetParentSpec;
    TreeCloses(t, name);
    InsertOutcome(t, name, node);
    StuckStays(InsertSpec(t, name, node).table, name);
    EntryStays(t, name, node);
  }

  lemma EntryStays(t: Table, name: string, node: Node)
    requires IsValid(name) && name !in t
    ensures var t2 := InsertSpec(t, name, node).table; name in t2 && t2[name] == node
  {
    if LastDot(name) >= 0 {
      OthersStay(t[name := node], name[..LastDot(name)], Registry, name);
    }
  }

  /** A delete removes the name and all beneath it, keeps the rest, and the root with it. */
  lemma DeleteOutcome(t: Table, name: string)
    requires Tree(t) && IsValid(name)
    ensures var o := DeleteSpec(t, name);
      && o.status == Done && Tree(o.table) && "" in o.table
      && (forall k :: k != "" ==> (k in o.table <==> k in t && !Beneath(name, k)))
      && (forall k :: k in o.table ==> k in t && o.table[k] == t[k])
      && o.events == [Event(Delete, name)] + (if name == "" then [Event(Add, "")] else [])
  {
    if name == "" {
      assert SetSpec(map[], "", Registry) == Outcome(Done, map["" := Registry], [Event(Add, "")]);
      assert Without(t, name) == map[];
    } else {
      forall a, k | k in Without(t, name) && Ancestor(a, k) ensures !Within(name, a) {
        if Ancestor(name, a) { AncestorTransitive(name, a, k); }
      }
    }
  }

  /** Deleting a name just set leaves what was there, and the ancestors that were made for it. */
  lemma SetThenDelete(t: Table, name: string, node: Node)
    requires Tree(t) && IsValid(name) && name !in t && Fits(t, name)
    ensures var t2 := DeleteSpec(SetSpec(t, name, node).table, name).table;
      && (forall k :: k in t2 <==> k in t || k in Missing(t, name))
      && (forall k :: k in t2 ==> t2[k] == if k in t then t[k] else Registry)
  {
    hide InsertSpec, SetSpec, Missing, Fits, IsValid;
    SetAbsent(t, name, node);
    var grown := Grown(t, Missing(t, name), name, node);
    forall k | k in grown && k != name ensures !Within(name, k) {
      if Ancestor(name, k) && Ancestor(k, name) { AncestorTransitive(name, k, name); }
    }
  }

  // ------------------------------------------------------------- whole runs

  datatype Op = SetOp(name: string, node: Node) | DeleteOp(name: string) | FinOp(name: string)

  function Step(t: Table, op: Op): (o: Outcome) {
    match op
    case SetOp(name, node) => SetSpec(t, name, node)
    case DeleteOp(name) => DeleteSpec(t, name)
    case FinOp(name) => Outcome(Done, t, [Event(Final, name)])
  }

  /** What a caller can check before an operation: a new name has to fit. */
  ghost predicate OpFits(t: Table, op: Op) {
    op.SetOp? ==> !IsValid(op.name) || op.name in t || Fits(t, op.name)
  }

  /** The set operations offered: any node but a released one. */
  predicate Offered(op: Op) {
    op.SetOp? ==> !op.node.Freed?
  }

  lemma StepKeepsTree(t: Table, op: Op)
    requires Tree(t) && Offered(op)
    ensures Tree(Step(t, op).table) <==> OpFits(t, op)
  {
    hide Fits, Without, SetSpec, Beneath;
    match op
    case SetOp(name, node) => SetKeepsTree(t, name, node);
    case DeleteOp(name) => if IsValid(name) { DeleteOutcome(t, name); }
    case FinOp(name) =>
  }

  function Run(t: Table, ops: seq<Op>): (r: Table) {
    if ops == [] then t else Step(Run(t, ops[..|ops| - 1]), ops[|ops| - 1]).table
  }

  const FRESH: Table := map["" := Registry]

  /** The tree holds after every step of a run exactly when every operation fits where it is made. */
  lemma {:induction false} RunKeepsTree(ops: seq<Op>)
    requires forall op :: op in ops ==> Offered(op)
    ensures (forall n :: 0 <= n <= |ops| ==> Tree(Run(FRESH, ops[..n])))
       <==> (forall n :: 0 <= n < |ops| ==> OpFits(Run(FRESH, ops[..n]), ops[n]))
  {
    hide Tree, OpFits, Step;
    if forall n :: 0 <= n < |ops| ==> OpFits(Run(FRESH, ops[..n]), ops[n]) {
      forall n | 0 <= n <= |ops| ensures Tree(Run(FRESH, ops[..n])) {
        TreeAfter(ops, n);
      }
    } else if forall n :: 0 <= n <= |ops| ==> Tree(Run(FRESH, ops[..n])) {
      forall n | 0 <= n < |ops| ensures OpFits(Run(FRESH, ops[..n]), ops[n]) {
        assert ops[..n + 1][..n] == ops[..n] && ops[n] in ops;
        StepKeepsTree(Run(FRESH, ops[..n]), ops[n]);
      }
    }
  }

  lemma {:induction false} TreeAfter(ops: seq<Op>, n: nat)
    requires n <= |ops| && forall op :: op in ops ==> Offered(op)
    requires forall k :: 0 <= k < |ops| ==> OpFits(Run(FRESH, ops[..k]), ops[k])
    ensures Tree(Run(FRESH, ops[..n]))
  {
    hide OpFits, Step;
    if n > 0 {
      TreeAfter(ops, n - 1);
      assert ops[..n][..n - 1] == ops[..n - 1] && ops[n - 1] in ops;
      StepKeepsTree(Run(FRESH, ops[..n - 1]), ops[n - 1]);
    }
  }
}
