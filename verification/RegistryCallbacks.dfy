/**
 The callbacks registered on names, and how an event on a name reaches them: level by
 level, from the name itself up to the root.
 */
module RegistryCallbacks {
  import opened Options
  import opened RegistryNames
  import opened RegistrySpec

  /** A callback function and the action it watches. */
  datatype Id = Id(fn: nat, action: Action)
  datatype Info = Info(fn: nat, action: Action, arg: nat, name: string)
  /** An invocation: the registration served, and the action and name it is told. */
  datatype Call = Call(info: Info, action: Action, name: string)
  type Callbacks = map<string, map<Id, Info>>

  /** One raised event, the registrations it met, and the invocations it led to. */
  datatype Delivery = Delivery(event: Event, callbacks: Callbacks, calls: seq<Call>)

  const ACTIONS: seq<Action> := [Add, Delete, Change, Final]

  function MaskOf(action: Action): bv8 {
    match action
    case Add => 1
    case Change => 2
    case Delete => 4
    case Final => 64
  }

  const KNOWN: bv8 := 0x47

  predicate Asks(mask: bv8, action: Action) {
    mask & MaskOf(action) != 0
  }

  function Drop(mask: bv8, action: Action): bv8 {
    mask & !MaskOf(action)
  }

  predicate AsksKnown(mask: bv8) {
    mask & KNOWN != 0
  }

  predicate AsksUnknown(mask: bv8) {
    mask & !KNOWN != 0
  }

  /** Which bit means which action. */
  lemma MaskBits(mask: bv8)
    ensures Asks(mask, Add) <==> mask & 0x01 != 0
    ensures Asks(mask, Change) <==> mask & 0x02 != 0
    ensures Asks(mask, RegistrySpec.Delete) <==> mask & 0x04 != 0
    ensures Asks(mask, Final) <==> mask & 0x40 != 0
    ensures AsksKnown(mask) <==> mask & 0x47 != 0
    ensures AsksUnknown(mask) <==> mask & 0xb8 != 0
  {
  }

  // ---------------------------------------------------------- specification

  /** The table of one name: not empty, and each entry says what it is filed under. */
  ghost predicate SoundAt(name: string, infos: map<Id, Info>) {
    && IsValid(name) && infos != map[]
    && forall id :: id in infos ==> infos[id].fn == id.fn && infos[id].action == id.action && infos[id].name == name
  }

  ghost predicate Sound(cs: Callbacks) {
    forall n :: n in cs ==> SoundAt(n, cs[n])
  }

  function ArgOf(cs: Callbacks, name: string, id: Id): Option<nat> {
    if name in cs && id in cs[name] then Some(cs[name][id].arg) else None
  }

  /** One registration added, or its argument replaced. */
  function WithOne(cs: Callbacks, name: string, id: Id, arg: nat): Callbacks {
    cs[name := (if name in cs then cs[name] else map[])[id := Info(id.fn, id.action, arg, name)]]
  }

  /** One registration taken out, and the name with its last one. */
  function SansOne(cs: Callbacks, name: string, id: Id): Callbacks {
    if name !in cs then cs
    else if |cs[name] - {id}| == 0 then cs - {name}
    else cs[name := cs[name] - {id}]
  }

  lemma WithOneSound(cs: Callbacks, name: string, id: Id, arg: nat)
    requires Sound(cs) && IsValid(name)
    ensures Sound(WithOne(cs, name, id, arg))
  {
    WithSoundAt(name, if name in cs then cs[name] else map[], id, arg);
    hide SoundAt;
  }

  lemma WithSoundAt(name: string, infos: map<Id, Info>, id: Id, arg: nat)
    requires IsValid(name) && (infos == map[] || SoundAt(name, infos))
    ensures SoundAt(name, infos[id := Info(id.fn, id.action, arg, name)])
  {
    assert id in infos[id := Info(id.fn, id.action, arg, name)];
  }

  lemma WithOneIs(cs: Callbacks, name: string, id: Id, arg: nat, n: string, i: Id)
    ensures ArgOf(WithOne(cs, name, id, arg), n, i) == if n == name && i == id then Some(arg) else ArgOf(cs, n, i)
  {
  }

  lemma WithOneAll(cs: Callbacks, name: string, id: Id, arg: nat)
    requires Sound(cs) && IsValid(name)
    ensures Sound(WithOne(cs, name, id, arg))
    ensures forall n, i :: ArgOf(WithOne(cs, name, id, arg), n, i) == if n == name && i == id then Some(arg)
        else ArgOf(cs, n, i)
  {
    hide *;
    WithOneSound(cs, name, id, arg);
    forall n, i ensures ArgOf(WithOne(cs, name, id, arg), n, i) == if n == name && i == id then Some(arg)
        else ArgOf(cs, n, i) {
      WithOneIs(cs, name, id, arg, n, i);
    }
  }

  lemma SansOneSound(cs: Callbacks, name: string, id: Id)
    requires Sound(cs)
    ensures Sound(SansOne(cs, name, id))
  {
    if name in cs && |cs[name] - {id}| != 0 {
      SansSoundAt(name, cs[name], id);
    }
    hide SoundAt;
  }

  lemma SansSoundAt(name: string, infos: map<Id, Info>, id: Id)
    requires SoundAt(name, infos) && |infos - {id}| != 0
    ensures SoundAt(name, infos - {id})
  {
  }

  lemma SansOneIs(cs: Callbacks, name: string, id: Id, n: string, i: Id)
    ensures ArgOf(SansOne(cs, name, id), n, i) == if n == name && i == id then None else ArgOf(cs, n, i)
  {
    if name in cs && |cs[name] - {id}| == 0 {
      EmptyMap(cs[name] - {id});
      assert cs[name].Keys - {id} == {};
    }
  }

  lemma SansOneAll(cs: Callbacks, name: string, id: Id)
    requires Sound(cs)
    ensures Sound(SansOne(cs, name, id))
    ensures forall n, i :: ArgOf(SansOne(cs, name, id), n, i) == if n == name && i == id then None else ArgOf(cs, n, i)
  {
    hide *;
    SansOneSound(cs, name, id);
    forall n, i ensures ArgOf(SansOne(cs, name, id), n, i) == if n == name && i == id then None else ArgOf(cs, n, i) {
      SansOneIs(cs, name, id, n, i);
    }
  }

  lemma EmptyMap(m: map<Id, Info>)
    requires |m| == 0
    ensures m == map[]
  {
    assert m.Keys == {};
  }

  /** From `cs0` to `cs1`, the function's registrations on the name for the first `k` actions were set to `arg`. */
  ghost predicate Changed(cs0: Callbacks, cs1: Callbacks, name: string, fn: nat, mask: bv8, arg: Option<nat>, k: nat) {
    forall n, id :: ArgOf(cs1, n, id) ==
      if n == name && id.fn == fn && IndexOf(id.action) < k && Asks(mask, id.action) then arg else ArgOf(cs0, n, id)
  }

  lemma ChangedStep(cs0: Callbacks, cs1: Callbacks, cs2: Callbacks, name: string, fn: nat, mask: bv8,
      arg: Option<nat>, k: nat)
    requires Changed(cs0, cs1, name, fn, mask, arg, k) && k < |ACTIONS|
    requires if !Asks(mask, ACTIONS[k]) then cs2 == cs1
             else forall n, id :: ArgOf(cs2, n, id) == if n == name && id == Id(fn, ACTIONS[k]) then arg
                 else ArgOf(cs1, n, id)
    ensures Changed(cs0, cs2, name, fn, mask, arg, k + 1)
  {
    hide ArgOf, Asks;
    ActionAt(k);
    forall n, id
      ensures ArgOf(cs2, n, id) ==
        if n == name && id.fn == fn && IndexOf(id.action) < k + 1 && Asks(mask, id.action) then arg
            else ArgOf(cs0, n, id)
    {
    }
  }

  /** A level an event on `name` passes. */
  predicate OnWay(level: string, name: string) {
    level == name || Ancestor(level, name) || level == ""
  }

  /** `c` is a registration for the action on a level between `top` and the root, told of `name`. */
  predicate Due(cs: Callbacks, name: string, top: string, action: Action, c: Call) {
    && c.action == action && c.name == name && c.info.action == action
    && OnWay(c.info.name, top)
    && c.info.name in cs && Id(c.info.fn, action) in cs[c.info.name] && cs[c.info.name][Id(c.info.fn, action)] == c.info
  }

  /** Each call due was made, once, the deepest level first. */
  ghost predicate Bubbled(cs: Callbacks, name: string, top: string, action: Action, calls: seq<Call>) {
    && (forall c :: c in calls <==> Due(cs, name, top, action, c))
    && (forall i, j :: 0 <= i < j < |calls| ==> calls[i] != calls[j])
    && (forall i, j :: 0 <= i < j < |calls| ==> |calls[i].info.name| >= |calls[j].info.name|)
  }

  function AllCalls(history: seq<Delivery>): seq<Call> {
    if history == [] then [] else AllCalls(history[..|history| - 1]) + history[|history| - 1].calls
  }

  /** The log holds the invocations of each event raised, event after event. */
  ghost predicate Told(history: seq<Delivery>, invoked: seq<Call>) {
    && invoked == AllCalls(history)
    && forall i :: 0 <= i < |history| ==>
         var d := history[i]; Bubbled(d.callbacks, d.event.name, d.event.name, d.event.action, d.calls)
  }

  /** Since `h0` the events were raised in order, and met the registrations `cs`. */
  ghost predicate Raised(h0: seq<Delivery>, h1: seq<Delivery>, cs: Callbacks, events: seq<Event>) {
    && |h1| == |h0| + |events| && h1[..|h0|] == h0
    && forall i :: 0 <= i < |events| ==> h1[|h0| + i].event == events[i] && h1[|h0| + i].callbacks == cs
  }

  /** The events raised, and the registrations they met, one by one. */
  lemma RaisedAt(h0: seq<Delivery>, h: seq<Delivery>, cs: Callbacks, events: seq<Event>, i: nat)
    requires Raised(h0, h, cs, events) && i < |h| - |h0|
    ensures |h| == |h0| + |events| && h[..|h0|] == h0 && h[|h0| + i] == h[|h0|..][i]
    ensures h[|h0| + i].event == events[i] && h[|h0| + i].callbacks == cs
  {
  }

  lemma RaisedThen(h0: seq<Delivery>, h1: seq<Delivery>, h2: seq<Delivery>, cs: Callbacks, e1: seq<Event>,
      e2: seq<Event>)
    requires Raised(h0, h1, cs, e1) && Raised(h1, h2, cs, e2)
    ensures Raised(h0, h2, cs, e1 + e2)
  {
    assert h2[..|h0|] == h1[..|h0|];
    forall i | 0 <= i < |e1 + e2| ensures h2[|h0| + i].event == (e1 + e2)[i] && h2[|h0| + i].callbacks == cs {
      if i < |e1| {
        assert h2[|h0| + i] == h2[..|h1|][|h0| + i];
      } else {
        assert h2[|h0| + i] == h2[|h1| + (i - |e1|)];
      }
    }
  }

  function Parent(name: string): (p: string)
    requires name != ""
    ensures |p| < |name|
  {
    if LastDot(name) >= 0 then name[..LastDot(name)] else ""
  }

  /** The levels from a name up are the name, and the levels from its parent up. */
  lemma WayOfParent(level: string, name: string)
    requires name != ""
    ensures OnWay(level, name) <==> level == name || OnWay(level, Parent(name))
    ensures OnWay(level, Parent(name)) ==> |level| < |name|
  {
    AncestorsOfParent(level, name);
  }

  lemma BubbledUp(cs: Callbacks, name: string, top: string, action: Action, here: seq<Call>, above: seq<Call>)
    requires top != "" && Bubbled(cs, name, Parent(top), action, above)
    requires forall c :: c in here <==> Due(cs, name, top, action, c) && c.info.name == top
    requires forall i, j :: 0 <= i < j < |here| ==> here[i] != here[j]
    ensures Bubbled(cs, name, top, action, here + above)
  {
    var calls := here + above;
    AboveIsShorter(cs, name, top, action, above);
    forall c ensures c in calls <==> Due(cs, name, top, action, c) {
      assert c in calls <==> c in here || c in above;
      WayOfParent(c.info.name, top);
    }
    hide *;
    assert forall i :: 0 <= i < |here| ==> here[i] in here;
    assert forall i :: 0 <= i < |above| ==> above[i] in above;
    assert forall i :: 0 <= i < |calls| ==> calls[i] == if i < |here| then here[i] else above[i - |here|];
  }

  lemma AboveIsShorter(cs: Callbacks, name: string, top: string, action: Action, above: seq<Call>)
    requires top != "" && Bubbled(cs, name, Parent(top), action, above)
    ensures forall c :: c in above ==> |c.info.name| < |top|
  {
    forall c | c in above ensures |c.info.name| < |top| {
      WayOfParent(c.info.name, top);
    }
  }

  // ------------------------------------------------------------- the table

  class CallbackTable {
    var callbacks: Callbacks
    /** The calls made, in order. */
    var invoked: seq<Call>
    ghost var history: seq<Delivery>

    ghost predicate Valid()
      reads this
    {
      Sound(callbacks) && Told(history, invoked)
    }

    constructor ()
      ensures Valid() && callbacks == map[] && history == []
    {
      callbacks, invoked, history := map[], [], [];
    }

    /** Registers for one action; registering the same function again replaces its argument. */
    method RegisterOne(name: string, action: Action, fn: nat, arg: nat) returns (status: Status)
      requires Valid()
      modifies `callbacks
      ensures Valid()
      ensures status == if IsValid(name) then Done else BadArgs
      ensures callbacks == if IsValid(name) then WithOne(old(callbacks), name, Id(fn, action), arg) else old(callbacks)
    {
      hide Told, ArgOf, Sound;
      if !IsValid(name) {
        return BadArgs;
      }
      WithOneSound(callbacks, name, Id(fn, action), arg);
      var infos := map[];
      if name in callbacks {
        infos := callbacks[name];
      }
      infos := infos[Id(fn, action) := Info(fn, action, arg, name)];
      callbacks := callbacks[name := infos];
      status := Done;
    }

    /** Removes a registration, and the name's table with the last one. */
    method UnregisterOne(name: string, action: Action, fn: nat) returns (status: Status)
      requires Valid()
      modifies `callbacks
      ensures Valid()
      ensures status == if IsValid(name) then Done else BadArgs
      ensures callbacks == if IsValid(name) then SansOne(old(callbacks), name, Id(fn, action)) else old(callbacks)
    {
      hide Told, ArgOf, Sound;
      if !IsValid(name) {
        return BadArgs;
      }
      SansOneSound(callbacks, name, Id(fn, action));
      if name in callbacks {
        var infos := callbacks[name] - {Id(fn, action)};
        if |infos| == 0 {
          callbacks := callbacks - {name};
        } else {
          callbacks := callbacks[name := infos];
        }
      }
      status := Done;
    }

    /** Registers for each action of the mask; bits that name no action are refused at the end. */
    method Register(name: string, mask: bv8, fn: nat, arg: nat) returns (status: Status)
      requires Valid()
      modifies `callbacks
      ensures Valid()
      ensures status == if (mask & 0x47 != 0 && !IsValid(name)) || mask & 0xb8 != 0 then BadArgs else Done
      ensures if IsValid(name) then Changed(old(callbacks), callbacks, name, fn, mask, Some(arg), |ACTIONS|)
          else callbacks == old(callbacks)
      ensures IsValid(name) ==> forall a ::
        (a == Add && mask & 0x01 != 0) || (a == Change && mask & 0x02 != 0)
        || (a == RegistrySpec.Delete && mask & 0x04 != 0) || (a == Final && mask & 0x40 != 0) ==>
          && name in callbacks && Id(fn, a) in callbacks[name] && callbacks[name][Id(fn, a)].arg == arg
    {
      hide Told, IsValid, ArgOf, Sound, Changed, Asks, AsksBefore, AsksKnown, AsksUnknown, Drop, Left, WithOne, SansOne;
      var action, i := mask, 0;
      NothingChanged(callbacks, name, fn, mask, Some(arg));
      while i < |ACTIONS|
        invariant 0 <= i <= |ACTIONS| && Valid()
        invariant action == Left(mask, i) && (AsksBefore(mask, i) ==> IsValid(name))
        invariant if IsValid(name) then Changed(old(callbacks), callbacks, name, fn, mask, Some(arg), i)
            else callbacks == old(callbacks)
      {
        ghost var cs := callbacks;
        MaskStep(mask, i);
        if Asks(action, ACTIONS[i]) {
          if IsValid(name) { WithOneAll(cs, name, Id(fn, ACTIONS[i]), arg); }
          status := RegisterOne(name, ACTIONS[i], fn, arg);
          if status != Done {
            MaskBits(mask);
            return;
          }
          action := Drop(action, ACTIONS[i]);
        }
        if IsValid(name) { ChangedStep(old(callbacks), cs, callbacks, name, fn, mask, Some(arg), i); }
        i := i + 1;
      }
      AllMasks(mask);
      MaskBits(mask);
      AskedAreThere(old(callbacks), callbacks, name, fn, mask, arg);
      status := if action != 0 then BadArgs else Done;
    }

    /** Unregisters from each action of the mask, refusing the same bits. */
    method Unregister(name: string, mask: bv8, fn: nat) returns (status: Status)
      requires Valid()
      modifies `callbacks
      ensures Valid()
      ensures status == if (mask & 0x47 != 0 && !IsValid(name)) || mask & 0xb8 != 0 then BadArgs else Done
      ensures if IsValid(name) then Changed(old(callbacks), callbacks, name, fn, mask, None, |ACTIONS|)
          else callbacks == old(callbacks)
      ensures IsValid(name) ==> forall a ::
        (a == Add && mask & 0x01 != 0) || (a == Change && mask & 0x02 != 0)
        || (a == RegistrySpec.Delete && mask & 0x04 != 0) || (a == Final && mask & 0x40 != 0) ==>
          name !in callbacks || Id(fn, a) !in callbacks[name]
    {
      hide Told, IsValid, ArgOf, Sound, Changed, Asks, AsksBefore, AsksKnown, AsksUnknown, Drop, Left, WithOne, SansOne;
      var action, i := mask, 0;
      NothingChanged(callbacks, name, fn, mask, None);
      while i < |ACTIONS|
        invariant 0 <= i <= |ACTIONS| && Valid()
        invariant action == Left(mask, i) && (AsksBefore(mask, i) ==> IsValid(name))
        invariant if IsValid(name) then Changed(old(callbacks), callbacks, name, fn, mask, None, i)
            else callbacks == old(callbacks)
      {
        ghost var cs := callbacks;
        MaskStep(mask, i);
        if Asks(action, ACTIONS[i]) {
          if IsValid(name) { SansOneAll(cs, name, Id(fn, ACTIONS[i])); }
          status := UnregisterOne(name, ACTIONS[i], fn);
          if status != Done {
            MaskBits(mask);
            return;
          }
          action := Drop(action, ACTIONS[i]);
        }
        if IsValid(name) { ChangedStep(old(callbacks), cs, callbacks, name, fn, mask, None, i); }
        i := i + 1;
      }
      AllMasks(mask);
      MaskBits(mask);
      AskedAreGone(old(callbacks), callbacks, name, fn, mask);
      status := if action != 0 then BadArgs else Done;
    }

    /** Calls every callback of level `top` that watches the action. */
    method RaiseHere(name: string, top: string, action: Action) returns (ghost calls: seq<Call>)
      requires Sound(callbacks) && top in callbacks
      modifies `invoked
      ensures invoked == old(invoked) + calls
      ensures forall c :: c in calls <==> Due(callbacks, name, top, action, c) && c.info.name == top
      ensures forall i, j :: 0 <= i < j < |calls| ==> calls[i] != calls[j]
    {
      var infos := callbacks[top];
      var todo := infos.Keys;
      calls := [];
      while todo != {}
        invariant todo <= infos.Keys && invoked == old(invoked) + calls
        invariant forall c :: c in calls <==>
            Due(callbacks, name, top, action, c) && c.info.name == top && Id(c.info.fn, action) !in todo
        invariant forall i, j :: 0 <= i < j < |calls| ==> calls[i] != calls[j]
        decreases |todo|
      {
        var id :| id in todo;
        todo := todo - {id};
        var info := infos[id];
        if info.action == action {
          assert Call(info, action, name) !in calls;
          invoked, calls := invoked + [Call(info, action, name)], calls + [Call(info, action, name)];
        }
      }
    }

    method RaiseUpwards(name: string, top: string, action: Action) returns (ghost calls: seq<Call>)
      requires Sound(callbacks)
      modifies `invoked
      ensures invoked == old(invoked) + calls
      ensures Bubbled(callbacks, name, top, action, calls)
      decreases |top|
    {
      hide Sound;
      calls := [];
      if top in callbacks {
        calls := RaiseHere(name, top, action);
      }
      ghost var here := calls;
      if |top| > 0 {
        ghost var above := RaiseUpwards(name, Parent(top), action);
        calls := calls + above;
        BubbledUp(callbacks, name, top, action, here, above);
      }
    }

    /** Raises an event: all callbacks on the way to the root that watch the action are called. */
    method RaiseEvent(name: string, action: Action)
      requires Valid()
      modifies `invoked, `history
      ensures Valid() && Raised(old(history), history, callbacks, [Event(action, name)])
      ensures old(invoked) <= invoked && Bubbled(callbacks, name, name, action, invoked[|old(invoked)|..])
      ensures forall c :: c in invoked[|old(invoked)|..] <==>
        && c.action == action && c.name == name && c.info.name in callbacks
        && Id(c.info.fn, action) in callbacks[c.info.name] && callbacks[c.info.name][Id(c.info.fn, action)] == c.info
        && (c.info.name == name || c.info.name == ""
            || (|c.info.name| < |name| && name[..|c.info.name|] == c.info.name && name[|c.info.name|] == '.'))
        && c.info.action == action
      ensures forall i, j :: |old(invoked)| <= i < j < |invoked| ==>
        invoked[i] != invoked[j] && |invoked[i].info.name| >= |invoked[j].info.name|
    {
      hide Sound, Bubbled, Told, Raised, Due, OnWay;
      ghost var calls, before := [], invoked;
      if |callbacks| > 0 {
        calls := RaiseUpwards(name, name, action);
      } else {
        NoneDue(callbacks, name, action);
      }
      ghost var d := Delivery(Event(action, name), callbacks, calls);
      assert invoked == before + calls;
      BubbledIs(callbacks, name, action, calls);
      CallsBehind(before, calls);
      LoggedOneMore(history, before, d);
      history := history + [d];
    }
  }

  lemma AskedAreThere(cs0: Callbacks, cs1: Callbacks, name: string, fn: nat, mask: bv8, arg: nat)
    ensures Changed(cs0, cs1, name, fn, mask, Some(arg), |ACTIONS|) ==>
              forall a :: Asks(mask, a) ==> name in cs1 && Id(fn, a) in cs1[name] && cs1[name][Id(fn, a)].arg == arg
  {
    hide Asks;
    if Changed(cs0, cs1, name, fn, mask, Some(arg), |ACTIONS|) {
      forall a | Asks(mask, a)
        ensures name in cs1 && Id(fn, a) in cs1[name] && cs1[name][Id(fn, a)].arg == arg
      {
        assert ArgOf(cs1, name, Id(fn, a)) == Some(arg);
      }
    }
  }

  lemma AskedAreGone(cs0: Callbacks, cs1: Callbacks, name: string, fn: nat, mask: bv8)
    ensures Changed(cs0, cs1, name, fn, mask, None, |ACTIONS|) ==>
              forall a :: Asks(mask, a) ==> name !in cs1 || Id(fn, a) !in cs1[name]
  {
    hide Asks;
    if Changed(cs0, cs1, name, fn, mask, None, |ACTIONS|) {
      forall a | Asks(mask, a) ensures name !in cs1 || Id(fn, a) !in cs1[name] {
        assert ArgOf(cs1, name, Id(fn, a)) == None;
      }
    }
  }

  /** What was not asked for, under other names or of other functions, stays as it was. */
  lemma OthersAreKept(cs0: Callbacks, cs1: Callbacks, name: string, fn: nat, mask: bv8, arg: Option<nat>,
                      n: string, id: Id)
    requires Changed(cs0, cs1, name, fn, mask, arg, |ACTIONS|)
    requires n != name || id.fn != fn
      || (id.action == Add && mask & 0x01 == 0) || (id.action == Change && mask & 0x02 == 0)
      || (id.action == RegistrySpec.Delete && mask & 0x04 == 0) || (id.action == Final && mask & 0x40 == 0)
    ensures n in cs1 && id in cs1[n] <==> n in cs0 && id in cs0[n]
    ensures n in cs1 && id in cs1[n] ==> cs1[n][id].arg == cs0[n][id].arg
  {
    MaskBits(mask);
    assert ArgOf(cs1, n, id) == ArgOf(cs0, n, id);
  }

  /**
   After a registration, an event on the name or beneath it calls the function once, with its argument, if the mask has
   the action's bit, and otherwise only if it was registered before.
   */
  method CalledIfAsked(table: CallbackTable, name: string, mask: bv8, fn: nat, arg: nat, below: string, action: Action)
    returns (status: Status, ghost calls: seq<Call>)
    requires table.Valid() && IsValid(name) && (name == below || name == "" || Ancestor(name, below))
    modifies table
    ensures table.Valid() && table.invoked == old(table.invoked) + calls
    ensures (action == Add && mask & 0x01 != 0) || (action == Change && mask & 0x02 != 0)
            || (action == RegistrySpec.Delete && mask & 0x04 != 0) || (action == Final && mask & 0x40 != 0)
            ==> Call(Info(fn, action, arg, name), action, below) in calls
    ensures (action == Add && mask & 0x01 == 0) || (action == Change && mask & 0x02 == 0)
            || (action == RegistrySpec.Delete && mask & 0x04 == 0) || (action == Final && mask & 0x40 == 0)
            ==> (Called(calls, fn, name) <==>
                 name in old(table.callbacks) && Id(fn, action) in old(table.callbacks)[name])
    ensures forall i, j :: (0 <= i < |calls| && 0 <= j < |calls| && calls[i].info.fn == calls[j].info.fn == fn
                            && calls[i].info.name == calls[j].info.name == name) ==> i == j
  {
    hide Told, Asks, Changed, IsValid, Ancestor, SoundAt, ArgOf, Sound;
    status := table.Register(name, mask, fn, arg);
    ghost var cs, before := table.callbacks, table.invoked;
    table.RaiseEvent(below, action);
    calls := table.invoked[|before|..];
    BubbledIs(cs, below, action, calls);
    OneCallEach(cs, below, action, calls, name, fn);
    if (action == Add && mask & 0x01 == 0) || (action == Change && mask & 0x02 == 0)
       || (action == RegistrySpec.Delete && mask & 0x04 == 0) || (action == Final && mask & 0x40 == 0) {
      OthersAreKept(old(table.callbacks), cs, name, fn, mask, Some(arg), name, Id(fn, action));
    }
  }

  /** The function was called for its registration on the name. */
  ghost predicate Called(calls: seq<Call>, fn: nat, name: string) {
    exists i :: 0 <= i < |calls| && calls[i].info.fn == fn && calls[i].info.name == name
  }

  /** A function registered on a level the event passes is called for it once; one that is not, never. */
  lemma OneCallEach(cs: Callbacks, below: string, action: Action, calls: seq<Call>, name: string, fn: nat)
    requires Sound(cs) && Bubbled(cs, below, below, action, calls) && OnWay(name, below)
    ensures forall i, j :: (0 <= i < |calls| && 0 <= j < |calls| && calls[i].info.fn == calls[j].info.fn == fn
                            && calls[i].info.name == calls[j].info.name == name) ==> i == j
    ensures Called(calls, fn, name) <==> name in cs && Id(fn, action) in cs[name]
    ensures name in cs && Id(fn, action) in cs[name] ==>
              Call(Info(fn, action, cs[name][Id(fn, action)].arg, name), action, below) in calls
  {
    hide OnWay, Sound;
    SoundInfos(cs);
    forall i | 0 <= i < |calls| && calls[i].info.fn == fn && calls[i].info.name == name
      ensures name in cs && Id(fn, action) in cs[name] && calls[i] == Call(cs[name][Id(fn, action)], action, below)
    {
      assert calls[i] in calls && Due(cs, below, below, action, calls[i]);
    }
    if name in cs && Id(fn, action) in cs[name] {
      var c := Call(cs[name][Id(fn, action)], action, below);
      assert Due(cs, below, below, action, c);
      var i :| 0 <= i < |calls| && calls[i] == c;
    }
  }

  lemma SoundInfos(cs: Callbacks)
    requires Sound(cs)
    ensures forall n, id :: n in cs && id in cs[n] ==>
              cs[n][id].fn == id.fn && cs[n][id].action == id.action && cs[n][id].name == n
  {
    forall n, id | n in cs && id in cs[n]
      ensures cs[n][id].fn == id.fn && cs[n][id].action == id.action && cs[n][id].name == n
    {
      assert SoundAt(n, cs[n]);
    }
  }

  function IndexOf(action: Action): nat {
    match action
    case Add => 0
    case Delete => 1
    case Change => 2
    case Final => 3
  }

  /** The masks of the actions before the `i`th. */
  function MasksBefore(i: nat): bv8 {
    if i == 0 then 0 else if i == 1 then 1 else if i == 2 then 5 else if i == 3 then 7 else KNOWN
  }

  /** The bits still to be looked at before the `i`th action. */
  function Left(mask: bv8, i: nat): bv8 {
    mask & !MasksBefore(i)
  }

  predicate AsksBefore(mask: bv8, i: nat) {
    mask & MasksBefore(i) != 0
  }

  lemma MaskStep(mask: bv8, i: nat)
    requires i < |ACTIONS|
    ensures Asks(Left(mask, i), ACTIONS[i]) <==> Asks(mask, ACTIONS[i])
    ensures Left(mask, i + 1) == if Asks(mask, ACTIONS[i]) then Drop(Left(mask, i), ACTIONS[i]) else Left(mask, i)
    ensures AsksBefore(mask, i + 1) <==> AsksBefore(mask, i) || Asks(mask, ACTIONS[i])
    ensures Asks(mask, ACTIONS[i]) ==> AsksKnown(mask)
  {
  }

  lemma ActionAt(i: nat)
    requires i < |ACTIONS|
    ensures IndexOf(ACTIONS[i]) == i && forall a :: IndexOf(a) == i ==> a == ACTIONS[i]
  {
  }

  lemma AllMasks(mask: bv8)
    ensures (Left(mask, |ACTIONS|) != 0 <==> AsksUnknown(mask)) && (AsksBefore(mask, |ACTIONS|) <==> AsksKnown(mask))
  {
  }

  lemma NothingChanged(cs: Callbacks, name: string, fn: nat, mask: bv8, arg: Option<nat>)
    ensures Changed(cs, cs, name, fn, mask, arg, 0) && Left(mask, 0) == mask && !AsksBefore(mask, 0)
  {
  }

  /** What it is for an event to bubble up, written out. */
  lemma BubbledIs(cs: Callbacks, name: string, action: Action, calls: seq<Call>)
    requires Bubbled(cs, name, name, action, calls)
    ensures forall c :: c in calls <==>
      && c.action == action && c.name == name && c.info.name in cs
      && Id(c.info.fn, action) in cs[c.info.name] && cs[c.info.name][Id(c.info.fn, action)] == c.info
      && (c.info.name == name || c.info.name == ""
          || (|c.info.name| < |name| && name[..|c.info.name|] == c.info.name && name[|c.info.name|] == '.'))
      && c.info.action == action
    ensures forall i, j :: 0 <= i < j < |calls| ==>
      calls[i] != calls[j] && |calls[i].info.name| >= |calls[j].info.name|
  {
    forall c ensures c in calls <==> Due(cs, name, name, action, c) { }
  }

  /** Calls put behind others keep what holds of any two of them. */
  lemma CallsBehind(before: seq<Call>, calls: seq<Call>)
    requires forall i, j :: 0 <= i < j < |calls| ==>
      calls[i] != calls[j] && |calls[i].info.name| >= |calls[j].info.name|
    ensures forall i, j :: |before| <= i < j < |before + calls| ==>
      (before + calls)[i] != (before + calls)[j] && |(before + calls)[i].info.name| >= |(before + calls)[j].info.name|
  {
  }

  /** An event and the calls it led to join the history and the log. */
  lemma LoggedOneMore(history: seq<Delivery>, invoked: seq<Call>, d: Delivery)
    requires Told(history, invoked) && Bubbled(d.callbacks, d.event.name, d.event.name, d.event.action, d.calls)
    ensures Told(history + [d], invoked + d.calls) && Raised(history, history + [d], d.callbacks, [d.event])
  {
    hide Bubbled;
    assert (history + [d])[..|history + [d]| - 1] == history;
  }

  lemma NoneDue(cs: Callbacks, name: string, action: Action)
    requires |cs| == 0
    ensures Bubbled(cs, name, name, action, [])
  {
    assert cs.Keys == {};
  }
}
