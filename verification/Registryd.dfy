/**
 The registry server: a local registry whose root has the relay registered on it, and the
 clients the relay writes to.  Whatever is set, deleted or finalised, and whoever joins or
 drops out meanwhile, each client has been sent just the events raised since it joined.
 */
module Registryd {
  import opened LocalRegistries
  import opened Options
  import opened RegistryCallbacks
  import opened RegistryNames
  import opened RegistrySpec
  import opened Relay
  import opened RelayWire

  /** The function that sends an event on. */
  const RELAY: nat := 1

  /** Each client was told the events raised since it joined, in order. */
  ghost predicate Current(clients: seq<Socket>, messages: map<Socket, seq<Message>>, joined: map<Socket, nat>,
      history: seq<Delivery>) {
    forall fd :: fd in clients ==>
      && fd in messages && fd in joined && joined[fd] <= |history|
      && EventsSent(messages[fd]) == EventsIn(history[joined[fd]..])
  }

  /** Each socket that ever joined, still a client's or not, was told the first of the events raised since. */
  ghost predicate ToldSome(messages: map<Socket, seq<Message>>, joined: map<Socket, nat>, history: seq<Delivery>) {
    forall fd :: fd in joined ==>
      && fd in messages && joined[fd] <= |history|
      && EventsSent(messages[fd]) <= EventsIn(history[joined[fd]..])
  }

  /** Only a final event may have a name nobody checked. */
  ghost predicate LegalHistory(history: seq<Delivery>) {
    forall d :: d in history ==> d.event.action.Final? || IsValid(d.event.name)
  }

  class Server {
    const registry: LocalRegistry
    const relay: Relay.Daemon
    /** How many events had been raised when the latest client on a socket joined. */
    ghost var joined: map<Socket, nat>

    ghost predicate Valid()
      reads this, registry, registry.callbacks, relay
    {
      && registry.Valid() && relay.Valid() && RelayRegistered(registry.callbacks.callbacks, RELAY)
      && Current(relay.clients, relay.messages, joined, registry.callbacks.history)
      && ToldSome(relay.messages, joined, registry.callbacks.history)
      && LegalHistory(registry.callbacks.history)
    }

    ghost function Events(): seq<Event>
      reads registry, registry.callbacks
    {
      EventsIn(registry.callbacks.history)
    }

    /** The root is added first; only then is the relay registered, for one action after the other. */
    constructor ()
      ensures Valid() && fresh(registry) && fresh(registry.callbacks) && fresh(relay)
      ensures registry.table == FRESH && relay.clients == [] && Events() == [Event(Add, "")]
    {
      registry := new LocalRegistry();
      relay := new Relay.Daemon();
      joined := map[];
      new;
      var callbacks := registry.callbacks;
      OneRaised(callbacks.history, map[], Event(Add, ""));
      var cs0 := callbacks.callbacks;
      var status := callbacks.Register("", MaskOf(Add), RELAY, 0);
      var cs1 := callbacks.callbacks;
      status := callbacks.Register("", MaskOf(Change), RELAY, 0);
      var cs2 := callbacks.callbacks;
      status := callbacks.Register("", MaskOf(RegistrySpec.Delete), RELAY, 0);
      var cs3 := callbacks.callbacks;
      status := callbacks.Register("", MaskOf(Final), RELAY, 0);
      NowRegistered(cs0, cs1, cs2, cs3, callbacks.callbacks);
    }

    /** Makes the relay's calls among those logged since `from`; the `i`th call finds the sockets in `dead(i)` gone. */
    method Forward(from: nat, dead: nat -> set<Socket>, ghost h0: seq<Delivery>)
      requires registry.Valid() && relay.Valid() && h0 <= registry.callbacks.history
      requires RelayedThroughout(registry.callbacks.history[|h0|..], RELAY)
      requires Current(relay.clients, relay.messages, joined, h0) && from == |AllCalls(h0)|
      requires ToldSome(relay.messages, joined, h0)
      modifies relay
      ensures relay.Valid() && Current(relay.clients, relay.messages, joined, registry.callbacks.history)
      ensures ToldSome(relay.messages, joined, registry.callbacks.history)
      ensures forall fd :: fd in relay.clients ==> fd in old(relay.clients)
      ensures (forall i :: dead(i) == {}) ==> relay.clients == old(relay.clients)
    {
      hide CallbackTable.Valid, RelayedThroughout, Current, Relay.Daemon.Valid, HeardBy, Ahead, ToldSome, EventsIn;
      var callbacks := registry.callbacks;
      NewCalls(callbacks, h0);
      StillToldSome(relay.messages, joined, h0, callbacks.history);
      ghost var calls := AllCalls(callbacks.history[|h0|..]);
      var i := from;
      NoneSent(relay.clients, relay.messages, joined, h0);
      while i < |callbacks.invoked|
        invariant from <= i <= |callbacks.invoked| && relay.Valid()
        invariant Ahead(relay.clients, relay.messages, joined, h0, HeardBy(calls[..i - from], RELAY))
        invariant ToldSome(relay.messages, joined, callbacks.history)
        invariant forall fd :: fd in relay.clients ==> fd in old(relay.clients)
        invariant (forall i :: dead(i) == {}) ==> relay.clients == old(relay.clients)
      {
        assert callbacks.invoked[i] == calls[i - from];
        HeardOneMore(calls, i - from, RELAY);
        HeardPart(calls, i - from + 1, RELAY);
        MakeCall(callbacks.invoked[i], dead(i), h0, callbacks.history, HeardBy(calls[..i - from], RELAY));
        i := i + 1;
      }
      assert calls[..i - from] == calls;
      AllSent(relay.clients, relay.messages, joined, h0, callbacks.history, calls);
    }

    /** Makes a call if it is the relay's. */
    method MakeCall(c: Call, dead: set<Socket>, ghost h0: seq<Delivery>, ghost h: seq<Delivery>, ghost more: seq<Event>)
      requires relay.Valid() && Ahead(relay.clients, relay.messages, joined, h0, more)
      requires h0 <= h && ToldSome(relay.messages, joined, h) && more + Heard(c, RELAY) <= EventsIn(h[|h0|..])
      modifies relay
      ensures ToldSome(relay.messages, joined, h)
      ensures relay.Valid() && Ahead(relay.clients, relay.messages, joined, h0, more + Heard(c, RELAY))
      ensures forall fd :: fd in relay.clients ==> fd in old(relay.clients)
      ensures dead == {} ==> relay.clients == old(relay.clients)
    {
      hide Relay.Daemon.Valid, Ahead, ToldSome, Kept, EventsIn;
      if c.info.fn == RELAY && c.info.name == "" {
        ghost var clients, messages := relay.clients, relay.messages;
        relay.SendEvent(c.action, c.name, dead);
        OneSent(clients, messages, relay.clients, relay.messages, joined, h0, more, Event(c.action, c.name));
        AllLiving(clients);
        ToldOneMore(relay.clients, messages, relay.messages, joined, h0, h, more + [Event(c.action, c.name)]);
      } else {
        assert more + Heard(c, RELAY) == more;
      }
    }

    /** Sets a registry or a scalar, and tells the clients. */
    method Set(name: string, node: Node, dead: nat -> set<Socket>) returns (status: Status)
      requires Valid() && Readable(registry.table, name) && (node.Registry? || node.Scalar?)
      modifies registry, registry.callbacks, relay
      ensures Valid() && (forall fd :: fd in relay.clients ==> fd in old(relay.clients))
      ensures (forall i :: dead(i) == {}) ==> relay.clients == old(relay.clients)
      ensures var o := SetSpec(old(registry.table), name, node);
        status == o.status && registry.table == o.table && Events() == old(Events()) + o.events
    {
      hide CallbackTable.Valid, RelayedThroughout, Current, Relay.Daemon.Valid, SetSpec, Raised, RelayRegistered,
          LegalHistory, IsValid, ToldSome;
      ghost var h0 := registry.callbacks.history;
      var from := |registry.callbacks.invoked|;
      LoggedCalls(registry.callbacks);
      SetTellsLegalNames(registry.table, name, node);
      status := registry.Set(name, node);
      Since(registry, h0, SetSpec(old(registry.table), name, node).events);
      Forward(from, dead, h0);
    }

    /** Sets an array, and tells the clients. */
    method SetArray(name: string, arrayType: ArrayType, data: seq<bv8>, dead: nat -> set<Socket>)
        returns (status: Status)
      requires Valid() && Readable(registry.table, name)
      modifies registry, registry.callbacks, relay
      ensures Valid() && (forall fd :: fd in relay.clients ==> fd in old(relay.clients))
      ensures (forall i :: dead(i) == {}) ==> relay.clients == old(relay.clients)
      ensures var o := SetSpec(old(registry.table), name, Array(arrayType, data));
        status == o.status && registry.table == o.table && Events() == old(Events()) + o.events
    {
      hide CallbackTable.Valid, RelayedThroughout, Current, Relay.Daemon.Valid, SetSpec, Raised, RelayRegistered,
          LegalHistory, IsValid, ToldSome;
      ghost var h0 := registry.callbacks.history;
      var from := |registry.callbacks.invoked|;
      LoggedCalls(registry.callbacks);
      SetTellsLegalNames(registry.table, name, Array(arrayType, data));
      status := registry.SetArray(name, arrayType, data);
      Since(registry, h0, SetSpec(old(registry.table), name, Array(arrayType, data)).events);
      Forward(from, dead, h0);
    }

    /** Deletes a name and all beneath it, and tells the clients. */
    method Delete(name: string, dead: nat -> set<Socket>) returns (status: Status)
      requires Valid() && forall k :: k in registry.table && Beneath(name, k) ==> Live(registry.table, k)
      modifies registry, registry.callbacks, relay
      ensures Valid() && (forall fd :: fd in relay.clients ==> fd in old(relay.clients))
      ensures (forall i :: dead(i) == {}) ==> relay.clients == old(relay.clients)
      ensures var o := DeleteSpec(old(registry.table), name);
        status == o.status && registry.table == o.table && Events() == old(Events()) + o.events
    {
      hide CallbackTable.Valid, RelayedThroughout, Current, Relay.Daemon.Valid, DeleteSpec, Raised, RelayRegistered,
          LegalHistory, IsValid, ToldSome;
      ghost var h0 := registry.callbacks.history;
      var from := |registry.callbacks.invoked|;
      LoggedCalls(registry.callbacks);
      DeleteTellsLegalNames(registry.table, name);
      status := registry.Delete(name);
      Since(registry, h0, DeleteSpec(old(registry.table), name).events);
      Forward(from, dead, h0);
    }

    /** Raises the final event on any name, and tells the clients. */
    method Fin(name: string, dead: nat -> set<Socket>)
      requires Valid()
      modifies registry.callbacks, relay
      ensures Valid() && (forall fd :: fd in relay.clients ==> fd in old(relay.clients))
      ensures (forall i :: dead(i) == {}) ==> relay.clients == old(relay.clients)
      ensures Events() == old(Events()) + [Event(Final, name)]
    {
      hide CallbackTable.Valid, RelayedThroughout, Current, Relay.Daemon.Valid, Raised, RelayRegistered,
          LegalHistory, IsValid, ToldSome;
      ghost var h0 := registry.callbacks.history;
      var from := |registry.callbacks.invoked|;
      LoggedCalls(registry.callbacks);
      registry.Fin(name);
      Since(registry, h0, [Event(Final, name)]);
      Forward(from, dead, h0);
    }

    /** A client joins, if it can be connected to. */
    method Join(fd: Socket, connected: bool, dead: set<Socket>) returns (status: Status)
      requires Valid() && fd !in Living(relay.clients, dead)
      modifies this, relay
      ensures Valid() && relay.clients == Living(old(relay.clients), dead) + if connected then [fd] else []
      ensures connected ==> joined == old(joined)[fd := |registry.callbacks.history|]
      ensures !connected ==> joined == old(joined)
    {
      hide LocalRegistry.Valid, Relay.Daemon.Valid, RelayRegistered, LegalHistory, ToldSome, Kept, EventsIn;
      ghost var clients, messages := relay.clients, relay.messages;
      status := relay.Register(fd, connected, dead);
      KeptAlive(clients, messages, Living(clients, dead), relay.messages, joined, registry.callbacks.history);
      ToldOfAlive(relay.clients, messages, relay.messages, joined, registry.callbacks.history, fd, connected);
      NoEvents(registry.callbacks.history[|registry.callbacks.history|..]);
      if connected {
        joined := joined[fd := |registry.callbacks.history|];
      }
    }
  }

  // ------------------------------------------------------------ registration

  lemma MaskIsOwn(a: Action, b: Action)
    ensures Asks(MaskOf(a), b) <==> a == b
  {
  }

  lemma RegisteredFor(cs0: Callbacks, cs1: Callbacks, action: Action)
    requires Changed(cs0, cs1, "", RELAY, MaskOf(action), Some(0), |ACTIONS|)
    ensures ArgOf(cs1, "", Id(RELAY, action)) == Some(0)
    ensures forall a :: ArgOf(cs0, "", Id(RELAY, a)).Some? ==> ArgOf(cs1, "", Id(RELAY, a)).Some?
  {
    hide ArgOf, Asks, MaskOf;
    MaskIsOwn(action, action);
    forall a | ArgOf(cs0, "", Id(RELAY, a)).Some? ensures ArgOf(cs1, "", Id(RELAY, a)).Some? {
      MaskIsOwn(action, a);
    }
  }

  lemma NowRegistered(cs0: Callbacks, cs1: Callbacks, cs2: Callbacks, cs3: Callbacks, cs4: Callbacks)
    requires Changed(cs0, cs1, "", RELAY, MaskOf(Add), Some(0), |ACTIONS|)
    requires Changed(cs1, cs2, "", RELAY, MaskOf(Change), Some(0), |ACTIONS|)
    requires Changed(cs2, cs3, "", RELAY, MaskOf(Delete), Some(0), |ACTIONS|)
    requires Changed(cs3, cs4, "", RELAY, MaskOf(Final), Some(0), |ACTIONS|)
    ensures RelayRegistered(cs4, RELAY)
  {
    hide Changed, ArgOf;
    RegisteredFor(cs0, cs1, Add);
    RegisteredFor(cs1, cs2, Change);
    RegisteredFor(cs2, cs3, Delete);
    RegisteredFor(cs3, cs4, Final);
    forall a ensures ArgOf(cs4, "", Id(RELAY, a)).Some? {
      assert a == Add || a == Change || a == Delete || a == Final;
    }
  }

  // -------------------------------------------------------------- forwarding

  lemma LoggedCalls(callbacks: CallbackTable)
    requires callbacks.Valid()
    ensures callbacks.invoked == AllCalls(callbacks.history)
  {
  }

  lemma NewCalls(callbacks: CallbackTable, h0: seq<Delivery>)
    requires callbacks.Valid() && h0 <= callbacks.history
    ensures callbacks.invoked == AllCalls(h0) + AllCalls(callbacks.history[|h0|..])
    ensures RelayedThroughout(callbacks.history[|h0|..], RELAY) ==>
              HeardBy(AllCalls(callbacks.history[|h0|..]), RELAY) == EventsIn(callbacks.history[|h0|..])
  {
    hide RelayedThroughout;
    var h := callbacks.history;
    ToldSince(h, callbacks.invoked, |h0|);
    assert h[..|h0|] == h0;
    if RelayedThroughout(h[|h0|..], RELAY) {
      RelayHearsAll(h, callbacks.invoked, |h0|, RELAY);
    }
  }

  lemma HeardOneMore(calls: seq<Call>, k: nat, relay: nat)
    requires k < |calls|
    ensures HeardBy(calls[..k + 1], relay) == HeardBy(calls[..k], relay) + Heard(calls[k], relay)
  {
    assert calls[..k + 1][..k] == calls[..k];
  }

  /** The clients are ahead of the history `h0` by the events in `more`. */
  ghost predicate Ahead(clients: seq<Socket>, messages: map<Socket, seq<Message>>, joined: map<Socket, nat>,
                        h0: seq<Delivery>, more: seq<Event>) {
    forall fd :: fd in clients ==>
      && fd in messages && fd in joined && joined[fd] <= |h0|
      && EventsSent(messages[fd]) == EventsIn(h0[joined[fd]..]) + more
  }

  lemma {:induction false} HeardPart(calls: seq<Call>, k: nat, relay: nat)
    requires k <= |calls|
    ensures HeardBy(calls[..k], relay) <= HeardBy(calls, relay)
  {
    hide HeardBy;
    assert calls == calls[..k] + calls[k..];
    HeardAppend(calls[..k], calls[k..], relay);
  }

  lemma SinceThen(h0: seq<Delivery>, h: seq<Delivery>, k: nat)
    requires h0 <= h && k <= |h0|
    ensures EventsIn(h[k..]) == EventsIn(h0[k..]) + EventsIn(h[|h0|..])
  {
    assert h[k..] == h0[k..] + h[|h0|..];
  }

  lemma StillToldSome(messages: map<Socket, seq<Message>>, joined: map<Socket, nat>, h0: seq<Delivery>,
                      h: seq<Delivery>)
    requires ToldSome(messages, joined, h0) && h0 <= h
    ensures ToldSome(messages, joined, h)
  {
    hide EventsIn;
    forall fd | fd in joined ensures EventsSent(messages[fd]) <= EventsIn(h[joined[fd]..]) {
      SinceThen(h0, h, joined[fd]);
    }
  }

  /** Clients told one event more are told one that was raised; a client dropped is told no more. */
  lemma ToldOneMore(clients: seq<Socket>, messages: map<Socket, seq<Message>>, messages2: map<Socket, seq<Message>>,
                    joined: map<Socket, nat>, h0: seq<Delivery>, h: seq<Delivery>, more: seq<Event>)
    requires ToldSome(messages, joined, h) && Kept(messages, messages2, clients)
    requires Ahead(clients, messages2, joined, h0, more) && h0 <= h && more <= EventsIn(h[|h0|..])
    ensures ToldSome(messages2, joined, h)
  {
    hide EventsIn;
    forall fd | fd in joined
      ensures fd in messages2 && EventsSent(messages2[fd]) <= EventsIn(h[joined[fd]..])
    {
      if fd in clients { SinceThen(h0, h, joined[fd]); }
    }
  }

  lemma ToldOfAlive(clients: seq<Socket>, messages: map<Socket, seq<Message>>, messages2: map<Socket, seq<Message>>,
                    joined: map<Socket, nat>, h: seq<Delivery>, fd: Socket, connected: bool)
    requires ToldSome(messages, joined, h) && Kept(messages, messages2, clients)
    requires forall c :: c in clients && (c != fd || !connected) ==>
               c in messages && c in messages2 && messages2[c] == messages[c] + [KeepAlive]
    requires connected ==> fd in messages2 && messages2[fd] == []
    ensures ToldSome(messages2, if connected then joined[fd := |h|] else joined, h)
  {
    hide EventsIn;
    forall c | c in joined && (c != fd || !connected)
      ensures c in messages2 && EventsSent(messages2[c]) <= EventsIn(h[joined[c]..])
    {
      if c in clients { SentOne(messages[c], KeepAlive); }
    }
  }

  lemma NoneSent(clients: seq<Socket>, messages: map<Socket, seq<Message>>, joined: map<Socket, nat>, h0: seq<Delivery>)
    requires Current(clients, messages, joined, h0)
    ensures forall calls: seq<Call> :: Ahead(clients, messages, joined, h0, HeardBy(calls[..0], RELAY))
  {
  }

  lemma SentOne(ms: seq<Message>, m: Message)
    ensures EventsSent(ms + [m]) == EventsSent(ms) + if m.Tell? then [m.event] else []
  {
    assert (ms + [m])[..|ms|] == ms;
  }

  lemma OneSent(clients: seq<Socket>, messages: map<Socket, seq<Message>>, clients2: seq<Socket>,
      messages2: map<Socket, seq<Message>>,
                joined: map<Socket, nat>, h0: seq<Delivery>, more: seq<Event>, e: Event)
    requires Ahead(clients, messages, joined, h0, more)
    requires forall fd :: fd in clients2 ==> fd in clients
    requires forall fd :: fd in clients2 ==>
        fd in messages && fd in messages2 && messages2[fd] == messages[fd] + [Tell(e)]
    ensures Ahead(clients2, messages2, joined, h0, more + [e])
  {
    forall fd | fd in clients2 ensures EventsSent(messages2[fd]) == EventsSent(messages[fd]) + [e] {
      SentOne(messages[fd], Tell(e));
    }
  }

  lemma AllSent(clients: seq<Socket>, messages: map<Socket, seq<Message>>, joined: map<Socket, nat>,
                h0: seq<Delivery>, h: seq<Delivery>, calls: seq<Call>)
    requires Ahead(clients, messages, joined, h0, HeardBy(calls, RELAY)) && h0 <= h
    requires HeardBy(calls, RELAY) == EventsIn(h[|h0|..])
    ensures Current(clients, messages, joined, h)
  {
    hide EventsIn, HeardBy;
    forall fd | fd in clients ensures EventsIn(h[joined[fd]..]) == EventsIn(h0[joined[fd]..]) + EventsIn(h[|h0|..]) {
      SinceThen(h0, h, joined[fd]);
    }
  }

  lemma {:induction false} AllLiving(clients: seq<Socket>)
    ensures Living(clients, {}) == clients
  {
    if clients != [] {
      AllLiving(clients[..|clients| - 1]);
    }
  }

  lemma KeptAlive(clients: seq<Socket>, messages: map<Socket, seq<Message>>, clients2: seq<Socket>,
      messages2: map<Socket, seq<Message>>,
                  joined: map<Socket, nat>, h: seq<Delivery>)
    requires Current(clients, messages, joined, h) && forall fd :: fd in clients2 ==> fd in clients
    requires forall fd :: fd in clients2 ==>
        fd in messages && fd in messages2 && messages2[fd] == messages[fd] + [KeepAlive]
    ensures Current(clients2, messages2, joined, h)
  {
    forall fd | fd in clients2 ensures EventsSent(messages2[fd]) == EventsSent(messages[fd]) {
      SentOne(messages[fd], KeepAlive);
    }
  }

  lemma DeleteTellsLegalNames(t: Table, name: string)
    ensures LegalNames(DeleteSpec(t, name).events)
  {
    SetTellsLegalNames(Without(t, name), "", Registry);
  }

  /** What an operation on the registry has added to its history. */
  lemma Since(registry: LocalRegistry, h0: seq<Delivery>, events: seq<Event>)
    requires registry.Valid() && Raised(h0, registry.callbacks.history, registry.callbacks.callbacks, events)
    requires RelayRegistered(registry.callbacks.callbacks, RELAY) && LegalHistory(h0)
    requires forall e :: e in events ==> e.action.Final? || IsValid(e.name)
    ensures h0 <= registry.callbacks.history && RelayedThroughout(registry.callbacks.history[|h0|..], RELAY)
    ensures LegalHistory(registry.callbacks.history)
    ensures EventsIn(registry.callbacks.history) == EventsIn(h0) + events
  {
    hide RelayRegistered, IsValid, Sound, Raised;
    var h, cs := registry.callbacks.history, registry.callbacks.callbacks;
    RaisedEvents(h0, h, cs, events);
    forall d | d in h[|h0|..] ensures d.callbacks == cs {
      var i :| 0 <= i < |h[|h0|..]| && h[|h0|..][i] == d;
      RaisedAt(h0, h, cs, events, i);
    }
    forall d | d in h ensures d.event.action.Final? || IsValid(d.event.name) {
      var i :| 0 <= i < |h| && h[i] == d;
      if i < |h0| { assert h0[i] in h0; } else { RaisedAt(h0, h, cs, events, i - |h0|); }
    }
  }

  lemma RaisedEvents(h0: seq<Delivery>, h: seq<Delivery>, cs: Callbacks, events: seq<Event>)
    requires Raised(h0, h, cs, events)
    ensures h0 <= h && |h| == |h0| + |events| && EventsIn(h) == EventsIn(h0) + events
  {
    hide Raised;
    assert h0 <= h && |h| == |h0| + |events| by { RaisedPrefix(h0, h, cs, events); }
    forall i | 0 <= i < |h| ensures EventsIn(h)[i] == (EventsIn(h0) + events)[i] {
      if i >= |h0| { RaisedAt(h0, h, cs, events, i - |h0|); }
    }
  }

  lemma RaisedPrefix(h0: seq<Delivery>, h: seq<Delivery>, cs: Callbacks, events: seq<Event>)
    requires Raised(h0, h, cs, events)
    ensures h0 <= h && |h| == |h0| + |events|
  {
  }

  lemma OneRaised(h: seq<Delivery>, cs: Callbacks, e: Event)
    requires Raised([], h, cs, [e]) && IsValid(e.name)
    ensures EventsIn(h) == [e] && LegalHistory(h)
  {
    hide IsValid;
    RaisedAt([], h, cs, [e], 0);
  }

  // ------------------------------------------------------------- end to end

  /**
   In every run of the server: whatever part a client has received of what was written to it, whether it is still on
   the list or was dropped, it has raised the first of the events raised in the daemon's registry since it
   joined; and all of them if it is on the list and has received everything.  Only the names of final events must hold
   no line terminator.
   */
  lemma ClientSeesRegistry(server: Server, fd: Socket, client: Receiver)
    requires server.Valid() && client.Valid() && fd in server.joined
    requires client.received <= server.relay.written[fd]
    requires forall d :: d in server.registry.callbacks.history[server.joined[fd]..] && d.event.action.Final? ==>
        Clean(d.event.name)
    ensures var since := EventsIn(server.registry.callbacks.history[server.joined[fd]..]);
      && client.raised <= since
      && (fd in server.relay.clients && client.received == server.relay.written[fd] ==> client.raised == since)
  {
    hide IsValid, Clean, RelayRegistered, CallbackTable.Valid, AllValid;
    var h, k := server.registry.callbacks.history, server.joined[fd];
    var n := |EventsSent(server.relay.messages[fd])|;
    assert forall d :: d in h[k..][..n] ==> d in h[k..] && d in h;
    assert EventsIn(h[k..][..n]) == EventsIn(h[k..])[..n];
    TellsHistory(h[k..][..n], server.relay.messages[fd], client.received);
  }

  /** A client takes in a stream in two pieces, wherever it is cut. */
  method ReceiveCut(stream: string, cut: nat) returns (client: Receiver)
    ensures client.Valid() && client.received == stream && fresh(client)
  {
    hide EventsOf, Rest;
    client := new Receiver();
    var at := if cut < |stream| then cut else |stream|;
    client.Receive(stream[..at]);
    client.Receive(stream[at..]);
    assert "" + stream[..at] + stream[at..] == stream;
  }

  lemma SinceJoined(h: seq<Delivery>, k: nat, before: seq<Event>, events: seq<Event>)
    requires EventsIn(h) == before + events && k == |before| && LegalNames(events)
    ensures k <= |h| && EventsIn(h[k..]) == events && forall d :: d in h[k..] ==> Clean(d.event.name)
  {
    hide IsValid, Clean;
    AfterJoined(h, k, before, events);
    forall d | d in h[k..] ensures Clean(d.event.name) {
      var i :| 0 <= i < |h[k..]| && h[k..][i] == d;
      assert d.event == EventsIn(h)[k + i] == events[i];
      LegalIsClean(d.event.name);
    }
  }

  /**
   A session: a name is set, a client joins, something else is set, and the client receives its stream in two
   pieces.  It has then raised the events of the second set, and nothing of the first.
   */
  method Session(first: string, second: string, node: Node, fd: Socket, cut: nat) returns (raised: seq<Event>)
    requires SetSpec(FRESH, first, Registry).status == Done && (node.Registry? || node.Scalar?)
    requires Readable(SetSpec(FRESH, first, Registry).table, second)
    ensures raised == SetSpec(SetSpec(FRESH, first, Registry).table, second, node).events
  {
    hide Server.Valid, Readable, SetSpec, LegalNames;
    var server := new Server();
    TreeIsReadable(FRESH, first);
    var status := server.Set(first, Registry, NoneDead);
    status := server.Join(fd, true, {});
    ghost var t, before := server.registry.table, server.Events();
    SetTellsLegalNames(t, second, node);
    status := server.Set(second, node, NoneDead);
    StreamThere(server, fd);
    var client := ReceiveCut(server.relay.written[fd], cut);
    SinceJoined(server.registry.callbacks.history, |before|, before, SetSpec(t, second, node).events);
    ClientSeesRegistry(server, fd, client);
    raised := client.raised;
  }

  /** A final event whose name holds a line terminator reaches the client as something else. */
  method FinalSession(fd: Socket) returns (server: Server, raised: seq<Event>)
    ensures server.Valid() && fd in server.joined
    ensures EventsIn(server.registry.callbacks.history[server.joined[fd]..]) == [Event(Final, "a\nb")]
    ensures raised != [Event(Final, "a\nb")]
  {
    hide Server.Valid, EventsOf;
    server := new Server();
    var status := server.Join(fd, true, {});
    ghost var before := server.Events();
    server.Fin("a\nb", NoneDead);
    StreamThere(server, fd);
    var client := ReceiveCut(server.relay.written[fd], 0);
    AfterJoined(server.registry.callbacks.history, |before|, before, [Event(Final, "a\nb")]);
    assert Terminator("a\nb"[1]);
    UncleanIsLost(server, fd, Event(Final, "a\nb"));
    raised := client.raised;
  }

  lemma AfterJoined(h: seq<Delivery>, k: nat, before: seq<Event>, events: seq<Event>)
    requires EventsIn(h) == before + events && k == |before|
    ensures k <= |h| && EventsIn(h[k..]) == events
  {
    assert EventsIn(h[k..]) == EventsIn(h)[k..] == events;
  }

  lemma UncleanIsLost(server: Server, fd: Socket, e: Event)
    requires server.Valid() && fd in server.relay.clients && !Clean(e.name)
    requires EventsIn(server.registry.callbacks.history[server.joined[fd]..]) == [e]
    ensures fd in server.relay.written && EventsOf(server.relay.written[fd]) != [e]
  {
    hide EventsOf, Clean;
    var ms := server.relay.messages[fd];
    RelayIsExactIff(ms);
    assert EventsSent(ms) == [e];
    SentBy(ms, e);
  }

  lemma {:induction false} SentBy(ms: seq<Message>, e: Event)
    requires e in EventsSent(ms)
    ensures Tell(e) in ms
  {
    var n := |ms| - 1;
    if ms[n] != Tell(e) {
      SentBy(ms[..n], e);
      assert Tell(e) in ms[..n];
    }
  }

  function NoneDead(i: nat): set<Socket> {
    {}
  }

  lemma StreamThere(server: Server, fd: Socket)
    requires server.Valid() && fd in server.relay.clients
    ensures fd in server.relay.written
  {
  }
}
