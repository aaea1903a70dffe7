/**
 The two ends of the relay: the daemon's list of clients, each with the text written to it,
 and a client that splits what it receives into lines however the bytes come in.
 */
module Relay {
  import opened Links
  import opened RegistryNames
  import opened RegistrySpec
  import opened RegistryCallbacks
  import opened RelayWire

  // -------------------------------------------------------------- the client

  class Receiver {
    /** Bytes received and not yet consumed. */
    var buf: string
    /** The events raised here, in order. */
    var raised: seq<Event>
    ghost var received: string

    ghost predicate Valid()
      reads this
    {
      buf == Rest(received) && raised == EventsOf(received)
    }

    constructor ()
      ensures Valid() && received == ""
    {
      buf, raised, received := "", [], "";
    }

    /** Takes in a piece of the stream and handles each line it completes. */
    method Receive(piece: string)
      requires Valid()
      modifies this
      ensures Valid() && received == old(received) + piece
    {
      hide LineEvents, LineEnd, EventsOf, Rest;
      ReadOn(received, piece);
      buf, received := buf + piece, received + piece;
      while true
        invariant raised + EventsOf(buf) == EventsOf(received) && Rest(buf) == Rest(received)
        invariant received == old(received) + piece
        decreases |buf|
      {
        var i := FindLine();
        LineThenRest(buf);
        if i == |buf| {
          break;
        }
        TakeLine(i);
      }
    }

    /** Scans for the first line terminator. */
    method FindLine() returns (i: nat)
      ensures i == LineEnd(buf)
    {
      i := 0;
      while i < |buf| && !Terminator(buf[i])
        invariant 0 <= i <= |buf| && forall k :: 0 <= k < i ==> !Terminator(buf[k])
      {
        i := i + 1;
      }
      LineEndIs(buf, i);
    }

    /** Consumes a line and its terminator; an empty line is nothing to handle. */
    method TakeLine(i: nat)
      requires i == LineEnd(buf) < |buf|
      modifies `buf, `raised
      ensures buf == old(buf)[i + 1..] && raised == old(raised) + LineEvents(old(buf)[..i])
    {
      var line := buf[..i];
      buf := buf[i + 1..];
      if i > 0 {
        ProcessLine(line);
      }
    }

    method ProcessLine(line: string)
      requires line != ""
      modifies `raised
      ensures raised == old(raised) + LineEvents(line)
    {
      raised := raised + ParseLine(CString(line));
    }
  }

  // -------------------------------------------------------------- the daemon

  type Socket = nat

  /** The sockets that still take writes, in their order. */
  function Living(fds: seq<Socket>, dead: set<Socket>): (r: seq<Socket>)
    ensures forall fd :: fd in r <==> fd in fds && fd !in dead
  {
    if fds == [] then []
    else Living(fds[..|fds| - 1], dead) + if fds[|fds| - 1] in dead then [] else [fds[|fds| - 1]]
  }

  lemma {:induction false} LivingDistinct(fds: seq<Socket>, dead: set<Socket>)
    requires Distinct(fds)
    ensures Distinct(Living(fds, dead))
  {
    if fds != [] {
      var n := |fds| - 1;
      LivingDistinct(fds[..n], dead);
      assert fds[n] !in fds[..n];
    }
  }

  /** Dropping the dead keeps the others, in their order. */
  lemma {:induction false} LivingInOrder(fds: seq<Socket>, more: seq<Socket>, fd: Socket, dead: set<Socket>)
    ensures Living(fds + more, dead) == Living(fds, dead) + Living(more, dead)
    ensures Living([fd], dead) == if fd in dead then [] else [fd]
  {
    hide Living;
    LivingOfMore([], fd, dead);
    LivingOfNone(dead);
    assert [] + [fd] == [fd];
    if more == [] {
      assert fds + more == fds;
    } else {
      var n := |more| - 1;
      LivingInOrder(fds, more[..n], fd, dead);
      LivingOfMore(fds + more[..n], more[n], dead);
      LivingOfMore(more[..n], more[n], dead);
      assert fds + more[..n] + [more[n]] == fds + more && more[..n] + [more[n]] == more;
    }
  }

  lemma LivingOfMore(fds: seq<Socket>, fd: Socket, dead: set<Socket>)
    ensures Living(fds + [fd], dead) == Living(fds, dead) + if fd in dead then [] else [fd]
  {
    assert (fds + [fd])[..|fds + [fd]| - 1] == fds;
  }

  lemma LivingOfNone(dead: set<Socket>)
    ensures Living([], dead) == []
  {
  }

  class Daemon {
    /** The clients' sockets, in the order they registered. */
    var clients: seq<Socket>
    /** What was written to each socket since its client registered. */
    var written: map<Socket, string>
    ghost var messages: map<Socket, seq<Message>>

    ghost predicate Valid()
      reads this
    {
      Distinct(clients) && Ledger(clients, written, messages)
    }

    constructor ()
      ensures Valid() && clients == []
    {
      clients, written, messages := [], map[], map[];
    }

    /** Writes to each client; one whose socket refuses is dropped from the list. */
    method SendToClients(m: Message, dead: set<Socket>)
      requires Valid()
      modifies this
      ensures Valid() && clients == Living(old(clients), dead)
      ensures forall fd :: fd in clients ==>
          fd in old(messages) && fd in messages && messages[fd] == old(messages)[fd] + [m]
      ensures Kept(old(messages), messages, clients)
    {
      hide Distinct, Ledger, Living, Underway, Kept;
      ghost var before, n: nat := clients, 0;
      UnderwayStarts(before, written, messages, dead, m);
      var at: nat := 0;
      while at < |clients|
        invariant at <= |clients|
        invariant Underway(before, n, at, clients, dead, old(messages), messages, m, written)
        decreases |before| - n
      {
        UnderwayAt(before, n, at, clients, dead, old(messages), messages, m, written);
        ghost var cs, ms, ws, i := clients, messages, written, at;
        at := SendOne(at, m, dead);
        UnderwayStep(before, n, i, cs, dead, old(messages), ms, m, ws);
        n := n + 1;
      }
      UnderwayEnds(before, n, at, clients, dead, old(messages), messages, m, written);
    }

    /** Writes to the client at `at`, or takes it off the list; either way the walk goes on behind it. */
    method SendOne(at: nat, m: Message, dead: set<Socket>) returns (next: nat)
      requires at < |clients| && clients[at] in written && clients[at] in messages
      modifies this
      ensures var client := old(clients)[at];
        if client in dead then
          next == at && clients == old(clients)[..at] + old(clients)[at + 1..] && written == old(written)
              && messages == old(messages)
        else
          && next == at + 1 && clients == old(clients)
          && written == old(written)[client := old(written)[client] + BytesOf(m)]
          && messages == old(messages)[client := old(messages)[client] + [m]]
    {
      var client := clients[at];
      if client in dead {
        clients := clients[..at] + clients[at + 1..];
        next := at;
      } else {
        written := written[client := written[client] + BytesOf(m)];
        messages := messages[client := messages[client] + [m]];
        next := at + 1;
      }
    }

    /** An event on the daemon's registry goes to every client. */
    method SendEvent(action: Action, name: string, dead: set<Socket>)
      requires Valid()
      modifies this
      ensures Valid() && clients == Living(old(clients), dead)
      ensures forall fd :: fd in clients ==>
          fd in old(messages) && fd in messages && messages[fd] == old(messages)[fd] + [Tell(Event(action, name))]
      ensures Kept(old(messages), messages, clients)
    {
      SendToClients(Tell(Event(action, name)), dead);
    }

    /** Clients found dead are dropped; then a new one is added behind the others, if it could be connected to. */
    method Register(fd: Socket, connected: bool, dead: set<Socket>) returns (status: Status)
      requires Valid() && fd !in Living(clients, dead)
      modifies this
      ensures Valid() && status == if connected then Done else Failed
      ensures clients == Living(old(clients), dead) + if connected then [fd] else []
      ensures connected ==> fd in messages && messages[fd] == []
      ensures forall c :: c in Living(old(clients), dead) ==>
                c in old(messages) && c in messages && messages[c] == old(messages)[c] + [KeepAlive]
      ensures Kept(old(messages), messages, clients)
    {
      SendToClients(KeepAlive, dead);
      if !connected {
        return Failed;
      }
      clients, written, messages := clients + [fd], written[fd := ""], messages[fd := []];
      status := Done;
    }
  }

  /** What was written to each socket, still a client's or not, is what its messages say. */
  ghost predicate Ledger(fds: seq<Socket>, written: map<Socket, string>, messages: map<Socket, seq<Message>>) {
    && (forall fd :: fd in fds ==> fd in messages)
    && (forall fd :: fd in messages ==> fd in written && written[fd] == Bytes(messages[fd]))
  }

  /** What was sent to any other socket stays. */
  ghost predicate Kept(m0: map<Socket, seq<Message>>, m1: map<Socket, seq<Message>>, clients: seq<Socket>) {
    forall fd :: fd in m0 && fd !in clients ==> fd in m1 && m1[fd] == m0[fd]
  }

  /** Since `m0`, of the sockets `fds` the living ones in `done` were sent `m`. */
  ghost predicate Reached(fds: seq<Socket>, done: seq<Socket>, dead: set<Socket>,
                          m0: map<Socket, seq<Message>>, m1: map<Socket, seq<Message>>, m: Message) {
    forall fd :: fd in fds ==> fd in m0 && fd in m1 && m1[fd] == m0[fd] + if fd in done && fd !in dead then [m] else []
  }

  /** The walk has been over the first `n` of the sockets `before`, and stands at `at` in what is left of the list. */
  ghost predicate Underway(before: seq<Socket>, n: nat, at: nat, clients: seq<Socket>, dead: set<Socket>,
                           m0: map<Socket, seq<Message>>, m1: map<Socket, seq<Message>>, m: Message,
                           written: map<Socket, string>) {
    && Distinct(before) && n <= |before| && at <= |clients|
    && clients[at..] == before[n..] && clients[..at] == Living(before[..n], dead)
    && Ledger(before, written, m1) && Reached(before, before[..n], dead, m0, m1, m) && Kept(m0, m1, before)
  }

  lemma UnderwayStarts(fds: seq<Socket>, written: map<Socket, string>, messages: map<Socket, seq<Message>>,
      dead: set<Socket>, m: Message)
    requires Distinct(fds) && Ledger(fds, written, messages)
    ensures Underway(fds, 0, 0, fds, dead, messages, messages, m, written)
  {
  }

  lemma UnderwayAt(before: seq<Socket>, n: nat, at: nat, clients: seq<Socket>, dead: set<Socket>,
                   m0: map<Socket, seq<Message>>, m1: map<Socket, seq<Message>>, m: Message,
                   written: map<Socket, string>)
    requires Underway(before, n, at, clients, dead, m0, m1, m, written) && at < |clients|
    ensures n < |before| && clients[at] == before[n] && clients[at] in written && clients[at] in m1
  {
    hide Living, Reached, Distinct;
    assert clients[at..][0] == before[n..][0];
  }

  lemma UnderwayStep(before: seq<Socket>, n: nat, at: nat, clients: seq<Socket>, dead: set<Socket>,
                     m0: map<Socket, seq<Message>>, m1: map<Socket, seq<Message>>, m: Message,
                     written: map<Socket, string>)
    requires Underway(before, n, at, clients, dead, m0, m1, m, written) && at < |clients|
    ensures var fd := clients[at];
      && fd in written && fd in m1
      && (fd in dead ==> Underway(before, n + 1, at, clients[..at] + clients[at + 1..], dead, m0, m1, m, written))
      && (fd !in dead ==>
            Underway(before, n + 1, at + 1, clients, dead, m0, m1[fd := m1[fd] + [m]], m,
                written[fd := written[fd] + BytesOf(m)]))
  {
    hide Underway, BytesOf;
    UnderwayAt(before, n, at, clients, dead, m0, m1, m, written);
    if clients[at] in dead {
      UnderwayDead(before, n, at, clients, dead, m0, m1, m, written);
    } else {
      UnderwayLiving(before, n, at, clients, dead, m0, m1, m, written);
    }
  }

  lemma UnderwayDead(before: seq<Socket>, n: nat, at: nat, clients: seq<Socket>, dead: set<Socket>,
                     m0: map<Socket, seq<Message>>, m1: map<Socket, seq<Message>>, m: Message,
                     written: map<Socket, string>)
    requires Underway(before, n, at, clients, dead, m0, m1, m, written) && at < |clients|
    requires clients[at] in dead
    ensures Underway(before, n + 1, at, clients[..at] + clients[at + 1..], dead, m0, m1, m, written)
  {
    UnderwayAt(before, n, at, clients, dead, m0, m1, m, written);
    hide Living, Reached, Distinct, Ledger, BytesOf, Kept;
    StepsOver(before, n, dead);
    ReachOne(before, n, dead, m0, m1, m, written);
    var rest := clients[..at] + clients[at + 1..];
    assert rest[at..] == clients[at..][1..] == before[n + 1..] && rest[..at] == clients[..at];
  }

  lemma UnderwayLiving(before: seq<Socket>, n: nat, at: nat, clients: seq<Socket>, dead: set<Socket>,
                     m0: map<Socket, seq<Message>>, m1: map<Socket, seq<Message>>, m: Message,
                     written: map<Socket, string>)
    requires Underway(before, n, at, clients, dead, m0, m1, m, written) && at < |clients|
    requires clients[at] !in dead && clients[at] in written && clients[at] in m1
    ensures var fd := clients[at];
      Underway(before, n + 1, at + 1, clients, dead, m0, m1[fd := m1[fd] + [m]], m,
               written[fd := written[fd] + BytesOf(m)])
  {
    UnderwayAt(before, n, at, clients, dead, m0, m1, m, written);
    hide Living, Reached, Distinct, Ledger, BytesOf, Kept;
    StepsOver(before, n, dead);
    ReachOne(before, n, dead, m0, m1, m, written);
    KeptFurther(m0, m1, before, before[n], m);
    BothStep(before, n, clients, at);
  }

  lemma BothStep(before: seq<Socket>, n: nat, clients: seq<Socket>, at: nat)
    requires n < |before| && at < |clients| && clients[at..] == before[n..]
    ensures clients[at + 1..] == before[n + 1..] && clients[..at + 1] == clients[..at] + [before[n]]
  {
    assert clients[at + 1..] == clients[at..][1..] && clients[at] == clients[at..][0];
  }

  lemma KeptFurther(m0: map<Socket, seq<Message>>, m1: map<Socket, seq<Message>>, fds: seq<Socket>, fd: Socket,
                    m: Message)
    requires Kept(m0, m1, fds) && fd in fds && fd in m1
    ensures Kept(m0, m1[fd := m1[fd] + [m]], fds)
  {
  }

  lemma UnderwayEnds(before: seq<Socket>, n: nat, at: nat, clients: seq<Socket>, dead: set<Socket>,
                     m0: map<Socket, seq<Message>>, m1: map<Socket, seq<Message>>, m: Message,
                     written: map<Socket, string>)
    requires Underway(before, n, at, clients, dead, m0, m1, m, written) && at == |clients|
    ensures clients == Living(before, dead) && Distinct(clients) && Ledger(clients, written, m1)
    ensures forall fd :: fd in clients ==> fd in m0 && fd in m1 && m1[fd] == m0[fd] + [m]
    ensures Kept(m0, m1, clients)
  {
    assert before[n..] == [] && before[..n] == before && clients[..at] == clients;
    AllReached(before, dead, m0, m1, m, written);
  }

  lemma ReachOne(fds: seq<Socket>, n: nat, dead: set<Socket>, m0: map<Socket, seq<Message>>,
      m1: map<Socket, seq<Message>>,
                 m: Message, written: map<Socket, string>)
    requires n < |fds| && Distinct(fds) && Ledger(fds, written, m1) && Reached(fds, fds[..n], dead, m0, m1, m)
    ensures var fd := fds[n];
      && fd in written && fd in m1
      && (fd in dead ==> Reached(fds, fds[..n + 1], dead, m0, m1, m))
      && (fd !in dead ==>
            && Ledger(fds, written[fd := written[fd] + BytesOf(m)], m1[fd := m1[fd] + [m]])
            && Reached(fds, fds[..n + 1], dead, m0, m1[fd := m1[fd] + [m]], m))
  {
    hide Distinct, BytesOf, Bytes, Living, Reached;
    var fd := fds[n];
    StepsOver(fds, n, dead);
    OneMore(m1[fd], m);
    if fd in dead {
      ReachedDead(fds, fds[..n], fds[..n + 1], fd, dead, m0, m1, m);
    } else {
      ReachedLiving(fds, fds[..n], fds[..n + 1], fd, dead, m0, m1, m);
    }
  }

  lemma ReachedDead(fds: seq<Socket>, done: seq<Socket>, done2: seq<Socket>, fd: Socket, dead: set<Socket>,
                    m0: map<Socket, seq<Message>>, m1: map<Socket, seq<Message>>, m: Message)
    requires Reached(fds, done, dead, m0, m1, m) && fd in dead && (forall s :: s in done2 <==> s in done || s == fd)
    ensures Reached(fds, done2, dead, m0, m1, m)
  {
  }

  lemma ReachedLiving(fds: seq<Socket>, done: seq<Socket>, done2: seq<Socket>, fd: Socket, dead: set<Socket>,
                      m0: map<Socket, seq<Message>>, m1: map<Socket, seq<Message>>, m: Message)
    requires Reached(fds, done, dead, m0, m1, m) && fd in fds && fd !in dead && fd !in done && fd in m1
    requires forall s :: s in done2 <==> s in done || s == fd
    ensures Reached(fds, done2, dead, m0, m1[fd := m1[fd] + [m]], m)
  {
    assert m1[fd] == m0[fd];
  }

  lemma AllReached(fds: seq<Socket>, dead: set<Socket>, m0: map<Socket, seq<Message>>, m1: map<Socket, seq<Message>>,
                   m: Message, written: map<Socket, string>)
    requires Distinct(fds) && Ledger(fds, written, m1) && Reached(fds, fds, dead, m0, m1, m)
    ensures Distinct(Living(fds, dead)) && Ledger(Living(fds, dead), written, m1)
    ensures forall fd :: fd in Living(fds, dead) ==> fd in m0 && fd in m1 && m1[fd] == m0[fd] + [m]
  {
    LivingDistinct(fds, dead);
  }

  lemma StepsOver(before: seq<Socket>, n: nat, dead: set<Socket>)
    requires n < |before| && Distinct(before)
    ensures before[n..] == [before[n]] + before[n + 1..]
    ensures Living(before[..n + 1], dead) == Living(before[..n], dead) + if before[n] in dead then [] else [before[n]]
    ensures before[n] !in before[..n]
    ensures forall fd :: fd in before[..n + 1] <==> fd in before[..n] || fd == before[n]
  {
    assert before[..n + 1][..n] == before[..n] && before[..n + 1] == before[..n] + [before[n]];
  }

  lemma OneMore(ms: seq<Message>, m: Message)
    ensures Bytes(ms + [m]) == Bytes(ms) + BytesOf(m)
  {
    assert (ms + [m])[..|ms|] == ms;
  }

  // ------------------------------------------------------------- end to end

  /** A client that has received part of what was written to it has raised the first of the daemon's events. */
  lemma ClientFollowsDaemon(daemon: Daemon, fd: Socket, client: Receiver)
    requires daemon.Valid() && client.Valid() && fd in daemon.clients && client.received <= daemon.written[fd]
    requires forall m :: m in daemon.messages[fd] && m.Tell? ==> Clean(m.event.name)
    ensures client.raised <= EventsSent(daemon.messages[fd])
    ensures client.received == daemon.written[fd] ==> client.raised == EventsSent(daemon.messages[fd])
  {
    PartReadsPrefix(daemon.messages[fd], client.received);
    StreamReadsBack(daemon.messages[fd]);
  }

  /** The relay's own callback function, registered on the root for every action. */
  ghost predicate RelayRegistered(cs: Callbacks, relay: nat) {
    forall a :: ArgOf(cs, "", Id(relay, a)).Some?
  }

  /** What a call tells the relay, if it is a call of the relay at the root. */
  function Heard(c: Call, relay: nat): seq<Event> {
    if c.info.fn == relay && c.info.name == "" then [Event(c.action, c.name)] else []
  }

  /** The events the relay is told of. */
  function HeardBy(calls: seq<Call>, relay: nat): seq<Event> {
    if calls == [] then [] else HeardBy(calls[..|calls| - 1], relay) + Heard(calls[|calls| - 1], relay)
  }

  function EventsIn(history: seq<Delivery>): seq<Event> {
    seq(|history|, i requires 0 <= i < |history| => history[i].event)
  }

  lemma {:induction false} HeardAppend(a: seq<Call>, b: seq<Call>, relay: nat)
    ensures HeardBy(a + b, relay) == HeardBy(a, relay) + HeardBy(b, relay)
  {
    hide Heard;
    if b == [] {
      assert a + b == a;
    } else {
      HeardAppend(a, b[..|b| - 1], relay);
      assert (a + b)[..|a + b| - 1] == a + b[..|b| - 1];
    }
  }

  lemma {:induction false} HeardNone(calls: seq<Call>, relay: nat)
    requires forall c :: c in calls ==> !(c.info.fn == relay && c.info.name == "")
    ensures HeardBy(calls, relay) == []
  {
    if calls != [] {
      HeardNone(calls[..|calls| - 1], relay);
    }
  }

  /** Of the calls one event leads to, exactly one is the relay's. */
  lemma HeardOnce(cs: Callbacks, name: string, action: Action, calls: seq<Call>, relay: nat)
    requires Bubbled(cs, name, name, action, calls) && RelayRegistered(cs, relay) && Sound(cs)
    ensures HeardBy(calls, relay) == [Event(action, name)]
  {
    RelayIsDue(cs, name, action, calls, relay);
    HearsOwnCall(calls, relay, Call(cs[""][Id(relay, action)], action, name));
  }

  lemma HearsOwnCall(calls: seq<Call>, relay: nat, mine: Call)
    requires mine in calls && mine.info.fn == relay && mine.info.name == ""
    requires forall c :: c in calls && c.info.fn == relay && c.info.name == "" ==> c == mine
    requires forall i, j :: 0 <= i < j < |calls| ==> calls[i] != calls[j]
    ensures HeardBy(calls, relay) == [Event(mine.action, mine.name)]
  {
    hide HeardBy;
    var k :| 0 <= k < |calls| && calls[k] == mine;
    assert calls == calls[..k] + [mine] + calls[k + 1..];
    HeardNone(calls[..k], relay);
    HeardNone(calls[k + 1..], relay);
    HeardAppend(calls[..k], [mine], relay);
    HeardAppend(calls[..k] + [mine], calls[k + 1..], relay);
    HeardAlone(mine, relay);
  }

  lemma HeardAlone(c: Call, relay: nat)
    ensures HeardBy([c], relay) == Heard(c, relay)
  {
    assert [c][..0] == [];
  }

  lemma RelayIsDue(cs: Callbacks, name: string, action: Action, calls: seq<Call>, relay: nat)
    requires Bubbled(cs, name, name, action, calls) && RelayRegistered(cs, relay) && Sound(cs)
    ensures "" in cs && Id(relay, action) in cs[""]
    ensures var mine := Call(cs[""][Id(relay, action)], action, name);
      && mine.info.fn == relay && mine.info.name == "" && mine in calls
      && forall c :: c in calls && c.info.fn == relay && c.info.name == "" ==> c == mine
  {
    assert ArgOf(cs, "", Id(relay, action)).Some?;
    var mine := Call(cs[""][Id(relay, action)], action, name);
    assert Due(cs, name, name, action, mine);
  }

  ghost predicate AllBubbled(history: seq<Delivery>) {
    forall d :: d in history ==> Bubbled(d.callbacks, d.event.name, d.event.name, d.event.action, d.calls)
  }

  /** The relay was registered when each of these events was raised. */
  ghost predicate RelayedThroughout(history: seq<Delivery>, relay: nat) {
    forall d :: d in history ==> Sound(d.callbacks) && RelayRegistered(d.callbacks, relay)
  }

  lemma {:induction false} HeardThroughout(history: seq<Delivery>, relay: nat)
    requires AllBubbled(history) && RelayedThroughout(history, relay)
    ensures HeardBy(AllCalls(history), relay) == EventsIn(history)
  {
    hide Bubbled, Sound, RelayRegistered, EventsIn;
    if history == [] {
      NoEvents(history);
    } else {
      var n := |history| - 1;
      var d := history[n];
      assert forall x :: x in history[..n] ==> x in history;
      HeardThroughout(history[..n], relay);
      HeardOnce(d.callbacks, d.event.name, d.event.action, d.calls, relay);
      HeardAppend(AllCalls(history[..n]), d.calls, relay);
      EventsInMore(history);
    }
  }

  lemma NoEvents(history: seq<Delivery>)
    requires history == []
    ensures EventsIn(history) == []
  {
  }

  lemma EventsInMore(history: seq<Delivery>)
    requires history != []
    ensures EventsIn(history) == EventsIn(history[..|history| - 1]) + [history[|history| - 1].event]
  {
  }

  lemma {:induction false} CallsAppend(a: seq<Delivery>, b: seq<Delivery>)
    ensures AllCalls(a + b) == AllCalls(a) + AllCalls(b)
  {
    if b == [] {
      assert a + b == a;
    } else {
      var n := |b| - 1;
      CallsAppend(a, b[..n]);
      assert (a + b)[..|a + b| - 1] == a + b[..n];
    }
  }

  lemma ToldSince(history: seq<Delivery>, invoked: seq<Call>, k: nat)
    requires RegistryCallbacks.Told(history, invoked) && k <= |history|
    ensures AllBubbled(history[k..]) && invoked == AllCalls(history[..k]) + AllCalls(history[k..])
  {
    hide Bubbled;
    assert history == history[..k] + history[k..];
    CallsAppend(history[..k], history[k..]);
  }

  /** From the moment the relay is registered, it is told of every event raised, once and in order. */
  lemma RelayHearsAll(history: seq<Delivery>, invoked: seq<Call>, k: nat, relay: nat)
    requires RegistryCallbacks.Told(history, invoked) && k <= |history| && RelayedThroughout(history[k..], relay)
    ensures invoked == AllCalls(history[..k]) + AllCalls(history[k..])
    ensures HeardBy(AllCalls(history[k..]), relay) == EventsIn(history[k..])
  {
    hide AllBubbled, RelayedThroughout;
    ToldSince(history, invoked, k);
    HeardThroughout(history[k..], relay);
  }

  /** The names of these events, legal or not, hold no line terminator. */
  ghost predicate Relayable(history: seq<Delivery>) {
    forall d :: d in history ==> IsValid(d.event.name) || Clean(d.event.name)
  }

  /**
   What a client sent these messages makes of any part of its stream, if the messages tell the events of the
   history.
   */
  lemma TellsHistory(history: seq<Delivery>, ms: seq<Message>, part: string)
    requires Relayable(history) && EventsSent(ms) == EventsIn(history) && part <= Bytes(ms)
    ensures EventsOf(part) <= EventsIn(history)
    ensures part == Bytes(ms) ==> EventsOf(part) == EventsIn(history)
  {
    hide IsValid, Clean;
    forall m | m in ms && m.Tell? ensures Clean(m.event.name) {
      SentHas(ms, m);
      var i :| 0 <= i < |history| && EventsIn(history)[i] == m.event;
      assert history[i] in history;
      if IsValid(m.event.name) { LegalIsClean(m.event.name); }
    }
    PartReadsPrefix(ms, part);
    StreamReadsBack(ms);
  }

  /**
   Remote events are local events: if the relay has sent a client what it was told since the client joined, when
   `k` events had been raised, then whatever part of the stream has reached the client, its events are the first of
   those raised here since; and in the end all of them.
   */
  lemma RemoteIsLocal(history: seq<Delivery>, invoked: seq<Call>, k: nat, relay: nat, ms: seq<Message>, part: string)
    requires RegistryCallbacks.Told(history, invoked) && k <= |history|
    requires RelayedThroughout(history[k..], relay) && Relayable(history[k..])
    requires EventsSent(ms) == HeardBy(AllCalls(history[k..]), relay) && part <= Bytes(ms)
    ensures EventsOf(part) <= EventsIn(history[k..])
    ensures part == Bytes(ms) ==> EventsOf(part) == EventsIn(history[k..])
  {
    hide RelayedThroughout, Relayable;
    RelayHearsAll(history, invoked, k, relay);
    TellsHistory(history[k..], ms, part);
  }
}
