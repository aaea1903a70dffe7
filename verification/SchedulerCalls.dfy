/**
 What callbacks do to one another: an operation of a callback takes effect where it is made, so that one callback of a
 batch can cancel another.
 */
module SchedulerCalls {
  import opened EventLoops
  import opened Options
  import opened SchedulerFifo
  import opened SchedulerRuns
  import opened SchedulerScripts
  import opened SchedulerSpec
  import opened SchedulerState
  import opened SchedulerTicks

  /** The events that answer each operation, written out. */
  lemma AnswersAre(a: Abs, book: Book, op: Op, es: seq<Event>)
    requires Answers(a, book, op, es)
    ensures op.TimerSet? && op.fn != 0 && 0 < op.delay && a.now + op.delay <= 0x7fff_ffff ==>
      && es == [Set(a.nextId, a.now + op.delay)]
      && a.nextId in book.armed && book.armed[a.nextId] == Call(op.fn, op.arg, 0, -1)
    ensures op.TimerSet? && op.fn != 0 && op.delay == 0 && a.now < 0x7fff_ffff ==> es == [Set(a.nextId, a.now + 1)]
    ensures op.TimerCancel? ==>
      if exists id :: id in a.timers && id in book.home && book.home[id] == op.handle
      then exists id :: id in a.timers && id in book.home && book.home[id] == op.handle && es == [Unset(id)]
      else es == []
    ensures op.Schedule? && op.fn != 0 ==>
      && es == [Event.Schedule(a.nextId)]
      && a.nextId in book.armed && book.armed[a.nextId] == Call(op.fn, op.arg, -1, -1)
    ensures op.Wait? && op.fn != 0 && 0 <= op.sock < 20000 && op.how < 2 ==>
      && es == [Event.Wait(a.nextId, 2 * op.sock + op.how)]
      && a.nextId in book.armed && book.armed[a.nextId] == Call(op.fn, op.arg, op.sock, op.how)
    ensures op.Cancel? && 0 <= op.sock < 20000 && op.how < 2 ==> es == [Event.Cancel(2 * op.sock + op.how)]
    ensures (op.TimerSet? || op.Schedule? || op.Wait?) && op.fn == 0 ==> es == []
    ensures (op.Wait? || op.Cancel?) && !(0 <= op.sock < 20000 && op.how < 2) ==> es == []
  {
    hide Ticks, Narrow;
    if op.TimerSet? && 0 < op.delay && a.now + op.delay <= 0x7fff_ffff { TicksKept(a.now + op.delay); }
    if op.TimerSet? && op.delay == 0 && a.now < 0x7fff_ffff { TicksKept(a.now + 1); }
    if op.TimerCancel? {
      assert forall id :: HasHandle(book, id, op.handle) <==> id in book.home && book.home[id] == op.handle;
    }
  }

  // ---------------------------------------------------- calls and their places

  /** Where the `k`th call of a trace is made. */
  lemma {:induction false} CallAt(t: seq<Event>, k: nat) returns (p: nat)
    requires k < |FiredIds(t)|
    ensures p < |t| && (t[p] == Fire(FiredIds(t)[k]) || t[p] == Run(FiredIds(t)[k])) && |FiredIds(t[..p])| == k
  {
    var n := |t| - 1;
    if k < |FiredIds(t[..n])| {
      p := CallAt(t[..n], k);
      assert t[..n][..p] == t[..p];
    } else {
      p := n;
    }
  }

  lemma {:induction false} CallsGrow(t: seq<Event>, p: nat, q: nat)
    requires p <= q <= |t|
    ensures |FiredIds(t[..p])| <= |FiredIds(t[..q])|
    decreases q
  {
    if p < q {
      CallsGrow(t, p, q - 1);
      assert t[..q][..q - 1] == t[..q - 1];
    }
  }

  lemma WaitNeverFires(t: seq<Event>, i: nat, p: nat, id: nat, key: nat)
    requires Legal(t) && i < p < |t| && t[i] == Event.Wait(id, key)
    ensures t[p] != Fire(id)
  {
    ArmedForStays(t, i, p, id, key);
    AtNext(t, p);
  }

  /**
   A callback that cancels a descriptor: none of the calls after it is of a callback that was armed for the
   descriptor before the calls began.
   */
  lemma CallbackCancels(from: seq<Event>, book: Book, script: nat -> seq<Op>, n: nat, to: seq<Event>, j: nat,
                        sock: int, how: nat, i: nat, id: nat)
    requires Legal(to) && CallsAnswered(from, book, script, 0, n, to) && from <= to && j < n
    requires 0 <= sock < 20000 && how < 2 && Op.Cancel(sock, how) in script(j)
    requires i < |from| && from[i] == Event.Wait(id, 2 * sock + how)
    ensures forall k :: |FiredIds(from)| + j < k < |FiredIds(to)| ==> FiredIds(to)[k] != id
  {
    hide CallsAnswered, ScriptAnswers, Answers, FiredIds, Replay, Step;
    var m, l := NthCall(from, book, script, 0, n, to, j);
    var q :| 0 <= q < |script(j)| && script(j)[q] == Op.Cancel(sock, how);
    var c, d := EachAnswered(to[..m + 1], book, script(j), to[..l], q);
    ScriptOperates(to[..m + 1], book, script(j), to[..l]);
    AnswersAre(Replay(to[..l][..c]).value, book, script(j)[q], to[..l][c..d]);
    assert to[c] == to[..l][c..d][0] == Event.Cancel(2 * sock + how);
    assert to[i] == from[i];
    FiredIdsOne(to[..m], to[m]);
    assert to[..m + 1] == to[..m] + [to[m]];
    assert forall x :: m < x < l ==> IsOperation(to[..l][x]) && to[x] == to[..l][x];
    forall k | |FiredIds(from)| + j < k < |FiredIds(to)| ensures FiredIds(to)[k] != id {
      var p := CallAt(to, k);
      CallsGrow(to, if p < m then p else m, m);
      CancelIsFinal(to, i, c, p, id, 2 * sock + how);
      WaitNeverFires(to, i, p, id, 2 * sock + how);
    }
  }

  // ------------------------------------------------------------- one batch

  lemma {:induction false} FiredPrefix(t: seq<Event>, p: nat)
    requires p <= |t|
    ensures FiredIds(t[..p]) <= FiredIds(t)
    decreases |t|
  {
    if p < |t| {
      FiredPrefix(t[..|t| - 1], p);
      assert t[..|t| - 1][..p] == t[..p];
    } else {
      assert t[..p] == t;
    }
  }

  lemma {:induction false} FirstCallFollows(from: seq<Event>, book: Book, script: nat -> seq<Op>, n: nat,
                                            to: seq<Event>)
    requires CallsAnswered(from, book, script, 0, n, to)
    ensures from <= to && (n == 0 ==> to == from)
    ensures n > 0 ==> |from| < |to| && (to[|from|].Fire? || to[|from|].Run?)
    decreases n
  {
    hide ScriptAnswers;
    if n > 0 {
      var m :| |from| <= m < |to| && CallsAnswered(from, book, script, 0, n - 1, to[..m])
        && OneCall(to, m, book, script(n - 1));
      FirstCallFollows(from, book, script, n - 1, to[..m]);
    }
  }

  /** What an event wait takes over, at the point before its begin. */
  ghost predicate TakenOver(t: seq<Event>, b: nat, full: seq<Item>) {
    Legal(t) && b < |t| && t[b] == Begin && At(t, b).queued == full && At(t, b).batch == []
  }

  /** A batch that is not empty has a first call, which is of its first callback. */
  lemma FirstIsCalledFirst(t: seq<Event>, b: nat, full: seq<Item>, book: Book, script: nat -> seq<Op>, n: nat)
    requires TakenOver(t, b, full) && full != [] && CallsAnswered(t[..b + 1], book, script, 0, n, t)
    requires BatchEvents(t[..b + 1], t) && At(t, |t|).batch == []
    ensures n > 0 && |FiredIds(t[..b])| < |FiredIds(t)| && FiredIds(t)[|FiredIds(t[..b])|] == full[0].id
  {
    hide Replay, Legal, ScriptAnswers, CallsAnswered, FiredIds;
    AtNext(t, b);
    FirstCallFollows(t[..b + 1], book, script, n, t);
    assert n == 0 ==> |t| == b + 1;
    AtNext(t, b + 1);
    assert t[..b + 2] == t[..b] + [t[b]] + [t[b + 1]];
    FiredIdsOne(t[..b], t[b]);
    FiredIdsOne(t[..b] + [t[b]], t[b + 1]);
    FiredPrefix(t, b + 2);
  }

  /** If the first callback of a batch cancels a descriptor, no later callback of the batch for it is ever called. */
  lemma FirstCancelsLater(t: seq<Event>, b: nat, full: seq<Item>, book: Book, script: nat -> seq<Op>, n: nat,
                          x: Item, sock: int, how: nat)
    requires TakenOver(t, b, full) && full != [] && CallsAnswered(t[..b + 1], book, script, 0, n, t)
    requires BatchEvents(t[..b + 1], t) && At(t, |t|).batch == []
    requires 0 <= sock < 20000 && how < 2 && Op.Cancel(sock, how) in script(0)
    requires x in full[1..] && x.key == 2 * sock + how
    ensures x.id !in FiredIds(t)
  {
    hide Replay, Legal, ScriptAnswers, CallsAnswered, FiredIds, Step, Spent, Queues, StillArmed;
    FirstIsCalledFirst(t, b, full, book, script, n);
    var h := LineIsArmed(t, b, x);
    CallbackCancels(t[..b + 1], book, script, n, t, 0, sock, how, h, x.id);
    NotCalledBefore(t, b, x);
    FiredIdsOne(t[..b], t[b]);
    assert t[..b + 1] == t[..b] + [t[b]];
    FiredPrefix(t, b);
    AtWellFormed(t, b);
    var k0 :| 0 <= k0 < |full[1..]| && full[1..][k0] == x;
    assert full[0].id != full[k0 + 1].id;
    forall k | 0 <= k < |FiredIds(t)| ensures FiredIds(t)[k] != x.id {
      if k < |FiredIds(t[..b])| { assert FiredIds(t)[k] == FiredIds(t[..b])[k]; }
    }
  }

  lemma LineIsArmed(t: seq<Event>, b: nat, x: Item) returns (h: nat)
    requires Legal(t) && b < |t| && x in At(t, b).queued && x.key >= 0
    ensures h < b && t[h] == Event.Wait(x.id, x.key)
  {
    hide Replay, Legal, Step;
    assert x in Line(At(t, b));
    var i := InLineWasQueued(t, b, x);
    h :| 0 <= h < i && StillArmed(t, h, i, x.id, x.key);
  }

  lemma NotCalledBefore(t: seq<Event>, b: nat, x: Item)
    requires Legal(t) && b < |t| && x in At(t, b).queued
    ensures x.id !in FiredIds(t[..b])
  {
    hide Replay, Step;
    SameAt(t, b);
    CalledIsSpent(t[..b]);
  }
}
