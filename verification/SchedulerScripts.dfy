/**
 What a callback does: a script of operations, each of which is answered by the event it stands for, or by none
 if it may not be performed; and how the calls of an update or a batch follow one another, each with its script.
 */
module SchedulerScripts {
  import opened Options
  import opened SchedulerSpec
  import opened SchedulerState
  import opened SchedulerSteps
  import opened SchedulerTicks

  /** An operation a callback may perform. */
  datatype Op =
    | TimerSet(delay: int, fn: nat, arg: nat)
    | TimerCancel(handle: int)
    | Schedule(fn: nat, arg: nat)
    | Wait(sock: int, how: nat, fn: nat, arg: nat)
    | Cancel(sock: int, how: nat)

  /** The events a callback may cause. */
  predicate IsOperation(e: Event) {
    e.Set? || e.Unset? || e.Schedule? || e.Wait? || e.Cancel?
  }

  /** The armings called by a trace, in order. */
  ghost function FiredIds(t: seq<Event>): seq<nat> {
    if t == [] then []
    else
      var e := t[|t| - 1];
      FiredIds(t[..|t| - 1]) + (if e.Fire? || e.Run? then [e.id] else [])
  }

  lemma FiredIdsOne(t: seq<Event>, e: Event)
    ensures FiredIds(t + [e]) == FiredIds(t) + (if e.Fire? || e.Run? then [e.id] else [])
  {
    assert (t + [e])[..|t + [e]| - 1] == t;
  }

  // -------------------------------------------------------------- one script

  /** The handle given out for each timer, and the invocation each number was armed with. */
  datatype Book = Book(home: map<nat, nat>, armed: map<nat, Call>)

  ghost function BookOf(s: St): Book {
    Book(s.home, s.armed)
  }

  predicate HasHandle(book: Book, id: nat, handle: int) {
    id in book.home && book.home[id] == handle
  }

  predicate ArmedAs(book: Book, id: nat, call: Call) {
    id in book.armed && book.armed[id] == call
  }

  /** `e` arms number `id`, which is recorded to stand for the call. */
  predicate Arms(book: Book, id: nat, call: Call, e: Event, es: seq<Event>) {
    es == [e] && ArmedAs(book, id, call)
  }

  /** Whether a timer may be set: a function, an int, and a deadline that does not compare as passed. */
  predicate MaySet(now: nat, delay: int, fn: nat) {
    fn != 0 && -0x8000_0000 <= delay <= 0x7fff_ffff && now < Ticks(Narrow(now + if delay == 0 then 1 else delay))
  }

  /** In state `a`, the operation is answered by the events `es`, one or none. */
  ghost predicate Answers(a: Abs, book: Book, op: Op, es: seq<Event>) {
    match op
    case TimerSet(delay, fn, arg) =>
      if MaySet(a.now, delay, fn) then
        && Arms(book, a.nextId, Call(fn, arg, 0, -1),
                Set(a.nextId, Ticks(Narrow(a.now + if delay == 0 then 1 else delay))), es)
        && a.nextId in book.home
      else es == []
    case TimerCancel(h) =>
      || (exists id :: id in a.timers && HasHandle(book, id, h) && es == [Unset(id)])
      || ((forall id :: id in a.timers ==> !HasHandle(book, id, h)) && es == [])
    case Schedule(fn, arg) =>
      if fn != 0 then Arms(book, a.nextId, Call(fn, arg, -1, -1), Event.Schedule(a.nextId), es) else es == []
    case Wait(sock, how, fn, arg) =>
      if fn != 0 && 0 <= sock < 20000 && how < 2
      then Arms(book, a.nextId, Call(fn, arg, sock, how), Event.Wait(a.nextId, 2 * sock + how), es)
      else es == []
    case Cancel(sock, how) =>
      es == if 0 <= sock < 20000 && how < 2 then [Event.Cancel(2 * sock + how)] else []
  }

  /** From `from` to `to` the operations of the script were answered, one after the other. */
  ghost predicate ScriptAnswers(from: seq<Event>, book: Book, script: seq<Op>, to: seq<Event>)
    decreases |script|
  {
    if script == [] then to == from
    else
      var n := |script| - 1;
      || (Legal(to) && ScriptAnswers(from, book, script[..n], to) && Answers(Replay(to).value, book, script[n], []))
      || (|to| > |from| && var m := |to| - 1;
            && Legal(to[..m]) && ScriptAnswers(from, book, script[..n], to[..m])
            && Answers(Replay(to[..m]).value, book, script[n], [to[m]]))
  }

  lemma NoScript(from: seq<Event>, book: Book, script: seq<Op>)
    ensures ScriptAnswers(from, book, script[..0], from)
  {
  }

  lemma ScriptGoesOn(from: seq<Event>, book: Book, script: seq<Op>, i: nat, t: seq<Event>, to: seq<Event>)
    requires i < |script| && ScriptAnswers(from, book, script[..i], t) && Legal(t) && from <= t <= to
    requires Answers(Replay(t).value, book, script[i], to[|t|..])
    ensures ScriptAnswers(from, book, script[..i + 1], to)
  {
    AnswersOne(Replay(t).value, book, script[i], to[|t|..]);
    var s := script[..i + 1];
    assert s[..i] == script[..i] && s[i] == script[i];
    if |to| == |t| {
      assert to == t && to[|t|..] == [];
    } else {
      assert to[..|to| - 1] == t && to[|t|..] == [to[|to| - 1]];
    }
  }

  lemma AnswersOne(a: Abs, book: Book, op: Op, es: seq<Event>)
    requires Answers(a, book, op, es)
    ensures |es| <= 1 && forall m :: 0 <= m < |es| ==> IsOperation(es[m])
  {
  }

  /** What was recorded later makes no difference to what was answered before. */
  lemma AnswersStill(a: Abs, s: St, t: St, op: Op, es: seq<Event>)
    requires WellFormed(a) && Answers(a, BookOf(s), op, es) && Remembers(s, t)
    requires a.nextId <= s.abs.nextId
    requires es != [] && (es[0].Set? || es[0].Schedule? || es[0].Wait?) ==> a.nextId < s.abs.nextId
    ensures Answers(a, BookOf(t), op, es)
  {
  }

  lemma {:induction false} ScriptStill(from: seq<Event>, s: St, t: St, script: seq<Op>, to: seq<Event>)
    requires Legal(to) && Replay(to).value.nextId <= s.abs.nextId && Remembers(s, t)
    requires ScriptAnswers(from, BookOf(s), script, to)
    ensures ScriptAnswers(from, BookOf(t), script, to)
    decreases |script|
  {
    hide Replay, Answers, Remembers, WellFormed;
    if script != [] {
      var n := |script| - 1;
      if ScriptAnswers(from, BookOf(s), script[..n], to) && Answers(Replay(to).value, BookOf(s), script[n], []) {
        ScriptStill(from, s, t, script[..n], to);
        AtWellFormed(to, |to|);
        AnswersStill(Replay(to).value, s, t, script[n], []);
      } else {
        var m := |to| - 1;
        BeforeLast(to);
        ScriptStill(from, s, t, script[..n], to[..m]);
        AnswersStill(Replay(to[..m]).value, s, t, script[n], [to[m]]);
      }
    }
  }

  /** The state before the last event of a trace. */
  lemma BeforeLast(t: seq<Event>)
    requires Legal(t) && t != []
    ensures var m := |t| - 1;
      && Legal(t[..m]) && WellFormed(Replay(t[..m]).value)
      && Replay(t[..m]).value.nextId <= Replay(t).value.nextId
      && (t[m].Set? || t[m].Schedule? || t[m].Wait? ==> Replay(t[..m]).value.nextId < Replay(t).value.nextId)
  {
    hide Replay, WellFormed, WithoutKey, MayFire, NothingDue;
    var m := |t| - 1;
    AtNext(t, m);
    SameAt(t, m);
    AtWellFormed(t, m);
  }

  /** A script only performs operations. */
  lemma {:induction false} ScriptOperates(from: seq<Event>, book: Book, script: seq<Op>, to: seq<Event>)
    requires ScriptAnswers(from, book, script, to)
    ensures from <= to && forall m :: |from| <= m < |to| ==> IsOperation(to[m])
    decreases |script|
  {
    hide Replay, Answers;
    if script != [] {
      var n := |script| - 1;
      if Legal(to) && ScriptAnswers(from, book, script[..n], to) && Answers(Replay(to).value, book, script[n], []) {
        ScriptOperates(from, book, script[..n], to);
      } else {
        var m := |to| - 1;
        ScriptOperates(from, book, script[..n], to[..m]);
        AnswersOne(Replay(to[..m]).value, book, script[n], [to[m]]);
        assert forall k :: 0 <= k < m ==> to[..m][k] == to[k];
        assert IsOperation([to[m]][0]);
      }
    }
  }

  /** Each operation of a script was answered where it stands. */
  lemma {:induction false} EachAnswered(from: seq<Event>, book: Book, script: seq<Op>, to: seq<Event>, i: nat)
    returns (k: nat, l: nat)
    requires ScriptAnswers(from, book, script, to) && i < |script|
    ensures |from| <= k <= l <= |to| && l <= k + 1
    ensures Legal(to[..k]) && Answers(Replay(to[..k]).value, book, script[i], to[k..l])
    decreases |script|
  {
    hide Replay, Answers;
    ScriptOperates(from, book, script, to);
    var n := |script| - 1;
    if Legal(to) && ScriptAnswers(from, book, script[..n], to) && Answers(Replay(to).value, book, script[n], []) {
      if i == n {
        k, l := |to|, |to|;
        assert to[..k] == to && to[k..l] == [];
      } else {
        k, l := EachAnswered(from, book, script[..n], to, i);
      }
    } else {
      var m := |to| - 1;
      if i == n {
        k, l := m, m + 1;
        assert to[k..l] == [to[m]];
      } else {
        k, l := EachAnswered(from, book, script[..n], to[..m], i);
        assert to[..m][..k] == to[..k] && to[..m][k..l] == to[k..l];
      }
    }
  }

  // ---------------------------------------------------------- call after call

  /** The calls from the `k`th to before the `n`th were made, each followed by what its script did. */
  ghost predicate CallsAnswered(from: seq<Event>, book: Book, script: nat -> seq<Op>, k: nat, n: nat, to: seq<Event>)
    decreases n
  {
    if n <= k then n == k && to == from
    else exists m :: |from| <= m < |to| && CallsAnswered(from, book, script, k, n - 1, to[..m])
                     && OneCall(to, m, book, script(n - 1))
  }

  /** The call at `m` was made, and its script answered to the end. */
  ghost predicate OneCall(to: seq<Event>, m: nat, book: Book, script: seq<Op>)
    requires m < |to|
  {
    (to[m].Fire? || to[m].Run?) && ScriptAnswers(to[..m + 1], book, script, to)
  }

  lemma NoCalls(from: seq<Event>, book: Book, script: nat -> seq<Op>, k: nat)
    ensures CallsAnswered(from, book, script, k, k, from)
  {
  }

  lemma NextCall(from: seq<Event>, book: Book, script: nat -> seq<Op>, k: nat, n: nat, mid: seq<Event>, to: seq<Event>)
    requires CallsAnswered(from, book, script, k, n, mid) && k <= n && from <= mid < to
    requires OneCall(to, |mid|, book, script(n))
    ensures CallsAnswered(from, book, script, k, n + 1, to)
  {
    assert to[..|mid|] == mid;
  }

  lemma {:induction false} CallsStill(from: seq<Event>, s: St, t: St, script: nat -> seq<Op>, k: nat, n: nat,
                                      to: seq<Event>)
    requires Legal(to) && Replay(to).value.nextId <= s.abs.nextId && Remembers(s, t)
    requires CallsAnswered(from, BookOf(s), script, k, n, to)
    ensures CallsAnswered(from, BookOf(t), script, k, n, to)
    decreases n
  {
    hide Replay, Remembers, ScriptAnswers;
    if n > k {
      var m :| |from| <= m < |to| && CallsAnswered(from, BookOf(s), script, k, n - 1, to[..m])
        && OneCall(to, m, BookOf(s), script(n - 1));
      SameAt(to, m);
      IdsGrow(to, m, |to|);
      CallsStill(from, s, t, script, k, n - 1, to[..m]);
      ScriptStill(to[..m + 1], s, t, script(n - 1), to);
      assert OneCall(to, m, BookOf(t), script(n - 1));
    }
  }

  lemma {:induction false} CallsThenCalls(from: seq<Event>, book: Book, script: nat -> seq<Op>, k: nat, mid: nat,
                                          n: nat, t: seq<Event>, to: seq<Event>)
    requires k <= mid && CallsAnswered(from, book, script, k, mid, t) && from <= t
    requires CallsAnswered(t, book, script, mid, n, to)
    ensures CallsAnswered(from, book, script, k, n, to)
    decreases n
  {
    hide ScriptAnswers;
    if n > mid {
      var m :| |t| <= m < |to| && CallsAnswered(t, book, script, mid, n - 1, to[..m])
        && OneCall(to, m, book, script(n - 1));
      CallsThenCalls(from, book, script, k, mid, n - 1, t, to[..m]);
    }
  }

  /** The stretch has as many calls as it says, and the `j`th of them is followed by what the `j`th script did. */
  lemma {:induction false} NthCall(from: seq<Event>, book: Book, script: nat -> seq<Op>, k: nat, n: nat, to: seq<Event>,
                                   j: nat) returns (m: nat, l: nat)
    requires CallsAnswered(from, book, script, k, n, to) && k <= j < n
    ensures |from| <= m < l <= |to| && (to[m].Fire? || to[m].Run?)
    ensures ScriptAnswers(to[..m + 1], book, script(j), to[..l])
    ensures |FiredIds(to[..m])| == |FiredIds(from)| + j - k
    ensures l < |to| ==> to[l].Fire? || to[l].Run?
    decreases n
  {
    hide ScriptAnswers, FiredIds, IsOperation;
    var p :| |from| <= p < |to| && CallsAnswered(from, book, script, k, n - 1, to[..p])
      && OneCall(to, p, book, script(n - 1));
    if j == n - 1 {
      m, l := p, |to|;
      CountCalls(from, book, script, k, n - 1, to[..p]);
      assert to[..l] == to;
    } else {
      m, l := NthCall(from, book, script, k, n - 1, to[..p], j);
      assert to[..p][..m + 1] == to[..m + 1] && to[..p][..l] == to[..l] && to[..p][..m] == to[..m];
    }
  }

  lemma {:induction false} CountCalls(from: seq<Event>, book: Book, script: nat -> seq<Op>, k: nat, n: nat,
                                      to: seq<Event>)
    requires CallsAnswered(from, book, script, k, n, to)
    ensures k <= n && from <= to && |FiredIds(to)| == |FiredIds(from)| + n - k
    decreases n
  {
    hide ScriptAnswers, FiredIds, IsOperation;
    if n > k {
      var p :| |from| <= p < |to| && CallsAnswered(from, book, script, k, n - 1, to[..p])
        && OneCall(to, p, book, script(n - 1));
      CountCalls(from, book, script, k, n - 1, to[..p]);
      ScriptOperates(to[..p + 1], book, script(n - 1), to);
      FiredIdsOne(to[..p], to[p]);
      assert to[..p + 1] == to[..p] + [to[p]];
      OperationsCallNothing(to[..p + 1], to);
    }
  }

  lemma {:induction false} OperationsCallNothing(from: seq<Event>, to: seq<Event>)
    requires from <= to && forall m :: |from| <= m < |to| ==> IsOperation(to[m])
    ensures FiredIds(to) == FiredIds(from)
    decreases |to|
  {
    if |to| > |from| {
      OperationsCallNothing(from, to[..|to| - 1]);
    } else {
      assert to == from;
    }
  }
}
