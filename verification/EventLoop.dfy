/**
 The event scheduler: the timing wheel of async_timer.c and the select build of the
 event loop of async_wait.c, which share one pool of callback cells.

 Callbacks are arbitrary: the k-th callback invoked by a call is the k-th script of
 operations handed to that call, run at the very point where the program calls the
 function.  Every method appends the events it stands for to the ghost `trace`, and
 `Valid` says that the trace is one the abstract scheduler allows, ending in `abs`.
 */
module EventLoops {
  import opened Options
  import opened SchedulerSpec
  import opened SchedulerTicks
  import opened SchedulerState
  import opened SchedulerSteps
  import opened SchedulerWalk
  import opened SchedulerBatch
  import opened SchedulerScripts
  import Timevals

  const SOCKET_VEC_SIZE: nat := 20000
  const ASYNC_WAIT_TYPES: nat := 2

  datatype Status = Ok | BadArgs | Eod | WouldBlock | Internal

  /** What select reports. */
  datatype Selected = Ready(fds: set<nat>) | TimedOut | Interrupted | Failed

  function FirstInQueue(q: seq<nat>): int {
    if q == [] then -1 else q[0]
  }

  /** The captures an event wait makes: ready armed descriptors, ascending, read before write. */
  ghost function Takes(waits: map<nat, nat>, fds: set<nat>, n: nat): seq<Event> {
    if n == 0 then []
    else Takes(waits, fds, n - 1) + (if n - 1 in waits && n - 1 in fds then [Take(n - 1)] else [])
  }

  /** The program's invocations are those of the trace, one for one, each as it was armed. */
  ghost predicate Logged(t: seq<Event>, ids: seq<nat>, invoked: seq<Call>, armed: map<nat, Call>) {
    && ids == FiredIds(t) && |invoked| == |ids|
    && forall k :: 0 <= k < |ids| ==> ids[k] in armed && armed[ids[k]] == invoked[k]
  }

  ghost predicate Extends(a: map<nat, Call>, b: map<nat, Call>) {
    forall id :: id in a ==> id in b && b[id] == a[id]
  }

  lemma ExtendsByOne(a: map<nat, Call>, id: nat, call: Call)
    requires id !in a
    ensures Extends(a, a[id := call])
  {
  }

  lemma ExtendsSelf(a: map<nat, Call>)
    ensures Extends(a, a)
  {
  }

  class EventLoop {
    var cells: seq<Cell>
    var freeQ: seq<nat>
    var qHead: seq<nat>
    var workQ: seq<nat>          // from w_q_n1 on
    const socketVec: array<int>  // socket_vec[s][how] at 2*s+how; -1 is a null pointer
    const callwheel: array<seq<nat>>
    var firstTime: Timevals.Timeval
    var currentOffset: nat
    var workingEntry: int        // slot number, -1 for a null pointer
    var pendingDeactivates: bool
    var timersSet: int
    var invoked: seq<Call>       // every callback invocation so far

    ghost var loc: seq<Loc>
    ghost var serial: seq<nat>
    ghost var armed: map<nat, Call>
    ghost var home: map<nat, nat>
    ghost var firing: bool
    ghost var abs: Abs
    ghost var trace: seq<Event>
    ghost var ids: seq<nat>      // the armings the invocations answer to

    ghost function Snap(): St
      reads this, callwheel, socketVec
    {
      St(cells, callwheel[..], freeQ, qHead, workQ, socketVec[..], currentOffset, workingEntry,
         pendingDeactivates, timersSet, loc, serial, armed, home, firing, abs)
    }

    /** The trace leads to `abs`, and accounts for every invocation. */
    ghost predicate Recorded()
      reads this
    {
      Replay(trace) == Some(abs) && Logged(trace, ids, invoked, armed)
    }

    /** What holds whenever an operation may be called, also from inside a callback. */
    ghost predicate Callable()
      reads this, callwheel, socketVec
    {
      Inv(Snap()) && Recorded()
    }

    /** What holds between calls made by the program. */
    ghost predicate Valid()
      reads this, callwheel, socketVec
    {
      Callable() && AtRest(Snap()) && firstTime.Normal()
    }

    constructor ()
      ensures Valid() && fresh(callwheel) && fresh(socketVec)
      ensures trace == [] && invoked == [] && abs == INITIAL
      ensures currentOffset == 0 && firstTime == Timevals.Timeval(0, 0)
    {
      hide Inv, AtRest, MayFire, WellFormed;
      cells, freeQ, qHead, workQ := [], [], [], [];
      socketVec := new int[VEC_SIZE](_ => -1);
      callwheel := new seq<nat>[WHEEL_SIZE](_ => []);
      firstTime, currentOffset, workingEntry, pendingDeactivates, timersSet := Timevals.Timeval(0, 0), 0, -1, false, 0;
      loc, serial, armed, home, firing, abs, trace := [], [], map[], map[], false, INITIAL, [];
      invoked, ids := [], [];
      new;
      assert IsInitial(Snap());
      InitialInv(Snap());
    }

    // ------------------------------------------------------------ cell pool

    method CreateCb(fn: nat, arg: nat, how: int, resource: int) returns (c: nat, ghost bp: int)
      requires Inv(Snap())
      modifies `cells, `freeQ, `loc, `serial
      ensures c == NextCell(old(Snap()))
      ensures Snap() == Create(old(Snap()), Cell(fn, arg, how, resource, bp))
    {
      hide Placed, Filled, Sorted, SumLen, Links, OnlyScheduled;
      CreateKeepsStruct(Snap(), Cell(fn, arg, how, resource, -1));
      if freeQ == [] {
        c := |cells|;
        cells := cells + [Cell(fn, arg, how, resource, -1)];
        loc, serial := loc + [Held], serial + [abs.nextId];
        bp := -1;
      } else {
        c := freeQ[0];
        freeQ := freeQ[1..];
        bp := cells[c].backptr;
        cells := cells[c := Cell(fn, arg, how, resource, cells[c].backptr)];
        loc, serial := loc[c := Held], serial[c := abs.nextId];
      }
    }

    method DestroyCb(c: nat)
      requires Struct(Snap(), c)
      modifies `freeQ, `loc
      ensures c < old(|loc|) && Snap() == Destroy(old(Snap()), c)
    {
      hide Filled, Sorted, SumLen;
      freeQ := freeQ + [c];
      loc := loc[c := Free];
    }

    // ------------------------------------------------------------ operations

    /**
     Sets a timer `delay` ticks ahead (at least one) and returns its handle.  Its deadline is what remains of the
     one worked out, which must not look as if it had passed.
     */
    method TimerSet(delay: int, fn: nat, arg: nat) returns (handle: nat)
      requires Callable() && fn != 0
      requires -0x8000_0000 <= delay <= 0x7fff_ffff
      requires currentOffset < Ticks(Narrow(currentOffset + if delay == 0 then 1 else delay))
      modifies this, callwheel
      ensures Callable() && Frame(old(Snap()), Snap()) && unchanged(`firstTime, `invoked, `ids)
      ensures old(Valid()) ==> Valid()
      ensures trace == old(trace) +
          [Set(old(abs.nextId), Ticks(Narrow(old(currentOffset) + if delay == 0 then 1 else delay)))]
      ensures 0 < delay && old(currentOffset) + delay <= 0x7fff_ffff ==>
          trace == old(trace) + [Set(old(abs.nextId), old(currentOffset) + delay)]
      ensures delay == 0 && old(currentOffset) < 0x7fff_ffff ==>
          trace == old(trace) + [Set(old(abs.nextId), old(currentOffset) + 1)]
      ensures armed == old(armed)[old(abs.nextId) := Call(fn, arg, 0, -1)]
      ensures home == old(home)[old(abs.nextId) := handle]
      ensures handle < |cells| && loc[handle].Slot? && serial[handle] == old(abs.nextId)
    {
      hide Inv, Frame, Replay, Logged, Extends, AtRest, Ticks, Narrow;
      var off := delay;
      if off == 0 {
        off := off + 1;
      }
      if 0 <= currentOffset + off <= INT_MAX { TicksKept(currentOffset + off); }
      handle := AddTimer(currentOffset + off, fn, arg);
    }

    method AddTimer(d: int, fn: nat, arg: nat) returns (c: nat)
      requires Callable() && fn != 0 && currentOffset < Ticks(Narrow(d))
      modifies this, callwheel
      ensures Callable() && Frame(old(Snap()), Snap()) && unchanged(`firstTime, `invoked, `ids, `currentOffset)
      ensures old(AtRest(Snap())) ==> AtRest(Snap())
      ensures trace == old(trace) + [Set(old(abs.nextId), Ticks(Narrow(d)))]
      ensures armed == old(armed)[old(abs.nextId) := Call(fn, arg, 0, -1)]
      ensures home == old(home)[old(abs.nextId) := c]
      ensures c < |cells| && c < |loc| && c < |serial| && loc[c].Slot? && serial[c] == old(abs.nextId)
    {
      hide Inv, Frame, Replay, Logged, Extends, AtRest, Returns, Step, Create, ToSlot, Next, Ticks, Narrow;
      ghost var s := Snap();
      ghost var bp;
      c, bp := CreateCb(fn, arg, -1, Narrow(d));
      SetCompletes(s, Narrow(d), fn, arg, bp);
      TicksOf(d);
      LinkTimer(c, d, Call(fn, arg, 0, -1));
      ExtendsByOne(s.armed, s.abs.nextId, Call(fn, arg, 0, -1));
      Return(Set(s.abs.nextId, Ticks(Narrow(d))), s);
    }

    /** The new cell joins the slot of its deadline as the next timer. */
    method LinkTimer(c: nat, d: int, ghost call: Call)
      requires Shape(Snap()) && c < |cells|
      modifies `cells, `timersSet, `loc, `home, `armed, `abs, callwheel
      ensures Snap() == ToSlot(old(Snap()), c, d % WHEEL_SIZE)
                        .(home := old(home)[old(abs.nextId) := c],
                          armed := old(armed)[old(abs.nextId) := call],
                          abs := Next(old(abs), Set(old(abs.nextId), Ticks(Narrow(d)))))
    {
      hide Next, ToSlot, Shape, Ticks, Narrow;
      ghost var id, s := abs.nextId, Snap();
      InsertTail(c, d % WHEEL_SIZE);
      home, armed, abs := home[id := c], armed[id := call], Next(s.abs, Set(id, Ticks(Narrow(d))));
    }

    /** TAILQ_INSERT_TAIL into slot `i`. */
    method InsertTail(c: nat, i: nat)
      requires Shape(Snap()) && c < |cells| && i < WHEEL_SIZE
      modifies `cells, `timersSet, `loc, callwheel
      ensures Snap() == ToSlot(old(Snap()), c, i)
    {
      callwheel[i] := callwheel[i] + [c];
      cells := cells[c := cells[c].(backptr := i)];
      timersSet := timersSet + 1;
      loc := loc[c := Slot(i)];
      assert callwheel[..] == old(callwheel[..])[i := old(callwheel[..])[i] + [c]];
    }

    /** An operation returns: its event joins the trace. */
    ghost method Return(e: Event, s: St)
      requires Replay(trace) == Some(s.abs) && Logged(trace, ids, invoked, s.armed)
      requires Returns(s, Snap(), e) && Extends(s.armed, armed) && !e.Fire? && !e.Run?
      modifies `trace
      ensures trace == old(trace) + [e] && Callable() && Frame(s, Snap()) && (AtRest(s) ==> AtRest(Snap()))
    {
      hide Step, Inv, Frame, AtRest, Extends;
      Record(e, s.armed);
    }

    /** An event that calls nothing joins the trace; `before` is what was armed before it. */
    ghost method Record(e: Event, before: map<nat, Call>)
      requires Replay(trace).Some? && Step(Replay(trace).value, e) == Some(abs)
      requires Logged(trace, ids, invoked, before) && Extends(before, armed) && !e.Fire? && !e.Run?
      modifies `trace
      ensures trace == old(trace) + [e] && Recorded()
    {
      hide Step;
      ReplayOne(trace, e);
      FiredIdsOne(trace, e);
      trace := trace + [e];
    }

    /** The call of a function: the invocation is logged, and its script runs. */
    method Invoke(ghost id: nat, ghost e: Event, call: Call, script: seq<Op>)
      requires Inv(Snap()) && Replay(trace).Some? && Step(Replay(trace).value, e) == Some(abs)
      requires Logged(trace, ids, invoked, armed) && (e == Fire(id) || e == Run(id))
      requires id in armed && armed[id] == call
      modifies this, callwheel, socketVec
      ensures Callable() && Frame(old(Snap()), Snap()) && firstTime == old(firstTime)
      ensures invoked == old(invoked) + [call]
      ensures old(trace) + [e] <= trace && ScriptAnswers(old(trace) + [e], BookOf(Snap()), script, trace)
    {
      hide Inv, Frame, Step, ScriptAnswers;
      ReplayOne(trace, e);
      FiredIdsOne(trace, e);
      trace := trace + [e];
      ids := ids + [id];
      invoked := invoked + [call];
      RunScript(script);
    }

    /** Cancels the timer behind a live handle; a null handle, or one already cancelled or fired, is left alone. */
    method TimerCancel(handle: int)
      requires Callable() && (handle == -1 || (0 <= handle < |cells| && loc[handle].Slot?))
      modifies this, callwheel
      ensures Callable() && Frame(old(Snap()), Snap()) && unchanged(`firstTime, `invoked, `ids)
      ensures old(Valid()) ==> Valid()
      ensures trace == if handle != -1 && old(cells[handle].cb) != 0
                       then old(trace) + [Unset(old(serial[handle]))] else old(trace)
      ensures unchanged(`home, `armed) && (trace == old(trace) ==> Snap() == old(Snap()))
    {
      hide Inv, Frame, Replay, Logged, Extends, AtRest, Returns, Step, Next, FromSlot, Destroy, Struct;
      ghost var s := Snap();
      if handle == -1 {
        FrameReflexive(s);
        return;
      }
      UnsetReturns(s, handle);
      ExtendsSelf(armed);
      if cells[handle].cb == 0 {
        FrameReflexive(s);
        return;  // Self-cancellation
      }
      if cells[handle].backptr == workingEntry {
        Tombstone(handle);
      } else {
        Release(handle, cells[handle].backptr);
        abs := Next(s.abs, Unset(s.serial[handle]));
      }
      Return(Unset(s.serial[handle]), s);
    }

    method Tombstone(c: nat)
      requires |loc| == |cells| == |serial| && c < |cells|
      modifies `cells, `pendingDeactivates, `abs
      ensures Snap() == old(Snap()).(cells := old(cells)[c := old(cells[c]).(cb := 0)], pending := true,
                                     abs := Next(old(abs), Unset(old(serial[c]))))
    {
      hide Next;
      cells := cells[c := cells[c].(cb := 0)];
      pendingDeactivates := true;
      abs := Next(abs, Unset(serial[c]));
    }

    /** Unlinks a cell from slot `i`, counts it out and frees it. */
    method Release(c: nat, i: nat)
      requires Shape(Snap()) && c < |cells| && i < WHEEL_SIZE && Struct(FromSlot(Snap(), c, i), c)
      modifies `timersSet, `loc, `freeQ, callwheel
      ensures Snap() == Destroy(FromSlot(old(Snap()), c, i), c)
    {
      hide Struct, FromSlot;
      UnlinkTimer(c, i);
      DestroyCb(c);
    }

    /** TAILQ_REMOVE from slot `i`. */
    method UnlinkTimer(c: nat, i: nat)
      requires Shape(Snap()) && c < |cells| && i < WHEEL_SIZE
      modifies `timersSet, `loc, callwheel
      ensures Snap() == FromSlot(old(Snap()), c, i)
    {
      callwheel[i] := Without(callwheel[i], c);
      timersSet := timersSet - 1;
      loc := loc[c := Held];
      assert callwheel[..] == old(callwheel[..])[i := Without(old(callwheel[..])[i], c)];
    }

    /** Queues a callback for the next event wait. */
    method Schedule(fn: nat, arg: nat)
      requires Callable() && fn != 0
      modifies this
      ensures Callable() && Frame(old(Snap()), Snap()) && unchanged(`firstTime, `invoked, `ids)
      ensures old(Valid()) ==> Valid()
      ensures trace == old(trace) + [Event.Schedule(old(abs.nextId))]
      ensures armed == old(armed)[old(abs.nextId) := Call(fn, arg, -1, -1)]
    {
      hide Inv, Frame, Replay, Logged, Extends, AtRest, Returns, Step, Create, ToQueue, Next;
      ghost var s := Snap();
      var c, bp := CreateCb(fn, arg, -1, -1);
      ScheduleCompletes(s, fn, arg, bp);
      Enqueue(c, Call(fn, arg, -1, -1));
      ExtendsByOne(s.armed, s.abs.nextId, Call(fn, arg, -1, -1));
      Return(Event.Schedule(s.abs.nextId), s);
    }

    /** TAILQ_INSERT_TAIL into `q_head`. */
    method Enqueue(c: nat, ghost call: Call)
      requires c < |loc|
      modifies `qHead, `loc, `armed, `abs
      ensures Snap() == ToQueue(old(Snap()), c)
                        .(armed := old(armed)[old(abs.nextId) := call],
                            abs := Next(old(abs), Event.Schedule(old(abs.nextId))))
    {
      hide Next;
      armed := armed[abs.nextId := call];
      abs := Next(abs, Event.Schedule(abs.nextId));
      qHead := qHead + [c];
      loc := loc[c := Queued];
    }

    /** Arms a callback for a descriptor, replacing the one armed before. */
    method Wait(sock: int, how: nat, fn: nat, arg: nat) returns (r: Status)
      requires Callable() && fn != 0
      modifies this, socketVec
      ensures Callable() && Frame(old(Snap()), Snap()) && unchanged(`firstTime, `invoked, `ids)
      ensures old(Valid()) ==> Valid()
      ensures r == if 0 <= sock < 20000 && how < 2 then Ok else BadArgs
      ensures r == Ok ==> trace == old(trace) + [Event.Wait(old(abs.nextId), 2 * sock + how)]
      ensures r == Ok ==> armed == old(armed)[old(abs.nextId) := Call(fn, arg, sock, how)]
      ensures r != Ok ==> Snap() == old(Snap()) && trace == old(trace)
    {
      hide Inv, Frame, Replay, Logged, Extends, AtRest, Returns;
      if sock < 0 || sock >= SOCKET_VEC_SIZE || how >= ASYNC_WAIT_TYPES {
        FrameReflexive(Snap());
        return BadArgs;
      }
      Rearm(sock, how, fn, arg);
      r := Ok;
    }

    method Rearm(sock: nat, how: nat, fn: nat, arg: nat)
      requires Callable() && fn != 0 && sock < SOCKET_VEC_SIZE && how < ASYNC_WAIT_TYPES
      modifies this, socketVec
      ensures Callable() && Frame(old(Snap()), Snap()) && unchanged(`firstTime, `invoked, `ids)
      ensures old(AtRest(Snap())) ==> AtRest(Snap())
      ensures trace == old(trace) + [Event.Wait(old(abs.nextId), 2 * sock + how)]
      ensures armed == old(armed)[old(abs.nextId) := Call(fn, arg, sock, how)]
    {
      hide Inv, Frame, Replay, Logged, AtRest, DropStep;
      ghost var s := Snap();
      Drop(2 * sock + how);
      ArmAnew(sock, how, fn, arg, s);
    }

    /** Arms a descriptor whose callback of state `s` has been dropped. */
    method ArmAnew(sock: nat, how: nat, fn: nat, arg: nat, ghost s: St)
      requires fn != 0 && sock < SOCKET_VEC_SIZE && how < ASYNC_WAIT_TYPES
      requires Inv(s) && Snap() == DropStep(s, 2 * sock + how) && Inv(Snap())
      requires Replay(trace) == Some(s.abs) && Logged(trace, ids, invoked, s.armed)
      modifies `cells, `freeQ, `loc, `serial, `armed, `abs, `trace, socketVec
      ensures Callable() && Frame(s, Snap()) && (AtRest(s) ==> AtRest(Snap()))
      ensures trace == old(trace) + [Event.Wait(s.abs.nextId, 2 * sock + how)]
      ensures armed == s.armed[s.abs.nextId := Call(fn, arg, sock, how)]
    {
      hide Inv, Frame, Replay, Logged, Extends, AtRest, Returns, Create, ToVec, Next, DropStep, Step;
      var v := 2 * sock + how;
      var c, bp := CreateCb(fn, arg, how, sock);
      WaitReturns(s, v, Cell(fn, arg, how, sock, bp));
      Arm(c, v, Call(fn, arg, sock, how));
      ExtendsByOne(s.armed, s.abs.nextId, Call(fn, arg, sock, how));
      Return(Event.Wait(s.abs.nextId, v), s);
    }

    method Arm(c: nat, v: nat, ghost call: Call)
      requires Shape(Snap()) && c < |loc| && v < VEC_SIZE
      modifies `loc, `armed, `abs, socketVec
      ensures Snap() == ToVec(old(Snap()), c, v)
                        .(armed := old(armed)[old(abs.nextId) := call],
                            abs := Next(old(abs), Event.Wait(old(abs.nextId), v)))
    {
      hide Next;
      armed := armed[abs.nextId := call];
      abs := Next(abs, Event.Wait(abs.nextId, v));
      socketVec[v] := c;
      loc := loc[c := Sock(v)];
      assert socketVec[..] == old(socketVec[..])[v := c];
    }

    /** Destroys the callback armed for `v`, if any; the trace is left to the caller. */
    method Drop(v: nat)
      requires Inv(Snap()) && v < VEC_SIZE
      modifies `freeQ, `loc, `abs, socketVec
      ensures Snap() == DropStep(old(Snap()), v) && Inv(Snap())
    {
      hide Inv, DropStep, FromVec, Destroy;
      ghost var s := Snap();
      DropUnfolds(s, v);
      DropKeepsInv(s, v);
      if socketVec[v] != -1 {
        var c := socketVec[v];
        Disarm(c, v);
        DestroyCb(c);
        abs := abs.(waits := abs.waits - {v});
        assert Snap() == DropStep(s, v);
      }
    }

    method Disarm(c: nat, v: nat)
      requires Shape(Snap()) && c < |loc| && v < VEC_SIZE
      modifies `loc, socketVec
      ensures Snap() == FromVec(old(Snap()), c, v)
    {
      socketVec[v] := -1;
      loc := loc[c := Held];
      assert socketVec[..] == old(socketVec[..])[v := -1];
    }

    /** Cancels whatever is armed, queued or about to run for a descriptor. */
    method Cancel(sock: int, how: nat) returns (r: Status)
      requires Callable()
      modifies this, socketVec
      ensures Callable() && Frame(old(Snap()), Snap()) && unchanged(`firstTime, `invoked, `ids)
      ensures old(Valid()) ==> Valid()
      ensures r == if 0 <= sock < 20000 && how < 2 then Ok else BadArgs
      ensures r == Ok ==> trace == old(trace) + [Event.Cancel(2 * sock + how)]
      ensures r != Ok ==> Snap() == old(Snap()) && trace == old(trace)
    {
      hide Inv, Frame, Replay, Logged, Extends, AtRest, Returns, Step, DropStep, MarkStep, Next;
      ghost var s := Snap();
      if sock < 0 || sock >= SOCKET_VEC_SIZE || how >= ASYNC_WAIT_TYPES {
        FrameReflexive(s);
        return BadArgs;
      }
      var v := 2 * sock + how;
      Drop(v);
      MarkQueued(sock, how);
      abs := Next(abs, Event.Cancel(v));
      CancelReturns(s, sock, how);
      ExtendsSelf(armed);
      Return(Event.Cancel(v), s);
      r := Ok;
    }

    /** Marks the first callback behind `w_q_n1` that belongs to the descriptor. */
    method MarkQueued(sock: nat, how: nat)
      requires Inv(Snap()) && how <= 1
      modifies `cells
      ensures Snap().(abs := Next(abs, Event.Cancel(2 * sock + how))) == MarkStep(old(Snap()), sock, how)
    {
      hide Inv, Next, Step, MarkStep, FirstMatch, Unrun;
      MarkUnfolds(Snap(), sock, how);
      var m := FindQueued(sock, how);
      if m != -1 {
        cells := cells[m := cells[m].(cb := 0)];
      }
    }

    /** The search behind `w_q_n1`. */
    method FindQueued(sock: nat, how: nat) returns (m: int)
      requires workQ != [] <==> firing
      requires forall k :: 0 <= k < |Unrun(Snap())| ==> Unrun(Snap())[k] < |cells|
      ensures m == FirstMatch(cells, Unrun(Snap()), sock, how)
    {
      if workQ == [] {
        return -1;
      }
      hide FirstMatch;
      assert forall k :: 1 <= k < |workQ| ==> workQ[k] == Unrun(Snap())[k - 1];
      var c := 1;
      while c < |workQ| && !(cells[workQ[c]].resource == sock && cells[workQ[c]].how == how)
        invariant 1 <= c <= |workQ|
        invariant FirstMatch(cells, workQ[1..], sock, how) == FirstMatch(cells, workQ[c..], sock, how)
      {
        MatchFurther(cells, workQ, c, sock, how);
        c := c + 1;
      }
      MatchHere(cells, workQ, c, sock, how);
      m := if c < |workQ| then workQ[c] else -1;
    }

    // --------------------------------------------------------------- callbacks

    /** Whether a program could perform `op` now: live handle, non-null function, deadline that does not look passed. */
    predicate Allowed(op: Op)
      reads this, callwheel
    {
      match op
      case TimerSet(delay, fn, _) => MaySet(currentOffset, delay, fn)
      case TimerCancel(h) => h == -1 || LiveHandle(h)
      case Schedule(fn, _) => fn != 0
      case Wait(_, _, fn, _) => fn != 0
      case Cancel(_, _) => true
    }

    /** The handle's cell is linked in the slot it names. */
    predicate LiveHandle(h: int)
      reads this, callwheel
    {
      0 <= h < |cells| && 0 <= cells[h].backptr < callwheel.Length && h in callwheel[cells[h].backptr]
    }

    /** Performs one operation, unless no well-behaved program could. */
    method Perform(op: Op)
      requires Callable()
      modifies this, callwheel, socketVec
      ensures Callable() && Frame(old(Snap()), Snap()) && unchanged(`firstTime, `invoked, `ids)
      ensures old(trace) <= trace && Answers(old(abs), BookOf(Snap()), op, trace[|old(trace)|..])
      ensures op.TimerSet? && op.fn != 0 && 0 < op.delay && old(currentOffset) + op.delay <= 0x7fff_ffff ==>
          && trace == old(trace) + [Set(old(abs.nextId), old(currentOffset) + op.delay)]
          && armed == old(armed)[old(abs.nextId) := Call(op.fn, op.arg, 0, -1)]
      ensures op.TimerCancel? && (0 <= op.handle < old(|cells|) && old(loc)[op.handle].Slot?
                                  && old(cells)[op.handle].cb != 0) ==>
          trace == old(trace) + [Unset(old(serial)[op.handle])]
      ensures op.Schedule? && op.fn != 0 ==>
          && trace == old(trace) + [Event.Schedule(old(abs.nextId))]
          && armed == old(armed)[old(abs.nextId) := Call(op.fn, op.arg, -1, -1)]
      ensures op.Wait? && op.fn != 0 && 0 <= op.sock < 20000 && op.how < 2 ==>
          && trace == old(trace) + [Event.Wait(old(abs.nextId), 2 * op.sock + op.how)]
          && armed == old(armed)[old(abs.nextId) := Call(op.fn, op.arg, op.sock, op.how)]
      ensures op.Cancel? && 0 <= op.sock < 20000 && op.how < 2 ==>
          trace == old(trace) + [Event.Cancel(2 * op.sock + op.how)]
      ensures (op.Wait? || op.Cancel?) && !(0 <= op.sock < 20000 && op.how < 2) ==>
          Snap() == old(Snap()) && trace == old(trace)
      ensures trace == old(trace) ==> Snap() == old(Snap())
    {
      hide Inv, Frame, Replay, Logged, Extends, Step, AtRest, Ticks, Narrow;
      assert trace[|trace|..] == [];
      InvNow(Snap());
      if op.TimerCancel? { HandleEnds(Snap(), op.handle); }
      if op.TimerSet? && 0 < op.delay && currentOffset + op.delay <= 0x7fff_ffff {
        TicksKept(currentOffset + op.delay);
      }
      if !Allowed(op) {
        FrameReflexive(Snap());
        return;
      }
      match op
      case TimerSet(delay, fn, arg) =>
        var _ := TimerSet(delay, fn, arg);
      case TimerCancel(h) =>
        TimerCancel(h);
      case Schedule(fn, arg) =>
        Schedule(fn, arg);
      case Wait(sock, how, fn, arg) =>
        var _ := Wait(sock, how, fn, arg);
      case Cancel(sock, how) =>
        var _ := Cancel(sock, how);
    }

    /** A callback: any sequence of operations, each of them answered. */
    method RunScript(script: seq<Op>)
      requires Callable()
      modifies this, callwheel, socketVec
      ensures Callable() && Frame(old(Snap()), Snap()) && unchanged(`firstTime, `invoked, `ids)
      ensures old(trace) <= trace && ScriptAnswers(old(trace), BookOf(Snap()), script, trace)
    {
      hide Inv, Frame, Replay, Logged, Extends, Step, Answers, ScriptAnswers;
      ghost var s := Snap();
      FrameReflexive(s);
      NoScript(trace, BookOf(s), script);
      for i := 0 to |script|
        invariant Callable() && Frame(s, Snap()) && unchanged(`firstTime, `invoked, `ids)
        invariant old(trace) <= trace && ScriptAnswers(old(trace), BookOf(Snap()), script[..i], trace)
      {
        ghost var t, before := Snap(), trace;
        Perform(script[i]);
        FrameTransitive(s, t, Snap());
        FrameRemembers(t, Snap());
        ScriptStill(old(trace), t, Snap(), script[..i], before);
        ScriptGoesOn(old(trace), BookOf(Snap()), script, i, before, trace);
      }
      assert script[..|script|] == script;
    }

    // -------------------------------------------------------------- the update

    /** Clears and calls a cell's callback. */
    method CallBack(cb: nat, ghost o: nat, ghost k: nat, script: seq<Op>)
      requires Callable() && Walking(Snap(), o, k) && k < |callwheel[workingEntry]| && callwheel[workingEntry][k] == cb
      requires Ticks(cells[cb].resource) <= currentOffset && cells[cb].cb != 0
      modifies this, callwheel, socketVec
      ensures Callable() && AtCell(Snap(), o, k)
      ensures DueAhead(Snap(), k) == old(DueAhead(Snap(), k)) && Behind(old(Snap()), Snap())
      ensures UpdateEvents(old(trace), trace) && firstTime == old(firstTime)
      ensures old(invoked) <= invoked
      ensures Remembers(old(Snap()), Snap())
      ensures old(trace) < trace && OneCall(trace, |old(trace)|, BookOf(Snap()), script)
    {
      hide Inv, Frame, Replay, Logged, Extends, Step, Walking, AtCell, DueAhead, Behind, UpdateEvents, Remembers,
          ScriptAnswers;
      ghost var s := Snap();
      WalkingShape(s, o, k);
      FireInWalk(s, o, k);
      ghost var id := serial[cb];
      var call := Call(cells[cb].cb, cells[cb].arg, 0, -1);
      abs := abs.(timers := abs.timers - {id});
      cells := cells[cb := cells[cb].(cb := 0)];
      ghost var t := Snap();
      Invoke(id, Fire(id), call, script);
      BehindAfterCallback(s, t, Snap(), o, k);
      CallWas(old(trace), Fire(id), trace, BookOf(Snap()), script);
      EventsAfterFire(old(trace), trace, id);
    }

    /** Takes a due cell out of the slot being walked, calling it back unless it was cancelled. */
    method ServeDue(cb: nat, ghost o: nat, ghost k: nat, script: seq<Op>) returns (called: bool)
      requires Callable() && Walking(Snap(), o, k) && k < |callwheel[workingEntry]| && callwheel[workingEntry][k] == cb
      requires Ticks(cells[cb].resource) <= currentOffset
      modifies this, callwheel, socketVec
      ensures Callable() && Walking(Snap(), o, k) && workingEntry == old(workingEntry)
          && currentOffset == old(currentOffset)
      ensures DueAhead(Snap(), k) == old(DueAhead(Snap(), k)) - 1
      ensures if k + 1 < |old(callwheel[workingEntry])|
              then k < |callwheel[workingEntry]| && callwheel[workingEntry][k] == old(callwheel[workingEntry])[k + 1]
              else Walking(Snap(), o, |callwheel[workingEntry]|)
      ensures UpdateEvents(old(trace), trace) && firstTime == old(firstTime)
      ensures old(invoked) <= invoked
      ensures Remembers(old(Snap()), Snap())
      ensures if called then old(trace) < trace && OneCall(trace, |old(trace)|, BookOf(Snap()), script)
              else trace == old(trace)
    {
      hide Inv, Frame, Replay, Logged, Extends, Step, Walking, AtCell, DueAhead, Behind, Destroy, FromSlot, Struct,
          Remembers, OneCall;
      ghost var s := Snap();
      WalkingShape(s, o, k);
      called := cells[cb].cb != 0;
      if called {
        CallBack(cb, o, k, script);
      } else {
        CancelledInWalk(s, o, k);
      }
      ghost var t := Snap();
      ServedGoesOn(s, t, o, k);
      Release(cb, workingEntry);
      RemembersStill(s, t, Snap());
    }

    /** First pass over a slot: calls back and removes whatever is due. */
    method WalkSlot(ghost o: nat, script: nat -> seq<Op>, calls: nat) returns (calls': nat)
      requires Callable() && Walking(Snap(), o, 0)
      modifies this, callwheel, socketVec
      ensures Callable() && workingEntry == old(workingEntry) && currentOffset == old(currentOffset)
      ensures 0 <= workingEntry < callwheel.Length && Walking(Snap(), o, |callwheel[workingEntry]|)
      ensures UpdateEvents(old(trace), trace) && firstTime == old(firstTime)
      ensures old(invoked) <= invoked
      ensures Remembers(old(Snap()), Snap())
      ensures CallsAnswered(old(trace), BookOf(Snap()), script, calls, calls', trace)
    {
      hide Inv, Frame, Replay, Logged, Extends, Step, Walking, DueAhead, Remembers, CallsAnswered, OneCall;
      calls' := calls;
      NoCalls(trace, BookOf(Snap()), script, calls);
      ghost var k := 0;
      RemembersStill(Snap(), Snap(), Snap());
      WalkingShape(Snap(), o, k);
      var i := workingEntry;
      var cb := FirstInQueue(callwheel[i]);
      WalkStarts(Snap(), o);
      while cb != -1
        invariant Callable() && Walking(Snap(), o, k)
        invariant workingEntry == i == old(workingEntry) && currentOffset == old(currentOffset)
        invariant if cb == -1 then Walking(Snap(), o, |callwheel[i]|)
                  else k < |callwheel[i]| && callwheel[i][k] == cb
        invariant UpdateEvents(old(trace), trace) && firstTime == old(firstTime) && old(invoked) <= invoked
        invariant Remembers(old(Snap()), Snap())
        invariant calls <= calls' && CallsAnswered(old(trace), BookOf(Snap()), script, calls, calls', trace)
        decreases DueAhead(Snap(), k), |callwheel[i]| - k
      {
        ghost var s, before := Snap(), trace;
        NextInWalk(s, o, k);
        var cb2 := NextInQueue(callwheel[i], cb);
        if Ticks(cells[cb].resource) <= currentOffset {
          var called := ServeDue(cb, o, k, script(calls'));
          RemembersOn(old(Snap()), s, Snap());
          CallsStill(old(trace), s, Snap(), script, calls, calls', before);
          if called {
            NextCall(old(trace), BookOf(Snap()), script, calls, calls', before, trace);
            calls' := calls' + 1;
          }
        } else {
          SkipGoesOn(s, o, k);
          k := k + 1;
        }
        cb := cb2;
      }
    }

    /** Second pass over a slot: removes what was cancelled while it was walked. */
    method SweepSlot(ghost o: nat)
      requires Callable() && Sweeping(Snap(), o, 0)
      modifies `timersSet, `loc, `freeQ, callwheel
      ensures Callable() && 0 <= workingEntry < callwheel.Length
      ensures Sweeping(Snap(), o, |callwheel[workingEntry]|)
    {
      hide Inv, Replay, Logged, Extends, Sweeping, Destroy, FromSlot, Struct;
      ghost var k := 0;
      SweepStarts(Snap(), o);
      var i := workingEntry;
      var cb := FirstInQueue(callwheel[i]);
      while cb != -1
        invariant Callable() && Sweeping(Snap(), o, k)
        invariant if cb == -1 then k == |callwheel[i]| else k < |callwheel[i]| && callwheel[i][k] == cb
        decreases |callwheel[i]| - k
      {
        ghost var s := Snap();
        NextInSweep(s, o, k);
        var cb2 := NextInQueue(callwheel[i], cb);
        if cells[cb].cb == 0 {
          Release(cb, i);
        } else {
          k := k + 1;
        }
        cb := cb2;
      }
    }

    /** One slot of an update: both passes. */
    method UpdateSlot(o: nat, script: nat -> seq<Op>, calls: nat) returns (calls': nat)
      requires Callable() && NoTombstones(Snap()) && !firing && Swept(abs, o) && o <= currentOffset
      modifies this, callwheel, socketVec
      ensures Callable() && NoTombstones(Snap()) && !firing && Swept(abs, o + 1)
      ensures currentOffset == old(currentOffset) && firstTime == old(firstTime)
      ensures UpdateEvents(old(trace), trace)
      ensures old(invoked) <= invoked
      ensures Remembers(old(Snap()), Snap())
      ensures CallsAnswered(old(trace), BookOf(Snap()), script, calls, calls', trace)
    {
      hide Inv, Frame, Replay, Logged, Extends, Step, Walking, Sweeping, Swept, NoTombstones, Remembers, CallsAnswered;
      EnterStartsWalk(Snap(), o);
      workingEntry := o % WHEEL_SIZE;
      pendingDeactivates := false;
      ghost var s := Snap();
      RemembersStill(old(Snap()), old(Snap()), s);
      calls' := WalkSlot(o, script, calls);
      ghost var t := Snap();
      RemembersOn(old(Snap()), s, t);
      WalkEnds(t, o);
      if pendingDeactivates {
        SweepSlot(o);
        SweepEnds(Snap(), o);
        RemembersStill(old(Snap()), t, Snap());
      }
    }

    /** Walks every slot from the present to the new time. */
    method AdvanceTo(newOffset: nat, script: nat -> seq<Op>) returns (calls: nat)
      requires Valid() && currentOffset <= newOffset
      modifies this, callwheel, socketVec
      ensures Valid() && firstTime == old(firstTime) && currentOffset == newOffset
      ensures UpdateEvents(old(trace) + [Advance(newOffset)], trace)
      ensures old(invoked) <= invoked
      ensures Remembers(old(Snap()), Snap())
      ensures CallsAnswered(old(trace) + [Advance(newOffset)], BookOf(Snap()), script, 0, calls, trace)
    {
      hide Inv, Frame, Replay, Logged, Extends, Step, Swept, NoTombstones, NothingDue, Remembers, CallsAnswered;
      StartUpdate(Snap(), newOffset);
      var offset: nat := currentOffset + 1;
      abs := abs.(prev := abs.now, now := newOffset);
      currentOffset := newOffset;
      ExtendsSelf(armed);
      Record(Advance(newOffset), armed);
      RemembersStill(old(Snap()), old(Snap()), Snap());
      calls := 0;
      NoCalls(trace, BookOf(Snap()), script, 0);
      while offset <= currentOffset
        invariant Callable() && NoTombstones(Snap()) && !firing && Swept(abs, offset)
        invariant offset <= currentOffset + 1 == newOffset + 1 && firstTime == old(firstTime)
        invariant UpdateEvents(old(trace) + [Advance(newOffset)], trace) && old(invoked) <= invoked
        invariant Remembers(old(Snap()), Snap())
        invariant CallsAnswered(old(trace) + [Advance(newOffset)], BookOf(Snap()), script, 0, calls, trace)
      {
        ghost var s, before, made := Snap(), trace, calls;
        calls := UpdateSlot(offset, script, calls);
        RemembersOn(old(Snap()), s, Snap());
        CallsStill(old(trace) + [Advance(newOffset)], s, Snap(), script, 0, made, before);
        CallsThenCalls(old(trace) + [Advance(newOffset)], BookOf(Snap()), script, 0, made, calls, before, trace);
        offset := offset + 1;
      }
      ghost var t := Snap();
      LeaveWheel(t);
      workingEntry := -1;
      RemembersStill(old(Snap()), t, Snap());
    }

    /**
     NR_async_timer_update_time.  The first call only starts the clock; a clock that has
     gone back changes nothing; otherwise the wheel advances and everything due is served,
     leaving the scheduler valid again: nothing due, no tombstones, one event per timer.
     */
    method UpdateTime(tv: Timevals.Timeval, script: nat -> seq<Op>) returns (r: Status, calls: nat)
      requires Valid() && tv.Normal() && tv.sec != 0
      modifies this, callwheel, socketVec
      ensures Valid()
      ensures firstTime == if old(firstTime).sec == 0 then tv else old(firstTime)
      ensures r == if old(firstTime).sec != 0 && (tv.sec < old(firstTime).sec
                                                 || (tv.sec == old(firstTime).sec && tv.usec < old(firstTime).usec))
                   then BadArgs else Ok
      ensures var elapsed := ((tv.sec - old(firstTime).sec) * 1000000 + tv.usec - old(firstTime).usec) / 1000;
        if old(firstTime).sec == 0 || r != Ok || elapsed < old(currentOffset)
        then trace == old(trace) && Snap() == old(Snap())
        else
          && currentOffset == elapsed && UpdateEvents(old(trace) + [Advance(elapsed)], trace)
          && CallsAnswered(old(trace) + [Advance(elapsed)], BookOf(Snap()), script, 0, calls, trace)
      ensures old(invoked) <= invoked
      ensures Remembers(old(Snap()), Snap())
    {
      hide Inv, Replay, Logged, Extends, NoTombstones, NothingDue, UpdateEvents, CallsAnswered;
      if firstTime.sec == 0 {
        firstTime := tv;
        return Ok, 0;
      }
      var diff := Timevals.Diff(tv, firstTime);
      if diff.None? {
        return BadArgs, 0;
      }
      var newOffset := Timevals.ToInt(diff.value) / 1000;
      if newOffset < currentOffset {
        return Ok, 0;
      }
      calls := AdvanceTo(newOffset, script);
      r := Ok;
    }

    /**
     NR_async_timer_next_timeout: the shortest delay to a pending deadline.  Not found when there
     is none shorter than INT_MAX, which also stands for the empty answer.
     */
    method NextTimeout() returns (r: Option<int>)
      requires Callable()
      ensures r.None? <==> forall id :: id in abs.timers ==> Narrow(abs.timers[id] - abs.now) >= INT_MAX
      ensures r.Some? ==> IsNextTimeout(abs, r.value)
      ensures r.Some? ==> exists id :: id in abs.timers && Narrow(abs.timers[id] - abs.now) == r.value
      ensures r.Some? ==> forall id :: id in abs.timers ==> r.value <= Narrow(abs.timers[id] - abs.now)
    {
      hide Inv, Replay, Logged, Extends, Struct, Narrow, Ticks, NoShorter;
      InvShape(Snap());
      var minDelay: int := INT_MAX;
      var i := 0;
      while i < WHEEL_SIZE
        invariant i <= WHEEL_SIZE && minDelay <= INT_MAX
        invariant IsDelay(minDelay)
        invariant forall j :: 0 <= j < i ==> NoShorter(minDelay, callwheel[j])
      {
        ghost var d := minDelay;
        minDelay := SlotMinimum(i, minDelay);
        forall j | 0 <= j < i ensures NoShorter(minDelay, callwheel[j]) {
          NoShorterStill(d, minDelay, callwheel[j]);
        }
        i := i + 1;
      }
      forall id | id in abs.timers ensures Narrow(abs.timers[id] - abs.now) >= minDelay {
        NotShorter(minDelay, id);
      }
      if minDelay == INT_MAX {
        return None;
      }
      r := Some(minDelay);
    }

    ghost predicate IsDelay(d: int)
      reads this
    {
      d == INT_MAX || exists id :: id in abs.timers && Narrow(abs.timers[id] - abs.now) == d
    }

    ghost predicate NoShorter(d: int, q: seq<nat>)
      reads this
    {
      forall k :: 0 <= k < |q| && q[k] < |cells| && cells[q[k]].cb != 0 ==>
        d <= Narrow(cells[q[k]].resource - currentOffset)
    }

    lemma NotShorter(d: int, id: nat)
      requires Callable() && id in abs.timers && callwheel.Length == WHEEL_SIZE
      requires forall j :: 0 <= j < WHEEL_SIZE ==> NoShorter(d, callwheel[j])
      ensures d <= Narrow(abs.timers[id] - abs.now)
    {
      hide Inv, Recorded, Narrow, Ticks;
      InvShape(Snap());
      TimerHome(Snap(), id);
      var c := home[id];
      TimerLive(Snap(), id);
      NarrowDifference(cells[c].resource, currentOffset);
      assert c in Snap().wheel[abs.timers[id] % WHEEL_SIZE];
      assert NoShorter(d, callwheel[abs.timers[id] % WHEEL_SIZE]);
    }

    lemma NoShorterStill(d: int, m: int, q: seq<nat>)
      requires NoShorter(d, q) && m <= d
      ensures NoShorter(m, q)
    {
      hide Narrow;
    }

    lemma NoShorterOneMore(d: int, m: int, q: seq<nat>, k: nat)
      requires k < |q| && q[k] < |cells| && NoShorter(d, q[..k]) && m <= d
      requires cells[q[k]].cb != 0 ==> m <= Narrow(cells[q[k]].resource - currentOffset)
      ensures NoShorter(m, q[..k + 1])
    {
      hide Narrow;
      assert forall j :: 0 <= j < k ==> q[..k + 1][j] == q[..k][j];
    }

    /** The delay of a live cell is that of its timer. */
    lemma DelayOfCell(c: nat)
      requires Callable() && c < |cells| == |loc| && loc[c].Slot? && cells[c].cb != 0
      ensures IsDelay(Narrow(cells[c].resource - currentOffset))
    {
      hide Inv, Recorded, Narrow, Ticks;
      InvShape(Snap());
      LiveCellPending(Snap(), c);
      NarrowDifference(cells[c].resource, currentOffset);
      assert serial[c] in abs.timers;
    }

    method SlotMinimum(i: nat, minDelay: int) returns (m: int)
      requires Callable() && i < callwheel.Length && minDelay <= INT_MAX && IsDelay(minDelay)
      ensures m <= minDelay && IsDelay(m) && NoShorter(m, callwheel[i])
    {
      hide Inv, Replay, Logged, Extends, Narrow, Ticks, NoShorter, IsDelay;
      InvShape(Snap());
      m := minDelay;
      ghost var k := 0;
      var q := callwheel[i];
      SlotFacts(Snap(), i);
      var cb := FirstInQueue(q);
      NoneShorter(m, q);
      while cb != -1
        invariant k <= |q| && (if cb == -1 then k == |q| else k < |q| && q[k] == cb)
        invariant m <= minDelay && IsDelay(m) && NoShorter(m, q[..k])
        decreases |q| - k
      {
        ghost var d := m;
        if cells[cb].cb != 0 {
          DelayOfCell(cb);
          var thisDelay := Narrow(cells[cb].resource - currentOffset);
          if thisDelay < m {
            m := thisDelay;
          }
        }
        NoShorterOneMore(d, m, q, k);
        NextInQueueAt(q, k);
        cb := NextInQueue(q, cb);
        k := k + 1;
      }
      assert q[..k] == q;
    }

    lemma NoneShorter(d: int, q: seq<nat>)
      ensures NoShorter(d, q[..0])
    {
    }

    // ---------------------------------------------------------- the event wait

    /** The highest armed descriptor, or -1. */
    method MaxFd() returns (maxfd: int)
      requires Valid()
      ensures -1 <= maxfd < SOCKET_VEC_SIZE && socketVec.Length == VEC_SIZE
      ensures forall v :: 0 <= v < VEC_SIZE && socketVec[..][v] != -1 ==> v < 2 * (maxfd + 1)
      ensures maxfd != -1 ==> socketVec[..][2 * maxfd] != -1 || socketVec[..][2 * maxfd + 1] != -1
    {
      hide Inv, Replay, Logged, Extends, AtRest;
      InvShape(Snap());
      maxfd := -1;
      var i := 0;
      while i < SOCKET_VEC_SIZE
        invariant 0 <= i <= SOCKET_VEC_SIZE && -1 <= maxfd < i
        invariant forall v :: 0 <= v < 2 * i && socketVec[..][v] != -1 ==> v < 2 * (maxfd + 1)
        invariant maxfd != -1 ==> socketVec[..][2 * maxfd] != -1 || socketVec[..][2 * maxfd + 1] != -1
      {
        if socketVec[2 * i] != -1 || socketVec[2 * i + 1] != -1 {
          maxfd := i;
        }
        i := i + 1;
      }
    }

    /** The armed callback of a ready descriptor moves to the queue. */
    method TakeReady(v: nat, fds: set<nat>)
      requires Capturing(Snap(), v) && v < VEC_SIZE && Recorded()
      modifies `qHead, `loc, `abs, `trace, socketVec
      ensures Capturing(Snap(), v + 1) && Recorded()
      ensures trace == old(trace) + (if v in old(abs.waits) && v in fds then [Take(v)] else [])
      ensures |qHead| == old(|qHead|) + |trace| - |old(trace)|
      ensures abs.timers == old(abs.timers) && abs.now == old(abs.now) && abs.nextId == old(abs.nextId)
      ensures forall u :: u > v ==> (u in abs.waits <==> u in old(abs.waits))
    {
      hide Capturing, Replay, Logged, Extends, Step, TakeStep;
      ghost var s := Snap();
      CaptureGoesOn(s, v);
      if socketVec[v] != -1 && v in fds {
        TakeUnfolds(s, v);
        var c := socketVec[v];
        qHead := qHead + [c];
        socketVec[v] := -1;
        loc := loc[c := Queued];
        abs := abs.(waits := abs.waits - {v}, queued := abs.queued + [Item(abs.waits[v], v)]);
        assert socketVec[..] == old(socketVec[..])[v := -1];
        assert Snap() == TakeStep(s, v);
        ExtendsSelf(armed);
        Record(Take(v), armed);
      }
    }

    /** Queues the callbacks of all ready descriptors, ascending, read before write. */
    method Capture(fds: set<nat>, maxfd: int)
      requires Capturing(Snap(), 0) && Recorded() && -1 <= maxfd < SOCKET_VEC_SIZE
      requires forall v :: 0 <= v < VEC_SIZE && socketVec[..][v] != -1 ==> v < 2 * (maxfd + 1)
      modifies `qHead, `loc, `abs, `trace, socketVec
      ensures Capturing(Snap(), VEC_SIZE) && Recorded()
      ensures trace == old(trace) + Takes(old(abs.waits), fds, VEC_SIZE)
      ensures |qHead| == old(|qHead|) + |Takes(old(abs.waits), fds, VEC_SIZE)|
      ensures abs.timers == old(abs.timers) && abs.now == old(abs.now) && abs.nextId == old(abs.nextId)
    {
      hide Capturing, Replay, Logged, Extends, Step, Takes, Recorded;
      ghost var waits := abs.waits;
      TakesNone(waits, fds);
      CaptureGoesOn(Snap(), 0);
      WaitsBelow(Snap(), 2 * (maxfd + 1));
      var i := 0;
      assert trace + [] == trace;
      while i <= maxfd
        invariant 0 <= i <= maxfd + 1
        invariant Capturing(Snap(), 2 * i) && Recorded()
        invariant trace == old(trace) + Takes(waits, fds, 2 * i)
        invariant |qHead| == old(|qHead|) + |Takes(waits, fds, 2 * i)|
        invariant forall u :: u >= 2 * i ==> (u in abs.waits <==> u in waits)
        invariant abs.timers == old(abs.timers) && abs.now == old(abs.now) && abs.nextId == old(abs.nextId)
      {
        TakeReady(2 * i, fds);
        TakeReady(2 * i + 1, fds);
        TakesTwice(waits, fds, i);
        i := i + 1;
      }
      TakesSettle(waits, fds, 2 * (maxfd + 1), VEC_SIZE);
      CapturingWeaker(Snap(), 2 * (maxfd + 1), VEC_SIZE);
    }

    /** The queue becomes the working queue, and `q_head` starts afresh. */
    method BeginBatch()
      requires Capturing(Snap(), VEC_SIZE) && Recorded()
      modifies `workQ, `qHead, `loc, `abs, `trace
      ensures Idle(Snap()) && Recorded()
      ensures trace == old(trace) + [Begin] && workQ == old(qHead)
          && abs == old(abs).(queued := [], batch := old(abs).queued)
    {
      hide Capturing, Idle, Replay, Logged, Extends, Step, Rebatched;
      BeginGoesIdle(Snap());
      ghost var s := Snap();
      workQ := qHead;
      qHead := [];
      loc := Rebatched(loc);
      abs := abs.(queued := [], batch := abs.queued);
      assert Snap() == BeginStep(s);
      ExtendsSelf(armed);
      Record(Begin, armed);
    }

    /** Runs the first callback of the working queue and retires its cell. */
    method RunFirst(script: seq<Op>) returns (called: bool)
      requires Idle(Snap()) && Recorded() && workQ != [] && workingEntry == -1 && NothingDue(abs)
      modifies this, callwheel, socketVec
      ensures Idle(Snap()) && Recorded() && workingEntry == -1 && NothingDue(abs)
      ensures workQ == old(workQ)[1..] && firstTime == old(firstTime)
      ensures BatchEvents(old(trace), trace)
      ensures old(invoked) <= invoked
      ensures Remembers(old(Snap()), Snap())
      ensures if called then old(trace) < trace && OneCall(trace, |old(trace)|, BookOf(Snap()), script)
              else trace == old(trace)
    {
      hide Idle, Inv, Replay, Logged, Extends, Step, Frame, Remembers, OneCall;
      ghost var s := Snap();
      RunGoesIn(s);
      RunUnfolds(s);
      called := cells[workQ[0]].cb != 0;
      firing := true;
      if called {
        ghost var id := serial[workQ[0]];
        var call := Call(cells[workQ[0]].cb, cells[workQ[0]].arg, cells[workQ[0]].resource, cells[workQ[0]].how);
        abs := abs.(batch := abs.batch[1..]);
        ghost var t := Snap();
        assert t == RunStep(s);
        RemembersStill(s, s, t);
        InvokeInBatch(id, call, script);
        RemembersOn(s, t, Snap());
      } else {
        RemembersStill(s, s, Snap());
      }
      ghost var u := Snap();
      Retire();
      RemembersStill(s, u, Snap());
    }

    method InvokeInBatch(ghost id: nat, call: Call, script: seq<Op>)
      requires Inv(Snap()) && Replay(trace).Some? && Step(Replay(trace).value, Run(id)) == Some(abs)
      requires Logged(trace, ids, invoked, armed) && id in armed && armed[id] == call
      requires workingEntry == -1 && NothingDue(abs)
      modifies this, callwheel, socketVec
      ensures Callable() && workingEntry == -1 && NothingDue(abs)
      ensures workQ == old(workQ) && firing == old(firing) && firstTime == old(firstTime)
      ensures BatchEvents(old(trace), trace) && old(invoked) <= invoked
      ensures Remembers(old(Snap()), Snap())
      ensures old(trace) < trace && OneCall(trace, |old(trace)|, BookOf(Snap()), script)
    {
      hide Inv, Replay, Logged, Extends, Step, SlotFrame, Logged, ScriptAnswers;
      InvShape(Snap());
      Invoke(id, Run(id), call, script);
      InvShape(Snap());
      CallWas(old(trace), Run(id), trace, BookOf(Snap()), script);
      EventsAfterRun(old(trace), trace, id);
    }

    /** The cell goes back to the pool; the next one, if any, is now first. */
    method Retire()
      requires Inv(Snap()) && firing
      modifies `workQ, `freeQ, `loc, `firing
      ensures old(workQ) != [] && workQ == old(workQ)[1..] && Idle(Snap())
    {
      hide Inv, Idle;
      RetireGoesIdle(Snap());
      freeQ := freeQ + [workQ[0]];
      loc := loc[workQ[0] := Free];
      workQ := workQ[1..];
      firing := false;
    }

    /** Walks the working queue to its end. */
    method RunBatch(script: nat -> seq<Op>) returns (events: nat, ghost calls: nat)
      requires Idle(Snap()) && Recorded() && workingEntry == -1 && NothingDue(abs) && firstTime.Normal()
      modifies this, callwheel, socketVec
      ensures Valid() && abs.batch == [] && firstTime == old(firstTime)
      ensures events == old(|workQ|)
      ensures BatchEvents(old(trace), trace)
      ensures old(invoked) <= invoked
      ensures Remembers(old(Snap()), Snap())
      ensures CallsAnswered(old(trace), BookOf(Snap()), script, 0, calls, trace)
    {
      hide Idle, Inv, Replay, Logged, Extends, NothingDue, AtRest, Remembers, CallsAnswered, OneCall;
      RemembersStill(Snap(), Snap(), Snap());
      events, calls := 0, 0;
      var made := 0;
      NoCalls(trace, BookOf(Snap()), script, 0);
      while workQ != []
        invariant Idle(Snap()) && Recorded() && workingEntry == -1 && NothingDue(abs)
        invariant events + |workQ| == old(|workQ|) && firstTime == old(firstTime)
        invariant BatchEvents(old(trace), trace) && old(invoked) <= invoked
        invariant Remembers(old(Snap()), Snap())
        invariant CallsAnswered(old(trace), BookOf(Snap()), script, 0, made, trace)
        decreases |workQ|
      {
        events := events + 1;
        ghost var s, before := Snap(), trace;
        var called := RunFirst(script(made));
        RemembersOn(old(Snap()), s, Snap());
        CallsStill(old(trace), s, Snap(), script, 0, made, before);
        if called {
          NextCall(old(trace), BookOf(Snap()), script, 0, made, before, trace);
          made := made + 1;
        }
      }
      IdleAtRest(Snap());
      calls := made;
    }

    /** Captures the batch, queueing descriptors only if select found some ready, and runs it. */
    method CaptureAndRun(sel: Selected, maxfd: int, script: nat -> seq<Op>) returns (events: nat, ghost calls: nat)
      requires Valid() && -1 <= maxfd < SOCKET_VEC_SIZE && socketVec.Length == VEC_SIZE
      requires forall v :: 0 <= v < VEC_SIZE && socketVec[..][v] != -1 ==> v < 2 * (maxfd + 1)
      requires abs.waits.Keys == {} <==> maxfd == -1
      modifies this, callwheel, socketVec
      ensures Valid() && firstTime == old(firstTime) && abs.batch == []
      ensures var takes := Takes(old(abs.waits), if sel.Ready? then sel.fds else {}, VEC_SIZE);
        && events == |old(abs.queued)| + |takes| && BatchEvents(old(trace) + takes + [Begin], trace)
        && CallsAnswered(old(trace) + takes + [Begin], BookOf(Snap()), script, 0, calls, trace)
      ensures old(invoked) <= invoked
      ensures Remembers(old(Snap()), Snap())
    {
      hide Inv, Replay, Logged, AtRest, Capturing, Idle, Takes, Remembers, CallsAnswered, BatchEvents;
      CaptureStarts(Snap());
      NothingTaken(abs.waits, if sel.Ready? then sel.fds else {}, VEC_SIZE);
      if maxfd != -1 && sel.Ready? {
        Capture(sel.fds, maxfd);
      } else {
        CapturingWeaker(Snap(), 0, VEC_SIZE);
        assert trace + [] == trace;
      }
      BeginBatch();
      ghost var s := Snap();
      RemembersStill(old(Snap()), old(Snap()), s);
      events, calls := RunBatch(script);
      RemembersOn(old(Snap()), s, Snap());
    }

    /**
     NR_async_event_wait2, select build.  Unless it returns early, it captures what was
     scheduled and then the ready descriptors, runs exactly that batch, and reports its length.
     */
    method EventWait(tv: Option<Timevals.Timeval>, sel: Selected, script: nat -> seq<Op>)
        returns (r: Status, events: nat, ghost calls: nat)
      requires Valid()
      modifies this, callwheel, socketVec
      ensures Valid() && firstTime == old(firstTime)
      ensures r == Eod <==> old(abs.waits.Keys) == {} && old(abs.queued) == []
      ensures r == WouldBlock <==>
          && old(abs.waits.Keys) != {} && old(abs.queued) == [] && sel == TimedOut
          && tv.Some? && (tv.value.sec != 0 || tv.value.usec != 0)
      ensures r == Internal <==> old(abs.waits.Keys) != {} && sel == Failed
      ensures r != BadArgs
      ensures r != Ok ==> trace == old(trace) && Snap() == old(Snap()) && events == 0
      ensures r == Ok ==>
        var takes := Takes(old(abs.waits), if sel.Ready? then sel.fds else {}, VEC_SIZE);
        && events == |old(abs.queued)| + |takes| && abs.batch == []
        && BatchEvents(old(trace) + takes + [Begin], trace)
        && CallsAnswered(old(trace) + takes + [Begin], BookOf(Snap()), script, 0, calls, trace)
      ensures old(invoked) <= invoked
      ensures Remembers(old(Snap()), Snap())
    {
      hide Inv, Replay, AtRest, Takes, BatchEvents, Logged, CallsAnswered;
      calls := 0;
      var maxfd := MaxFd();
      ArmedOrNot(Snap(), maxfd);
      if maxfd == -1 {
        if qHead == [] {
          return Eod, 0, 0;
        }
      } else {
        match sel {
          case TimedOut =>
            if tv.Some? && qHead == [] && (tv.value.sec != 0 || tv.value.usec != 0) {
              return WouldBlock, 0, 0;
            }
          case Failed =>
            return Internal, 0, 0;
          case Interrupted =>
          case Ready(ready) =>
        }
      }
      events, calls := CaptureAndRun(sel, maxfd, script);
      r := Ok;
    }
  }

  /** The events of a batch after its begin. */
  ghost predicate BatchEvents(from: seq<Event>, to: seq<Event>) {
    from <= to && forall m :: |from| <= m < |to| ==> IsOperation(to[m]) || to[m].Run?
  }

  lemma EventsAfterRun(from: seq<Event>, to: seq<Event>, id: nat)
    requires from + [Run(id)] <= to
    requires forall m :: |from| + 1 <= m < |to| ==> IsOperation(to[m])
    ensures BatchEvents(from, to)
  {
    assert to[|from|] == (from + [Run(id)])[|from|];
  }

  lemma {:induction false} NothingTaken(waits: map<nat, nat>, fds: set<nat>, n: nat)
    ensures waits.Keys == {} || fds == {} ==> Takes(waits, fds, n) == []
  {
    if n > 0 { NothingTaken(waits, fds, n - 1); }
  }

  lemma TakesNone(waits: map<nat, nat>, fds: set<nat>)
    ensures Takes(waits, fds, 0) == []
  {
  }

  lemma TakesTwice(waits: map<nat, nat>, fds: set<nat>, i: nat)
    ensures Takes(waits, fds, 2 * i + 2) ==
      Takes(waits, fds, 2 * i) + (if 2 * i in waits && 2 * i in fds then [Take(2 * i)] else [])
      + (if 2 * i + 1 in waits && 2 * i + 1 in fds then [Take(2 * i + 1)] else [])
  {
  }

  lemma {:induction false} TakesSettle(waits: map<nat, nat>, fds: set<nat>, n: nat, m: nat)
    requires n <= m && forall v :: v in waits ==> v < n
    ensures Takes(waits, fds, m) == Takes(waits, fds, n)
  {
    if n < m { TakesSettle(waits, fds, n, m - 1); }
  }

  /** The events of an update after its advance. */
  ghost predicate UpdateEvents(from: seq<Event>, to: seq<Event>) {
    from <= to && forall m :: |from| <= m < |to| ==> IsOperation(to[m]) || to[m].Fire?
  }

  lemma EventsAfterFire(from: seq<Event>, to: seq<Event>, id: nat)
    requires from + [Fire(id)] <= to
    requires forall m :: |from| + 1 <= m < |to| ==> IsOperation(to[m])
    ensures UpdateEvents(from, to)
  {
    assert to[|from|] == (from + [Fire(id)])[|from|];
  }

  /** A handle that is live names a pending timer, and every pending timer has such a handle. */
  lemma HandleEnds(s: St, h: int)
    requires Inv(s)
    ensures Shape(s)
    ensures 0 <= h < |s.cells| && s.loc[h].Slot? && s.cells[h].cb != 0 ==>
              && s.serial[h] in s.abs.timers && HasHandle(BookOf(s), s.serial[h], h)
              && 0 <= s.cells[h].backptr < |s.wheel| && h in s.wheel[s.cells[h].backptr]
    ensures !(0 <= h < |s.cells| && s.loc[h].Slot? && s.cells[h].cb != 0) ==>
              forall id :: id in s.abs.timers ==> !HasHandle(BookOf(s), id, h)
    ensures 0 <= h < |s.cells| && 0 <= s.cells[h].backptr < |s.wheel| && h in s.wheel[s.cells[h].backptr] ==>
              s.loc[h].Slot?
  {
    hide Inv;
    InvShape(s);
    if 0 <= h < |s.cells| && 0 <= s.cells[h].backptr < |s.wheel| && h in s.wheel[s.cells[h].backptr] {
      LinkedInSlot(s, h);
    }
    if 0 <= h < |s.cells| && s.loc[h].Slot? && s.cells[h].cb != 0 {
      LiveCellPending(s, h);
      LiveCellLinked(s, h);
    } else {
      forall id | id in s.abs.timers ensures !HasHandle(BookOf(s), id, h) {
        TimerHome(s, id);
        TimerLive(s, id);
      }
    }
  }

  lemma LiveCellLinked(s: St, h: nat)
    requires Inv(s) && Shape(s) && h < |s.cells| && s.loc[h].Slot? && s.cells[h].cb != 0
    ensures s.serial[h] in s.home && s.home[s.serial[h]] == h
    ensures 0 <= s.cells[h].backptr < |s.wheel| && h in s.wheel[s.cells[h].backptr]
  {
    hide SumLen, WaitsLink, QueueLink, BatchLink, ArmedLink, OnlyScheduled, Sorted, WellFormed, Holds;
    assert CellOk(s.cells[h], s.loc[h], s.serial[h], s.working, s.abs.nextId);
    HoldsMember(s.loc, s.wheel[s.loc[h].i], s.loc[h], h);
  }

  lemma InvNow(s: St)
    requires Inv(s)
    ensures s.abs.now == s.now
  {
    hide Struct, TimersLink, WaitsLink, QueueLink, BatchLink, ArmedLink, OnlyScheduled, WellFormed;
  }

  lemma CallWas(from: seq<Event>, e: Event, to: seq<Event>, book: Book, script: seq<Op>)
    requires from + [e] <= to && (e.Fire? || e.Run?) && ScriptAnswers(from + [e], book, script, to)
    ensures |from| < |to| && OneCall(to, |from|, book, script)
    ensures forall m :: |from| < m < |to| ==> IsOperation(to[m])
  {
    ScriptOperates(from + [e], book, script, to);
    assert to[..|from| + 1] == from + [e] && to[|from|] == (from + [e])[|from|];
  }

  lemma LinkedInSlot(s: St, h: nat)
    requires Inv(s) && h < |s.cells| && 0 <= s.cells[h].backptr < |s.wheel| && h in s.wheel[s.cells[h].backptr]
    ensures h < |s.loc| && s.loc[h] == Slot(s.cells[h].backptr)
  {
    hide Links, OnlyScheduled, Filled, Sorted, SumLen;
    var i := s.cells[h].backptr;
    var k :| 0 <= k < |s.wheel[i]| && s.wheel[i][k] == h;
    HoldsElement(s.loc, s.wheel[i], Slot(i), k);
  }

  ghost predicate IsInitial(s: St) {
    && s.cells == [] && s.freeQ == [] && s.qHead == [] && s.wq == [] && s.loc == [] && s.serial == []
    && |s.wheel| == WHEEL_SIZE && (forall i :: 0 <= i < WHEEL_SIZE ==> s.wheel[i] == [])
    && |s.vec| == VEC_SIZE && (forall v :: 0 <= v < VEC_SIZE ==> s.vec[v] == -1)
    && s.now == 0 && s.working == -1 && s.timersSet == 0 && !s.firing && s.abs == INITIAL && s.armed == map[]
  }

  lemma InitialStruct(s: St)
    requires IsInitial(s)
    ensures Struct(s, -1)
  {
    hide Links, LiveItems;
    EmptySumLen(s.wheel);
  }

  lemma InitialInv(s: St)
    requires IsInitial(s)
    ensures Inv(s) && AtRest(s)
  {
    hide Placed, Filled, Sorted, SumLen;
    InitialStruct(s);
  }

  lemma {:induction false} EmptySumLen(w: seq<seq<nat>>)
    requires forall i :: 0 <= i < |w| ==> w[i] == []
    ensures SumLen(w) == 0
  {
    if w != [] { EmptySumLen(w[..|w| - 1]); }
  }
}
