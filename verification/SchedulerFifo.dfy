/**
 The order in which callbacks run, over whole traces: what is scheduled or reported ready joins a line, the batch being
 run in front, and is run in turn unless its descriptor is cancelled.
 */
module SchedulerFifo {
  import opened Options
  import opened SchedulerSpec

  /** Whatever waits to be run, in the order it will be. */
  ghost function Line(a: Abs): seq<Item> {
    a.batch + a.queued
  }

  ghost predicate Before(l: seq<Item>, x: Item, y: Item) {
    exists p, q :: 0 <= p < q < |l| && l[p] == x && l[q] == y
  }

  /** The callback armed last for the descriptor before event `i`, with nothing done about it since. */
  predicate StillArmed(t: seq<Event>, h: nat, i: nat, id: nat, key: nat)
    requires i <= |t|
  {
    && h < i && t[h] == Wait(id, key)
    && forall m :: h < m < i ==> t[m] != Take(key) && t[m] != Cancel(key) && !(t[m].Wait? && t[m].key == key)
  }

  /** Event `i` puts the callback in line: it is scheduled, or its descriptor is reported ready while it is armed. */
  predicate Queues(t: seq<Event>, i: nat, x: Item)
    requires i < |t|
  {
    || (t[i] == Schedule(x.id) && x.key == -1)
    || (x.key >= 0 && t[i] == Take(x.key) && exists h :: 0 <= h < i && StillArmed(t, h, i, x.id, x.key))
  }

  // ------------------------------------------------------- what an event does

  lemma {:induction false} WithoutKeyOfSum(a: seq<Item>, b: seq<Item>, key: int)
    ensures WithoutKey(a + b, key) == WithoutKey(a, key) + WithoutKey(b, key)
  {
    if a == [] {
      assert a + b == b;
    } else {
      assert (a + b)[1..] == a[1..] + b;
      WithoutKeyOfSum(a[1..], b, key);
    }
  }

  lemma LineStep(a: Abs, e: Event)
    requires Step(a, e).Some?
    ensures Line(Step(a, e).value) == match e
      case Schedule(id) => Line(a) + [Item(id, -1)]
      case Take(key) => if key in a.waits then Line(a) + [Item(a.waits[key], key)] else []
      case Run(id) => if Line(a) != [] then Line(a)[1..] else []
      case Cancel(key) => WithoutKey(Line(a), key)
      case _ => Line(a)
    ensures e.Take? ==> e.key in a.waits
    ensures e.Run? ==> Line(a) != [] && Line(a)[0].id == e.id
  {
    if e.Cancel? { WithoutKeyOfSum(a.batch, a.queued, e.key); }
  }

  lemma {:induction false} WithoutKeyKeeps(l: seq<Item>, key: int, x: Item, y: Item)
    requires Before(l, x, y) && x.key != key && y.key != key
    ensures Before(WithoutKey(l, key), x, y)
  {
    var p, q :| 0 <= p < q < |l| && l[p] == x && l[q] == y;
    var r := l[1..];
    if p > 0 {
      assert r[p - 1] == x && r[q - 1] == y;
      WithoutKeyKeeps(r, key, x, y);
      if l[0].key != key { BeforeBehind(l[0], WithoutKey(r, key), x, y); }
    } else {
      assert r[q - 1] == y && y in WithoutKey(r, key);
      var w := WithoutKey(r, key);
      var k :| 0 <= k < |w| && w[k] == y;
      assert ([x] + w)[0] == x && ([x] + w)[k + 1] == y;
    }
  }

  lemma BeforeBehind(z: Item, l: seq<Item>, x: Item, y: Item)
    requires Before(l, x, y)
    ensures Before([z] + l, x, y)
  {
    var p, q :| 0 <= p < q < |l| && l[p] == x && l[q] == y;
    assert ([z] + l)[p + 1] == x && ([z] + l)[q + 1] == y;
  }

  lemma JoinsBehind(l: seq<Item>, x: Item, y: Item)
    requires x in l
    ensures Before(l + [y], x, y)
  {
    var p :| 0 <= p < |l| && l[p] == x;
    assert (l + [y])[p] == x && (l + [y])[|l|] == y;
  }

  lemma BeforeStays(l: seq<Item>, z: Item, x: Item, y: Item)
    requires Before(l, x, y)
    ensures Before(l + [z], x, y)
  {
    var p, q :| 0 <= p < q < |l| && l[p] == x && l[q] == y;
    assert (l + [z])[p] == x && (l + [z])[q] == y;
  }

  lemma BeforeStep(a: Abs, e: Event, x: Item, y: Item)
    requires Step(a, e).Some? && Before(Line(a), x, y)
    requires e != Run(x.id) && !(e.Cancel? && (e.key == x.key || e.key == y.key))
    ensures Before(Line(Step(a, e).value), x, y)
  {
    LineStep(a, e);
    var l := Line(a);
    match e
    case Schedule(id) => BeforeStays(l, Item(id, -1), x, y);
    case Take(key) => BeforeStays(l, Item(a.waits[key], key), x, y);
    case Cancel(key) => WithoutKeyKeeps(l, key, x, y);
    case Run(id) =>
      var p, q :| 0 <= p < q < |l| && l[p] == x && l[q] == y;
      assert l[1..][p - 1] == x && l[1..][q - 1] == y;
    case _ =>
  }

  lemma InStep(a: Abs, e: Event, x: Item)
    requires Step(a, e).Some? && x in Line(a) && e != Run(x.id) && !(e.Cancel? && e.key == x.key)
    ensures x in Line(Step(a, e).value)
  {
    LineStep(a, e);
    if e.Run? {
      var l := Line(a);
      var p :| 0 <= p < |l| && l[p] == x;
      assert l[1..][p - 1] == x;
    }
  }

  lemma LineDistinct(a: Abs)
    requires WellFormed(a)
    ensures forall p, q :: 0 <= p < q < |Line(a)| ==> Line(a)[p].id != Line(a)[q].id
  {
    var l := Line(a);
    forall p, q | 0 <= p < q < |l| ensures l[p].id != l[q].id {
      if p < |a.batch| <= q {
        assert a.batch[p] in a.batch && a.queued[q - |a.batch|] in a.queued;
      }
    }
  }

  // ------------------------------------------------------------ over traces

  /** Neither run nor cancelled between two points. */
  predicate LeftAlone(t: seq<Event>, i: nat, k: nat, x: Item)
    requires k <= |t|
  {
    forall m :: i < m < k ==> t[m] != Run(x.id) && !(t[m].Cancel? && t[m].key == x.key)
  }

  lemma {:induction false} ArmedStays(t: seq<Event>, h: nat, i: nat, id: nat, key: nat)
    requires Legal(t) && i <= |t| && StillArmed(t, h, i, id, key)
    ensures key in At(t, i).waits && At(t, i).waits[key] == id
  {
    hide At, Legal, MayFire, NothingDue, WithoutKey;
    AtNext(t, i - 1);
    if i > h + 1 {
      ArmedStays(t, h, i - 1, id, key);
    }
  }

  lemma JoinsLine(t: seq<Event>, i: nat, x: Item)
    requires Legal(t) && i < |t| && Queues(t, i, x)
    ensures Line(At(t, i + 1)) == Line(At(t, i)) + [x]
  {
    hide Step, Replay;
    AtNext(t, i);
    LineStep(At(t, i), t[i]);
    if t[i].Take? {
      var h :| 0 <= h < i && StillArmed(t, h, i, x.id, x.key);
      ArmedStays(t, h, i, x.id, x.key);
    }
  }

  /** What joined the line is in it until it is run or cancelled. */
  lemma {:induction false} StaysInLine(t: seq<Event>, i: nat, k: nat, x: Item)
    requires Legal(t) && i < k <= |t| && Queues(t, i, x) && LeftAlone(t, i, k, x)
    ensures x in Line(At(t, k))
  {
    hide At, Legal, Step, Queues, Line;
    if k == i + 1 {
      JoinsLine(t, i, x);
    } else {
      StaysInLine(t, i, k - 1, x);
      AtNext(t, k - 1);
      InStep(At(t, k - 1), t[k - 1], x);
    }
  }

  lemma {:induction false} StaysBefore(t: seq<Event>, i: nat, j: nat, k: nat, x: Item, y: Item)
    requires Legal(t) && i < j < k <= |t| && Queues(t, i, x) && Queues(t, j, y)
    requires LeftAlone(t, i, k, x) && (forall m :: j < m < k ==> !(t[m].Cancel? && t[m].key == y.key))
    ensures Before(Line(At(t, k)), x, y)
  {
    hide At, Legal, Step, Queues, Line, Before;
    if k == j + 1 {
      StaysInLine(t, i, j, x);
      JoinsLine(t, j, y);
      JoinsBehind(Line(At(t, j)), x, y);
    } else {
      StaysBefore(t, i, j, k - 1, x, y);
      AtNext(t, k - 1);
      BeforeStep(At(t, k - 1), t[k - 1], x, y);
    }
  }

  lemma HeadIsNotBehind(l: seq<Item>, x: Item, y: Item)
    requires Before(l, x, y) && forall p, q :: 0 <= p < q < |l| ==> l[p].id != l[q].id
    ensures l != [] && l[0].id != y.id
  {
  }

  /** First in, first out: of two callbacks in line, the later is not run before the earlier was run or cancelled. */
  lemma FirstInFirstOut(t: seq<Event>, i: nat, j: nat, m: nat, x: Item, y: Item)
    requires Legal(t) && i < j < m < |t| && Queues(t, i, x) && Queues(t, j, y) && t[m] == Run(y.id)
    requires forall c :: j < c < m ==> !(t[c].Cancel? && t[c].key == y.key)
    ensures exists k :: i < k < m && (t[k] == Run(x.id) || (t[k].Cancel? && t[k].key == x.key))
  {
    hide Step, Queues;
    if LeftAlone(t, i, m, x) {
      StaysBefore(t, i, j, m, x, y);
      AtNext(t, m);
      AtWellFormed(t, m);
      LineDistinct(At(t, m));
      HeadIsNotBehind(Line(At(t, m)), x, y);
      LineStep(At(t, m), t[m]);
    }
  }

  /** What is in line was put there, and left alone since. */
  lemma {:induction false} InLineWasQueued(t: seq<Event>, k: nat, x: Item) returns (i: nat)
    requires Legal(t) && k <= |t| && x in Line(At(t, k))
    ensures i < k && Queues(t, i, x) && forall m :: i < m < k ==> !(t[m].Cancel? && t[m].key == x.key)
  {
    hide Legal, Step, WellFormed;
    assert k > 0;
    AtNext(t, k - 1);
    var a, e := At(t, k - 1), t[k - 1];
    LineStep(a, e);
    if x in Line(a) {
      i := InLineWasQueued(t, k - 1, x);
    } else {
      i := k - 1;
      if e.Take? { var h := ArmedWasSet(t, k - 1, e.key); }
    }
  }

  /** What is armed was armed by a wait, with nothing done about the descriptor since. */
  lemma {:induction false} ArmedWasSet(t: seq<Event>, k: nat, key: nat) returns (h: nat)
    requires Legal(t) && k <= |t| && key in At(t, k).waits
    ensures StillArmed(t, h, k, At(t, k).waits[key], key)
  {
    hide Legal, WithoutKey, MayFire, NothingDue;
    assert k > 0;
    AtNext(t, k - 1);
    if t[k - 1].Wait? && t[k - 1].key == key {
      h := k - 1;
    } else {
      h := ArmedWasSet(t, k - 1, key);
    }
  }

  /** Nothing runs that was not scheduled, or reported ready while armed. */
  lemma RunWasQueued(t: seq<Event>, m: nat, id: nat) returns (i: nat, x: Item)
    requires Legal(t) && m < |t| && t[m] == Run(id)
    ensures i < m && x.id == id && Queues(t, i, x)
    ensures forall c :: i < c < m ==> !(t[c].Cancel? && t[c].key == x.key)
  {
    hide Step, Queues;
    AtNext(t, m);
    LineStep(At(t, m), t[m]);
    x := Line(At(t, m))[0];
    i := InLineWasQueued(t, m, x);
  }

  /** A callback armed anew before the old one was reported ready never lets the old one run. */
  lemma RearmedNeverRuns(t: seq<Event>, h: nat, j: nat, k: nat, id: nat, key: nat)
    requires Legal(t) && h < j < k < |t| && StillArmed(t, h, j, id, key) && t[j].Wait? && t[j].key == key
    ensures t[k] != Run(id)
  {
    hide Step;
    if t[k] == Run(id) {
      var i, x := RunWasQueued(t, k, id);
      if t[i].Schedule? {
        ScheduledAnew(t, h, i, id, key);
      } else {
        var g :| 0 <= g < i && StillArmed(t, g, i, id, x.key);
        WaitedAnew(t, h, g, id);
      }
    }
  }

  lemma ScheduledAnew(t: seq<Event>, h: nat, i: nat, id: nat, key: nat)
    requires Legal(t) && h < |t| && i < |t| && t[h] == Wait(id, key)
    ensures t[i] != Schedule(id)
  {
    AtNext(t, h);
    AtNext(t, i);
    if i < h { IdsGrow(t, i + 1, h); } else if h < i { IdsGrow(t, h + 1, i); }
  }

  lemma WaitedAnew(t: seq<Event>, h: nat, g: nat, id: nat)
    requires Legal(t) && h < |t| && g < |t| && t[h].Wait? && t[g].Wait? && t[h].id == id && t[g].id == id
    ensures h == g
  {
    AtNext(t, h);
    AtNext(t, g);
    if g < h { IdsGrow(t, g + 1, h); } else if h < g { IdsGrow(t, h + 1, g); }
  }
}
