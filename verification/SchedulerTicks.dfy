/**
 How the wheel stores a deadline.  It is worked out in 64 bits, kept in the int of a callback cell, and widened
 again when it is compared; what becomes of a timer whose deadline an int does not hold is settled here.
 */
module SchedulerTicks {
  const WHEEL_SIZE: nat := 4096
  const INT_MAX: int := 0x7fff_ffff
  const WORD: nat := 0x1_0000_0000
  const LONG: nat := 0x1_0000_0000_0000_0000

  /** A number as an int keeps it. */
  function Narrow(d: int): (r: int)
    ensures -INT_MAX - 1 <= r <= INT_MAX
  {
    var low := d % 0x1_0000_0000;
    if low <= INT_MAX then low else low - 0x1_0000_0000
  }

  /** An int as a comparison with a 64-bit count of ticks takes it. */
  function Ticks(r: int): (t: nat)
    ensures 0 <= r < LONG ==> t == r
  {
    r % 0x1_0000_0000_0000_0000
  }

  lemma SlotShift(x: int, y: int)
    ensures (x - 4096 * y) % 4096 == x % 4096
  {
  }

  /** Narrowing takes off a multiple of 2^32, which is a multiple of the wheel. */
  lemma NarrowBy(d: int) returns (q: int)
    ensures Narrow(d) == d - 0x1_0000_0000 * q
  {
    q := d / 0x1_0000_0000;
    if Narrow(d) < 0 {
      q := q + 1;
    }
  }

  /** What is compared for deadline `d` comes round in its slot. */
  lemma TicksOf(d: int)
    ensures Ticks(Narrow(d)) == if Narrow(d) < 0 then Narrow(d) + 0x1_0000_0000_0000_0000 else Narrow(d)
    ensures Ticks(Narrow(d)) % WHEEL_SIZE == d % WHEEL_SIZE
  {
    hide Narrow;
    var q := NarrowBy(d);
    SlotShift(d, 0x10_0000 * q);
    SlotShift(Narrow(d), -0x10_0000_0000_0000);
  }

  /** A deadline that an int holds is compared as it is. */
  lemma TicksKept(d: nat)
    requires d <= INT_MAX
    ensures Ticks(Narrow(d)) == d
  {
  }

  /** A difference of ticks survives the narrowing of either side. */
  lemma NarrowDifference(r: int, now: nat)
    ensures Narrow(Ticks(r) - now) == Narrow(r - now)
  {
    var q := r / 0x1_0000_0000_0000_0000;
    assert Ticks(r) - now == r - now - 0x1_0000_0000 * (0x1_0000_0000 * q);
    NarrowShift(r - now, 0x1_0000_0000 * q);
  }

  lemma NarrowShift(x: int, q: int)
    ensures Narrow(x - 0x1_0000_0000 * q) == Narrow(x)
  {
    assert (x - 0x1_0000_0000 * q) % 0x1_0000_0000 == x % 0x1_0000_0000;
  }

  // ------------------------------------------------ when a timer is on time

  predicate SameSlot(o: nat, d: nat) {
    o % WHEEL_SIZE == d % WHEEL_SIZE
  }

  /** An update from `prev` to `now` walks the slot of `d`. */
  ghost predicate Visited(prev: nat, now: nat, d: nat) {
    exists o :: prev < o <= now && SameSlot(o, d)
  }

  /** An update from `prev` to `now` takes a timer set with deadline `d` before. */
  ghost predicate Taken(prev: nat, now: nat, d: nat) {
    Visited(prev, now, d) && Ticks(Narrow(d)) <= now
  }

  /** The times at which the wheel stands, from `now` on. */
  ghost predicate Clock(ts: seq<nat>, now: nat) {
    && ts != [] && ts[0] == now
    && (forall i, j :: 0 <= i < j < |ts| ==> ts[i] <= ts[j])
    && (forall i :: 0 <= i < |ts| ==> ts[i] < LONG)
  }

  ghost predicate FirstTaking(ts: seq<nat>, d: nat, k: nat) {
    && 0 < k < |ts| && Taken(ts[k - 1], ts[k], d)
    && forall j :: 0 < j < k ==> !Taken(ts[j - 1], ts[j], d)
  }

  ghost predicate FirstReaching(ts: seq<nat>, d: nat, k: nat) {
    && 0 < k < |ts| && d <= ts[k]
    && forall j :: 0 <= j < k ==> ts[j] < d
  }

  /** However the clock moves, the update that takes the timer is the first to reach its deadline. */
  ghost predicate OnTime(now: nat, d: nat) {
    forall ts, k :: Clock(ts, now) ==> (FirstTaking(ts, d, k) <==> FirstReaching(ts, d, k))
  }

  /**
   An int holds the deadline; or it looks overdue, but the wheel comes round to its slot no sooner; or the clock is at
   its very end.
   */
  predicate Punctual(now: nat, d: nat) {
    || d <= INT_MAX
    || (d % WORD <= INT_MAX && d <= now + WHEEL_SIZE)
    || d >= LONG - INT_MAX - 1
  }

  /** Whether the stored deadline compares as one still to come. */
  lemma AheadIff(now: nat, delay: nat)
    requires 0 < delay <= INT_MAX && now + delay < LONG
    ensures now < Ticks(Narrow(now + delay)) <==> now + delay <= INT_MAX || (now + delay) % WORD > INT_MAX
  {
  }

  lemma {:induction false} FirstToReach(ts: seq<nat>, now: nat, d: nat, k: nat) returns (j: nat)
    requires Clock(ts, now) && k < |ts| && now < d <= ts[k]
    ensures j <= k && FirstReaching(ts, d, j)
  {
    if d <= ts[k - 1] {
      j := FirstToReach(ts, now, d, k - 1);
    } else {
      j := k;
    }
  }

  lemma VisitsApart(o: nat, d: nat)
    requires o < d && SameSlot(o, d)
    ensures o + WHEEL_SIZE <= d
  {
    assert o == 4096 * (o / 4096) + o % 4096 && d == 4096 * (d / 4096) + d % 4096;
  }

  /** An update that starts before the deadline takes the timer if and only if it reaches the deadline. */
  lemma TakenIffReached(now: nat, d: nat, prev: nat, next: nat)
    requires now <= prev < d && prev <= next && d < LONG
    requires Ticks(Narrow(d)) == d || (Ticks(Narrow(d)) <= now && d <= now + WHEEL_SIZE)
    ensures Taken(prev, next, d) <==> d <= next
  {
    hide Ticks, Narrow;
    if d <= next {
      assert prev < d <= next && SameSlot(d, d);
    } else {
      forall o | prev < o <= next && SameSlot(o, d) ensures o + WHEEL_SIZE <= d {
        VisitsApart(o, d);
      }
    }
  }

  lemma PunctualIsOnTime(now: nat, d: nat, ts: seq<nat>, k: nat)
    requires now < d < LONG && Clock(ts, now)
    requires Ticks(Narrow(d)) == d || (Ticks(Narrow(d)) <= now && d <= now + WHEEL_SIZE)
    ensures FirstTaking(ts, d, k) <==> FirstReaching(ts, d, k)
  {
    hide Taken, Ticks, Narrow;
    if FirstTaking(ts, d, k) && d <= ts[k - 1] {
      var j := FirstToReach(ts, now, d, k - 1);
      TakenIffReached(now, d, ts[j - 1], ts[j]);
      assert false;
    }
    if FirstTaking(ts, d, k) {
      TakenIffReached(now, d, ts[k - 1], ts[k]);
    }
    if FirstReaching(ts, d, k) {
      forall j | 0 < j <= k ensures Taken(ts[j - 1], ts[j], d) <==> d <= ts[j] {
        TakenIffReached(now, d, ts[j - 1], ts[j]);
      }
    }
  }

  /** A clock that makes an unpunctual timer late, or early. */
  lemma UnpunctualIsNot(now: nat, delay: nat) returns (ts: seq<nat>)
    requires 0 < delay <= INT_MAX && now + delay < LONG && !Punctual(now, now + delay)
    ensures Clock(ts, now) && |ts| == 2 && !(FirstTaking(ts, now + delay, 1) <==> FirstReaching(ts, now + delay, 1))
  {
    var d := now + delay;
    UnpunctualTicks(now, delay);
    hide Ticks, Narrow;
    if d < Ticks(Narrow(d)) {
      ts := [now, d];
      assert !Taken(ts[0], ts[1], d);
    } else {
      ts := [now, d - WHEEL_SIZE];
      SlotShift(d, 1);
      assert ts[0] < ts[1] <= ts[1] && SameSlot(ts[1], d);
      assert Taken(ts[0], ts[1], d);
    }
  }

  lemma UnpunctualTicks(now: nat, delay: nat)
    requires 0 < delay <= INT_MAX && now + delay < LONG && !Punctual(now, now + delay)
    ensures var d := now + delay;
      d < Ticks(Narrow(d)) || (Ticks(Narrow(d)) <= now && now + WHEEL_SIZE < d)
  {
    TicksOf(now + delay);
  }

  /**
   A timer is taken by the first update that reaches its deadline, whatever the updates are, if and only if it
   is punctual.
   */
  lemma OnTimeIff(now: nat, delay: nat)
    requires 0 < delay <= INT_MAX && now + delay < LONG
    ensures OnTime(now, now + delay) <==> Punctual(now, now + delay)
  {
    hide FirstTaking, FirstReaching, Clock, Ticks, Narrow;
    var d := now + delay;
    if Punctual(now, d) {
      PunctualTicks(now, delay);
      forall ts, k | Clock(ts, now) ensures FirstTaking(ts, d, k) <==> FirstReaching(ts, d, k) {
        PunctualIsOnTime(now, d, ts, k);
      }
    } else {
      var ts := UnpunctualIsNot(now, delay);
    }
  }

  lemma PunctualTicks(now: nat, delay: nat)
    requires 0 < delay <= INT_MAX && now + delay < LONG && Punctual(now, now + delay)
    ensures var d := now + delay;
      Ticks(Narrow(d)) == d || (Ticks(Narrow(d)) <= now && d <= now + WHEEL_SIZE)
  {
    var d := now + delay;
    if d <= INT_MAX {
      TicksKept(d);
    } else if d >= LONG - INT_MAX - 1 {
      HighEnd(d);
    } else {
      LowHalf(d);
    }
  }

  lemma LowHalf(d: nat)
    requires INT_MAX < d < LONG && d % WORD <= INT_MAX
    ensures Ticks(Narrow(d)) <= d - WORD
  {
    TicksOf(d);
    assert Narrow(d) == d % 0x1_0000_0000;
    assert d % 0x1_0000_0000 + 0x1_0000_0000 <= d;
  }

  lemma HighEnd(d: nat)
    requires LONG - INT_MAX - 1 <= d < LONG
    ensures Ticks(Narrow(d)) == d
  {
    TicksOf(d);
    assert d % 0x1_0000_0000 == d - 0xffff_ffff_0000_0000;
  }
}
