/** The clock arithmetic of r_time.c that the timing wheel rests on. */
module Timevals {
  import opened Options

  datatype Timeval = Timeval(sec: int, usec: int) {
    predicate Normal() {
      0 <= sec < 0x800_0000_0000 && 0 <= usec < 1000000
    }
  }

  const UINT8_SIZE: nat := 0x1_0000_0000_0000_0000

  /** r_timeval_diff: the normalised difference, or None (R_BAD_ARGS) exactly when `t1` lies before `t0`. */
  function Diff(t1: Timeval, t0: Timeval): (r: Option<Timeval>)
    requires t1.Normal() && t0.Normal()
    ensures r.None? <==> t1.sec < t0.sec || (t1.sec == t0.sec && t1.usec < t0.usec)
    ensures r.Some? ==> 0 <= r.value.sec < 0x800_0000_0000 && 0 <= r.value.usec < 1000000
    ensures r.Some? ==>
        r.value.sec * 1000000 + r.value.usec == (t1.sec - t0.sec) * 1000000 + t1.usec - t0.usec
  {
    if t0.sec > t1.sec then None
    else if t0.sec == t1.sec && t0.usec > t1.usec then None
    else if t0.usec <= t1.usec then Some(Timeval(t1.sec - t0.sec, t1.usec - t0.usec))
    else
      var d := t0.usec - t1.usec;
      if t1.sec < t0.sec + 1 then None
      else Some(Timeval(t1.sec - (t0.sec + 1), 1000000 - d))
  }

  /** r_timeval2int, in 64-bit unsigned arithmetic; for clock values below 2^43 seconds nothing wraps. */
  function ToInt(tv: Timeval): (r: nat)
    ensures tv.Normal() ==> r == tv.sec * 1000000 + tv.usec
  {
    ((tv.sec * 1000000) % UINT8_SIZE + tv.usec) % UINT8_SIZE
  }

  /** r_timeval_cmp orders instants. */
  function Cmp(t1: Timeval, t2: Timeval): (r: int)
    requires t1.Normal() && t2.Normal()
    ensures r == 1 <==> (t1.sec - t2.sec) * 1000000 + t1.usec - t2.usec > 0
    ensures r == -1 <==> (t1.sec - t2.sec) * 1000000 + t1.usec - t2.usec < 0
    ensures r == 0 <==> t1 == t2
  {
    if t1.sec > t2.sec then 1
    else if t1.sec < t2.sec then -1
    else if t1.usec > t2.usec then 1
    else if t1.usec < t2.usec then -1
    else 0
  }
}
