/** Timestamps: seconds and microseconds in two unsigned 32-bit fields. */
module IperfTime {

  const MILLION: nat := 1_000_000
  const UINT32: nat := 0x1_0000_0000

  /** 2^32 seconds in microseconds. */
  const WRAP: nat := 4_294_967_296_000_000

  /** A stored field, cut to its 32 bits. */
  function Cut(n: nat): nat { n % UINT32 }

  datatype Time = Time(secs: nat, usecs: nat)

  predicate Normal(t: Time) {
    t.secs < UINT32 && t.usecs < MILLION
  }

  /** iperf_time_in_usecs */
  function InUsecs(t: Time): nat {
    t.secs * MILLION + t.usecs
  }

  /** iperf_time_add_usecs: the fields are updated one after the other. */
  method AddUsecs(time1: Time, usecs: nat) returns (t: Time)
    ensures t == Added(time1, usecs)
  {
    t := time1;
    t := t.(secs := Cut(t.secs + usecs / MILLION));
    t := t.(usecs := Cut(t.usecs + usecs % MILLION));
    if t.usecs >= MILLION {
      t := t.(secs := Cut(t.secs + t.usecs / MILLION));
      t := t.(usecs := t.usecs % MILLION);
    }
  }

  function Added(t: Time, usecs: nat): Time {
    var u := Cut(t.usecs + usecs % MILLION);
    Time(if u >= MILLION then Cut(Cut(t.secs + usecs / MILLION) + u / MILLION) else Cut(t.secs + usecs / MILLION),
      u % MILLION)
  }

  /** iperf_time_compare */
  function Compare(a: Time, b: Time): int {
    if a.secs < b.secs then -1
    else if a.secs > b.secs then 1
    else if a.usecs < b.usecs then -1
    else if a.usecs > b.usecs then 1
    else 0
  }

  /** iperf_time_diff: the difference, and 1 when the first time is not later. */
  method Diff(time1: Time, time2: Time) returns (diff: Time, past: int)
    requires Normal(time1) && Normal(time2)
    ensures Normal(diff)
    ensures past == if InUsecs(time1) <= InUsecs(time2) then 1 else 0
    ensures InUsecs(diff) == if past == 1 then InUsecs(time2) - InUsecs(time1) else InUsecs(time1) - InUsecs(time2)
  {
    past := 0;
    diff := Time(0, 0);
    var cmp := Compare(time1, time2);
    if cmp == 0 {
      past := 1;
    } else if cmp == 1 {
      diff := Between(time1, time2);
    } else {
      diff := Between(time2, time1);
      past := 1;
    }
  }

  /** The subtraction with its borrow, the later time first. */
  method Between(late: Time, early: Time) returns (diff: Time)
    requires Normal(late) && Normal(early) && Compare(late, early) == 1
    ensures Normal(diff) && InUsecs(diff) == InUsecs(late) - InUsecs(early)
  {
    var secs, usecs := late.secs - early.secs, late.usecs;
    if usecs < early.usecs {
      secs := secs - 1;
      usecs := usecs + MILLION;
    }
    diff := Time(secs, usecs - early.usecs);
  }

  /** Comparing the fields compares the times. */
  lemma CompareIsOrder(a: Time, b: Time)
    requires Normal(a) && Normal(b)
    ensures Compare(a, b) < 0 <==> InUsecs(a) < InUsecs(b)
    ensures Compare(a, b) > 0 <==> InUsecs(a) > InUsecs(b)
    ensures Compare(a, b) == 0 <==> a == b
  {
  }

  lemma Split(n: nat, m: nat)
    requires m > 0
    ensures n == n / m * m + n % m && n % m < m
  {
  }

  lemma CutTwice(a: nat, b: nat)
    ensures Cut(Cut(a) + b) == Cut(a + b)
  {
  }

  /** Cutting the seconds cuts the whole time at 2^32 seconds. */
  lemma CutSeconds(s: nat, u: nat)
    requires u < MILLION
    ensures Cut(s) * MILLION + u == (s * MILLION + u) % (WRAP)
  {
    var q, r := s / UINT32, Cut(s);
    Split(s, UINT32);
    var n, m := r * MILLION + u, WRAP;
    assert s * MILLION + u == q * m + n;
    assert 0 <= n < m;
    ModAdd(q, n);
  }

  lemma ModAdd(q: nat, n: nat)
    requires n < WRAP
    ensures (q * WRAP + n) % WRAP == n
  {
  }

  /** Adding microseconds adds them, modulo 2^32 seconds. */
  lemma AddIsExact(t: Time, usecs: nat)
    requires Normal(t)
    ensures Normal(Added(t, usecs))
    ensures InUsecs(Added(t, usecs)) == (InUsecs(t) + usecs) % (WRAP)
  {
    var q, r := usecs / MILLION, usecs % MILLION;
    var u := t.usecs + r;
    Split(usecs, MILLION);
    assert Cut(u) == u;
    if u >= MILLION {
      assert u / MILLION == 1 && u % MILLION == u - MILLION;
      CutTwice(t.secs + q, 1);
      CutSeconds(t.secs + q + 1, u - MILLION);
      assert InUsecs(t) + usecs == (t.secs + q + 1) * MILLION + (u - MILLION);
    } else {
      CutSeconds(t.secs + q, u);
      assert InUsecs(t) + usecs == (t.secs + q) * MILLION + u;
    }
  }

  /** While the seconds fit their field nothing is lost. */
  lemma AddFits(t: Time, usecs: nat)
    requires Normal(t)
    ensures InUsecs(Added(t, usecs)) == InUsecs(t) + usecs <==> InUsecs(t) + usecs < WRAP
  {
    AddIsExact(t, usecs);
    ModAdd(0, InUsecs(Added(t, usecs)));
  }
}
