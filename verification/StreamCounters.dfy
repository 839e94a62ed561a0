/**
 The counters of one data stream: what is sent and received, the interval list of the statistics callback,
 and the reset at the end of the omitted period.
 */
module StreamCounters {
  import opened UdpLoss

  /** An entry of interval_results. */
  datatype Interval = Interval(
    bytes: int, packets: Counters, intervalPackets: int, intervalErrors: int, intervalOutOfOrder: int,
    jitter: real, start: real, end: real, retrans: int)

  /**
   iperf_stream_result. `since` is the number of intervals recorded when the statistics were last reset and
   `base` the count of retransmissions then; neither is stored by the program.
   */
  datatype Result = Result(
    bytesSent: nat, bytesReceived: nat, sentThisInterval: nat, receivedThisInterval: nat, bytesSentOmit: nat,
    startTime: real, endTime: real, streamRetrans: int, prevTotalRetrans: int,
    intervals: seq<Interval>, since: nat, base: int)

  /** `blocks` is the number of blocks begun, which the program does not store either. */
  datatype Stream = Stream(
    result: Result, pendingSize: nat, counters: Counters, omitted: Counters, jitter: real, prevTransit: real, blocks: nat)

  function NewResult(startTime: real): Result {
    Result(0, 0, 0, 0, 0, startTime, startTime, 0, 0, [], 0, 0)
  }

  function NewStream(startTime: real): Stream {
    Stream(NewResult(startTime), 0, Start(), Start(), 0.0, 0.0, 0)
  }

  /** `total` is the kernel's count of retransmissions on the connection, 0 where it keeps none. */
  datatype Event =
    | TcpSend(written: nat)            // how much of the pending block the socket takes
    | TcpReceive(read: nat, running: bool)
    | UdpSend(written: nat)
    | UdpReceive(read: nat, pcount: nat, transit: real, running: bool)
    | StatsCallback(now: real, total: int)
    | ResetStats(now: real, total: int)

  function Pending(s: Stream, blksize: nat): nat {
    if s.pendingSize == 0 then blksize else s.pendingSize
  }

  predicate Enabled(s: Stream, e: Event, blksize: nat) {
    e.TcpSend? ==> e.written <= Pending(s, blksize)
  }

  function SentBytes(r: Result, n: nat): Result {
    r.(bytesSent := r.bytesSent + n, sentThisInterval := r.sentThisInterval + n)
  }

  function ReceivedBytes(r: Result, n: nat): Result {
    r.(bytesReceived := r.bytesReceived + n, receivedThisInterval := r.receivedThisInterval + n)
  }

  function Distance(a: real, b: real): (d: real)
    ensures d >= 0.0
  {
    if a < b then b - a else a - b
  }

  /** The estimate of section 6.3.1 of RFC 1889; the first packet received has nothing to be compared with. */
  function Jittered(s: Stream, transit: real): Stream {
    var d := if s.result.bytesReceived == 0 then 0.0 else Distance(transit, s.prevTransit);
    s.(jitter := s.jitter + (d - s.jitter) / 16.0, prevTransit := transit)
  }

  function LastPackets(intervals: seq<Interval>): Counters {
    if intervals == [] then Start() else intervals[|intervals| - 1].packets
  }

  /** The interval the statistics callback closes. */
  function Closed(s: Stream, sender: bool, now: real, total: int): Interval {
    var r, last := s.result, LastPackets(s.result.intervals);
    Interval(if sender then r.sentThisInterval else r.receivedThisInterval, s.counters,
      s.counters.highest - last.highest, s.counters.lost - last.lost, s.counters.outOfOrder - last.outOfOrder,
      s.jitter, if r.intervals == [] then r.startTime else r.endTime, now, total - r.prevTotalRetrans)
  }

  /** What the callback makes of the result when it records `x`. */
  function Recorded(r: Result, x: Interval, total: int): Result {
    r.(intervals := r.intervals + [x], sentThisInterval := 0, receivedThisInterval := 0, endTime := x.end,
      streamRetrans := r.streamRetrans + x.retrans, prevTotalRetrans := total)
  }

  function ResetResult(r: Result, now: real, total: int): Result {
    r.(bytesSentOmit := r.bytesSent, bytesReceived := 0, sentThisInterval := 0, receivedThisInterval := 0,
      startTime := now, streamRetrans := 0, prevTotalRetrans := total, base := total, since := |r.intervals|)
  }

  function Next(s: Stream, e: Event, sender: bool, blksize: nat): Stream
    requires Enabled(s, e, blksize)
  {
    match e
    case TcpSend(n) =>
      s.(result := SentBytes(s.result, n), pendingSize := Pending(s, blksize) - n,
        blocks := if s.pendingSize == 0 then s.blocks + 1 else s.blocks)
    case TcpReceive(n, running) => if running then s.(result := ReceivedBytes(s.result, n)) else s
    case UdpSend(n) =>
      s.(result := SentBytes(s.result, n), counters := s.counters.(highest := s.counters.highest + 1))
    case UdpReceive(n, pcount, transit, running) =>
      if running && n > 0 then
        Jittered(s, transit).(result := ReceivedBytes(s.result, n), counters := Arrive(s.counters, pcount))
      else s
    case StatsCallback(now, total) => s.(result := Recorded(s.result, Closed(s, sender, now, total), total))
    case ResetStats(now, total) => s.(result := ResetResult(s.result, now, total), omitted := s.counters, jitter := 0.0)
  }

  ghost predicate IsRun(run: seq<Stream>, events: seq<Event>, sender: bool, blksize: nat) {
    && |run| == |events| + 1 && run[0] == NewStream(run[0].result.startTime)
    && forall i :: 0 <= i < |events| ==>
      Enabled(run[i], events[i], blksize) && run[i + 1] == Next(run[i], events[i], sender, blksize)
  }

  function SumBytes(intervals: seq<Interval>): int {
    if intervals == [] then 0 else SumBytes(intervals[..|intervals| - 1]) + intervals[|intervals| - 1].bytes
  }

  /** The per-interval counts added up. */
  function SumCounts(intervals: seq<Interval>): (int, int, int) {
    if intervals == [] then (0, 0, 0)
    else
      var (p, e, o) := SumCounts(intervals[..|intervals| - 1]);
      var last := intervals[|intervals| - 1];
      (p + last.intervalPackets, e + last.intervalErrors, o + last.intervalOutOfOrder)
  }

  function SumRetrans(intervals: seq<Interval>): int {
    if intervals == [] then 0 else SumRetrans(intervals[..|intervals| - 1]) + intervals[|intervals| - 1].retrans
  }

  /** Every interval begins where the one before it ended. */
  ghost predicate Abut(intervals: seq<Interval>) {
    forall k {:trigger intervals[k]} :: 0 < k < |intervals| ==> intervals[k].start == intervals[k - 1].end
  }

  ghost predicate Balanced(r: Result, sender: bool) {
    && r.since <= |r.intervals|
    && (if sender
        then r.bytesSent - r.bytesSentOmit == SumBytes(r.intervals[r.since..]) + r.sentThisInterval
        else r.bytesReceived == SumBytes(r.intervals[r.since..]) + r.receivedThisInterval)
    && SumCounts(r.intervals) == LastCounts(r.intervals)
    && r.streamRetrans == SumRetrans(r.intervals[r.since..]) == r.prevTotalRetrans - r.base
    && Abut(r.intervals) && (r.intervals != [] ==> r.intervals[|r.intervals| - 1].end == r.endTime)
  }

  function LastCounts(intervals: seq<Interval>): (int, int, int) {
    var last := LastPackets(intervals);
    (last.highest, last.lost, last.outOfOrder)
  }

  lemma StatsKeeps(s: Stream, sender: bool, now: real, total: int)
    requires Balanced(s.result, sender)
    ensures Balanced(Recorded(s.result, Closed(s, sender, now, total), total), sender)
  {
    hide SumBytes, SumCounts, SumRetrans, Abut;
    var r, x := s.result, Closed(s, sender, now, total);
    assert (r.intervals + [x])[r.since..] == r.intervals[r.since..] + [x];
    BytesSnoc(r.intervals[r.since..], x);
    RetransSnoc(r.intervals[r.since..], x);
    CountsSnoc(r.intervals, x);
    AbutSnoc(r.intervals, x);
  }

  lemma AbutSnoc(intervals: seq<Interval>, x: Interval)
    requires Abut(intervals) && (intervals != [] ==> x.start == intervals[|intervals| - 1].end)
    ensures Abut(intervals + [x])
  {
  }

  lemma {:induction false} RetransSnoc(intervals: seq<Interval>, x: Interval)
    ensures SumRetrans(intervals + [x]) == SumRetrans(intervals) + x.retrans
  {
    assert (intervals + [x])[..|intervals|] == intervals;
  }

  lemma {:induction false} BytesSnoc(intervals: seq<Interval>, x: Interval)
    ensures SumBytes(intervals + [x]) == SumBytes(intervals) + x.bytes
  {
    assert (intervals + [x])[..|intervals|] == intervals;
  }

  lemma {:induction false} CountsSnoc(intervals: seq<Interval>, x: Interval)
    ensures var (p, e, o) := SumCounts(intervals);
      SumCounts(intervals + [x]) == (p + x.intervalPackets, e + x.intervalErrors, o + x.intervalOutOfOrder)
  {
    assert (intervals + [x])[..|intervals|] == intervals;
  }

  lemma ResetKeeps(r: Result, sender: bool, now: real, total: int)
    requires Balanced(r, sender)
    ensures Balanced(ResetResult(r, now, total), sender)
  {
    hide SumBytes, SumCounts, SumRetrans, Abut, LastCounts;
    Empty(r.intervals);
  }

  lemma NextBalances(s: Stream, e: Event, sender: bool, blksize: nat)
    requires Enabled(s, e, blksize) && Balanced(s.result, sender)
    ensures Balanced(Next(s, e, sender, blksize).result, sender)
  {
    match e {
      case StatsCallback(now, total) =>
        hide Balanced, Recorded, Closed;
        StatsKeeps(s, sender, now, total);
      case ResetStats(now, total) =>
        hide Balanced, ResetResult;
        ResetKeeps(s.result, sender, now, total);
      case _ =>
        hide SumBytes, SumCounts, SumRetrans, Abut, LastCounts, Arrive, Jittered;
    }
  }

  lemma {:induction false} RunBalances(run: seq<Stream>, events: seq<Event>, sender: bool, blksize: nat, i: nat)
    requires IsRun(run, events, sender, blksize) && i < |run|
    ensures Balanced(run[i].result, sender)
  {
    if i == 0 {
    } else {
      hide Balanced, Next;
      RunBalances(run, events, sender, blksize, i - 1);
      NextBalances(run[i - 1], events[i - 1], sender, blksize);
    }
  }

  lemma Empty(intervals: seq<Interval>)
    ensures SumBytes(intervals[|intervals|..]) == 0 && SumRetrans(intervals[|intervals|..]) == 0
  {
  }

  /**
   Over every interleaving of sending, receiving, statistics callbacks and resets: what a sender has sent
   since the reset, or a receiver received, is the sum of the intervals recorded since then and the open one.
   */
  lemma BytesAreConserved(run: seq<Stream>, events: seq<Event>, sender: bool, blksize: nat, i: nat)
    requires IsRun(run, events, sender, blksize) && i < |run|
    ensures var r := run[i].result;
      && r.since <= |r.intervals|
      && if sender then r.bytesSent - r.bytesSentOmit == SumBytes(r.intervals[r.since..]) + r.sentThisInterval
        else r.bytesReceived == SumBytes(r.intervals[r.since..]) + r.receivedThisInterval
  {
    RunBalances(run, events, sender, blksize, i);
  }

  /** The counts of the intervals of a UDP stream add up to the last snapshot, resets or not. */
  lemma CountsTelescope(run: seq<Stream>, events: seq<Event>, sender: bool, blksize: nat, i: nat)
    requires IsRun(run, events, sender, blksize) && i < |run|
    ensures SumCounts(run[i].result.intervals) == LastCounts(run[i].result.intervals)
  {
    RunBalances(run, events, sender, blksize, i);
  }

  /**
   The retransmissions of a stream are those of the intervals recorded since the reset, and what the kernel
   has counted between the reset and the last callback.
   */
  lemma RetransmissionsAreConserved(run: seq<Stream>, events: seq<Event>, sender: bool, blksize: nat, i: nat)
    requires IsRun(run, events, sender, blksize) && i < |run|
    ensures var r := run[i].result;
      r.since <= |r.intervals| && r.streamRetrans == SumRetrans(r.intervals[r.since..]) == r.prevTotalRetrans - r.base
  {
    RunBalances(run, events, sender, blksize, i);
  }

  /** The intervals of a stream follow each other without a gap, resets or not. */
  lemma IntervalsAbut(run: seq<Stream>, events: seq<Event>, sender: bool, blksize: nat, i: nat)
    requires IsRun(run, events, sender, blksize) && i < |run|
    ensures var r := run[i].result;
      Abut(r.intervals) && (r.intervals != [] ==> r.intervals[|r.intervals| - 1].end == r.endTime)
  {
    RunBalances(run, events, sender, blksize, i);
  }

  /** Whatever arrives and whenever the statistics are reset: the jitter stays within the spread of the transit times. */
  lemma {:induction false} JitterIsBounded(run: seq<Stream>, events: seq<Event>, sender: bool, blksize: nat, i: nat,
      lo: real, hi: real)
    requires IsRun(run, events, sender, blksize) && i < |run| && lo <= hi
    requires forall k :: 0 <= k < |events| ==>
      !events[k].TcpReceive? && (events[k].UdpReceive? ==> lo <= events[k].transit <= hi)
    ensures 0.0 <= run[i].jitter <= hi - lo
    ensures run[i].result.bytesReceived > 0 ==> lo <= run[i].prevTransit <= hi
  {
    if i == 0 {
    } else {
      hide Arrive, Closed;
      JitterIsBounded(run, events, sender, blksize, i - 1, lo, hi);
    }
  }

  /** A TCP sender's bytes come in whole blocks but for what is pending of the last one. */
  lemma {:induction false} BlocksAreWhole(run: seq<Stream>, events: seq<Event>, sender: bool, blksize: nat, i: nat)
    requires IsRun(run, events, sender, blksize) && i < |run|
    requires forall k :: 0 <= k < |events| ==> !events[k].UdpSend?
    ensures run[i].result.bytesSent + run[i].pendingSize == run[i].blocks * blksize && run[i].pendingSize <= blksize
  {
    if i == 0 {
    } else {
      hide Arrive;
      BlocksAreWhole(run, events, sender, blksize, i - 1);
      var s := run[i - 1];
      assert (s.blocks + 1) * blksize == s.blocks * blksize + blksize;
    }
  }

  function Sends(events: seq<Event>): nat {
    if events == [] then 0 else Sends(events[..|events| - 1]) + (if events[|events| - 1].UdpSend? then 1 else 0)
  }

  /** A sender numbers its packets 1, 2, 3 and so on: its count is the number of sends, resets or not. */
  lemma {:induction false} PacketsAreNumbered(run: seq<Stream>, events: seq<Event>, sender: bool, blksize: nat, i: nat)
    requires IsRun(run, events, sender, blksize) && i < |run|
    requires forall k :: 0 <= k < |events| ==> !events[k].UdpReceive?
    ensures run[i].counters == Counters(Sends(events[..i]), 0, 0)
  {
    if i == 0 {
    } else {
      PacketsAreNumbered(run, events, sender, blksize, i - 1);
      assert events[..i][..i - 1] == events[..i - 1];
    }
  }

  /** The sequence numbers a receiver has accounted for. */
  function Arrivals(events: seq<Event>): seq<nat> {
    if events == [] then []
    else
      var e := events[|events| - 1];
      Arrivals(events[..|events| - 1]) + (if e.UdpReceive? && e.running && e.read > 0 then [e.pcount] else [])
  }

  /** A receiver's counters are those of the packets that arrived, whatever else happened in between. */
  lemma {:induction false} ReceiverCounts(run: seq<Stream>, events: seq<Event>, sender: bool, blksize: nat, i: nat)
    requires IsRun(run, events, sender, blksize) && i < |run|
    requires forall k :: 0 <= k < |events| ==> !events[k].UdpSend?
    ensures run[i].counters == Received(Arrivals(events[..i]))
  {
    if i == 0 {
    } else {
      hide Arrive;
      ReceiverCounts(run, events, sender, blksize, i - 1);
      assert events[..i][..i - 1] == events[..i - 1];
      var before, e := Arrivals(events[..i - 1]), events[i - 1];
      assert before + [] == before;
      if e.UdpReceive? && e.running && e.read > 0 { assert (before + [e.pcount])[..|before|] == before; }
    }
  }

  // ---- what the counters of a run are, in terms of its events ----

  /** The transit times of the packets received since the last reset. */
  function Transits(events: seq<Event>): seq<real> {
    if events == [] then []
    else
      Arriving(Transits(events[..|events| - 1]), events[|events| - 1])
  }

  function Arriving(ts: seq<real>, e: Event): seq<real> {
    if e.ResetStats? then [] else if e.UdpReceive? && e.running && e.read > 0 then ts + [e.transit] else ts
  }

  /** How far a transit time is from the one before it. */
  function Gap(ts: seq<real>, i: nat): real
    requires 0 < i < |ts|
  {
    if ts[i] < ts[i - 1] then ts[i - 1] - ts[i] else ts[i] - ts[i - 1]
  }

  /** (15/16)^n */
  function Discount(n: nat): real {
    if n == 0 then 1.0 else Discount(n - 1) * 15.0 / 16.0
  }

  /** The sum over 0 < i < k of a sixteenth of the i-th gap, discounted by 15/16 for every later packet. */
  function Discounted(ts: seq<real>, k: nat): real
    requires k <= |ts|
  {
    if k <= 1 then 0.0 else Discounted(ts, k - 1) + Gap(ts, k - 1) / 16.0 * Discount(|ts| - k)
  }

  lemma Product(a: real, b: real)
    ensures a * (b * 15.0 / 16.0) == (a * b) * 15.0 / 16.0
  {
  }

  /** A further packet discounts all earlier gaps once more. */
  lemma {:induction false} DiscountedLater(ts: seq<real>, t: real, k: nat)
    requires k <= |ts|
    ensures Discounted(ts + [t], k) == Discounted(ts, k) * 15.0 / 16.0
  {
    if k <= 1 {
    } else {
      DiscountedLater(ts, t, k - 1);
      var n := |ts| - k;
      assert Gap(ts + [t], k - 1) == Gap(ts, k - 1);
      assert Discount(n + 1) == Discount(n) * 15.0 / 16.0;
      Product(Gap(ts, k - 1) / 16.0, Discount(n));
    }
  }

  lemma {:induction false} DiscountedNext(ts: seq<real>, t: real)
    ensures ts == [] ==> Discounted(ts + [t], |ts| + 1) == 0.0
    ensures ts != [] ==>
      16.0 * Discounted(ts + [t], |ts| + 1) == 15.0 * Discounted(ts, |ts|) + Gap(ts + [t], |ts|)
  {
    if ts != [] { DiscountedLater(ts, t, |ts|); }
  }

  /** The jitter of a stream that has received packets with these transit times since the last reset. */
  predicate IsSmoothed(s: Stream, ts: seq<real>) {
    && s.jitter == Discounted(ts, |ts|)
    && (s.result.bytesReceived == 0 <==> ts == [])
    && (ts != [] ==> s.prevTransit == ts[|ts| - 1])
  }

  /**
   The jitter of a receiver over any run: every difference of successive transit times since the last reset
   counts one sixteenth and fades by 15/16 with each later packet.
   */
  lemma {:induction false} JitterIsDiscounted(run: seq<Stream>, events: seq<Event>, sender: bool, blksize: nat, i: nat)
    requires IsRun(run, events, sender, blksize) && i < |run|
    requires forall k :: 0 <= k < |events| ==> !events[k].TcpReceive?
    ensures IsSmoothed(run[i], Transits(events[..i]))
  {
    if i == 0 {
    } else {
      hide Next, Discounted;
      JitterIsDiscounted(run, events, sender, blksize, i - 1);
      assert events[..i] == events[..i - 1] + [events[i - 1]];
      TransitsNext(events[..i - 1], events[i - 1]);
      SmoothedNext(run[i - 1], events[i - 1], sender, blksize, Transits(events[..i - 1]));
      assert run[i - 1 + 1] == Next(run[i - 1], events[i - 1], sender, blksize);
    }
  }

  lemma {:induction false} TransitsNext(before: seq<Event>, e: Event)
    ensures Transits(before + [e]) == Arriving(Transits(before), e)
  {
    assert (before + [e])[..|before|] == before;
  }

  lemma SmoothedNext(s: Stream, e: Event, sender: bool, blksize: nat, ts: seq<real>)
    requires Enabled(s, e, blksize) && !e.TcpReceive? && IsSmoothed(s, ts)
    ensures IsSmoothed(Next(s, e, sender, blksize), Arriving(ts, e))
  {
    hide Arrive, Closed, Discounted;
    NothingDiscounted();
    if e.UdpReceive? && e.running && e.read > 0 {
      var t := e.transit;
      DiscountedNext(ts, t);
      assert ts != [] ==> (ts + [t])[|ts| - 1] == s.prevTransit;
    }
  }

  lemma NothingDiscounted()
    ensures Discounted([], 0) == 0.0
  {
  }

  /** All bytes written. */
  function Written(events: seq<Event>): nat {
    if events == [] then 0
    else
      var e := events[|events| - 1];
      Written(events[..|events| - 1]) + if e.TcpSend? || e.UdpSend? then e.written else 0
  }

  /** All bytes read since the last reset while the test ran. */
  function ReadSince(events: seq<Event>): nat {
    if events == [] then 0
    else
      var before, e := ReadSince(events[..|events| - 1]), events[|events| - 1];
      if e.ResetStats? then 0 else if (e.TcpReceive? || e.UdpReceive?) && e.running then before + e.read else before
  }

  /** The byte counters are the sums of what was written and read. */
  lemma {:induction false} BytesAreThoseOfTheEvents(run: seq<Stream>, events: seq<Event>, sender: bool, blksize: nat, i: nat)
    requires IsRun(run, events, sender, blksize) && i < |run|
    ensures run[i].result.bytesSent == Written(events[..i]) && run[i].result.bytesReceived == ReadSince(events[..i])
  {
    if i == 0 {
    } else {
      hide Arrive, Closed, Jittered;
      BytesAreThoseOfTheEvents(run, events, sender, blksize, i - 1);
      assert events[..i][..i - 1] == events[..i - 1];
    }
  }

  /** How many events there are up to the last reset, that one included. */
  function LastReset(events: seq<Event>): (r: nat)
    ensures r <= |events| && (r > 0 ==> events[r - 1].ResetStats?)
    ensures forall k :: r <= k < |events| ==> !events[k].ResetStats?
  {
    if events == [] || events[|events| - 1].ResetStats? then |events| else LastReset(events[..|events| - 1])
  }

  /** What a reset leaves for the summary, and nothing else touches. */
  lemma OmittedNext(s: Stream, e: Event, sender: bool, blksize: nat)
    requires Enabled(s, e, blksize)
    ensures var t := Next(s, e, sender, blksize);
      && t.omitted == (if e.ResetStats? then s.counters else s.omitted)
      && t.result.bytesSentOmit == (if e.ResetStats? then s.result.bytesSent else s.result.bytesSentOmit)
      && t.result.startTime == (if e.ResetStats? then e.now else s.result.startTime)
  {
    hide Arrive, Closed, Distance;
  }

  /** `t` leaves out what had been counted in `s`, when the statistics were reset at `now`. */
  predicate Omits(t: Stream, s: Stream, now: real) {
    t.omitted == s.counters && t.result.bytesSentOmit == s.result.bytesSent && t.result.startTime == now
  }

  /** What is left out of the summary is what had been counted when the statistics were last reset. */
  lemma {:induction false} OmittedIsWhatWasCounted(run: seq<Stream>, events: seq<Event>, sender: bool, blksize: nat, i: nat)
    requires IsRun(run, events, sender, blksize) && i < |run|
    ensures var r := LastReset(events[..i]);
      && (r == 0 ==> run[i].omitted == Start() && run[i].result.bytesSentOmit == 0)
      && (r > 0 ==> Omits(run[i], run[r - 1], events[r - 1].now))
  {
    if i == 0 {
    } else {
      hide Next, LastReset;
      var k, e := i - 1, events[i - 1];
      OmittedIsWhatWasCounted(run, events, sender, blksize, k);
      OmittedNext(run[k], e, sender, blksize);
      assert events[..i] == events[..k] + [e];
      LastResetNext(events[..k], e);
      assert run[k + 1] == Next(run[k], e, sender, blksize);
    }
  }

  lemma {:induction false} LastResetNext(before: seq<Event>, e: Event)
    ensures LastReset(before + [e]) == if e.ResetStats? then |before| + 1 else LastReset(before)
  {
    assert (before + [e])[..|before|] == before;
  }

  /** The places of the statistics callbacks. */
  function Callbacks(events: seq<Event>): (c: seq<nat>)
    ensures forall k :: 0 <= k < |c| ==> c[k] < |events| && events[c[k]].StatsCallback?
  {
    if events == [] then []
    else
      var before := Callbacks(events[..|events| - 1]);
      if events[|events| - 1].StatsCallback? then before + [|events| - 1] else before
  }

  /** The interval is a snapshot of the stream at its callback. */
  ghost predicate IsSnapshot(x: Interval, s: Stream, e: Event, sender: bool) {
    && e.StatsCallback? && x.packets == s.counters && x.jitter == s.jitter && x.end == e.now
    && x.bytes == (if sender then s.result.sentThisInterval else s.result.receivedThisInterval)
    && x.retrans == e.total - s.result.prevTotalRetrans
    && (s.result.intervals == [] ==> x.start == s.result.startTime)
  }

  /** The intervals of a run are the snapshots of its callbacks, one for each. */
  lemma {:induction false} IntervalsAreSnapshots(run: seq<Stream>, events: seq<Event>, sender: bool, blksize: nat, i: nat)
    requires IsRun(run, events, sender, blksize) && i < |run|
    ensures var c := Callbacks(events[..i]);
      && |run[i].result.intervals| == |c|
      && forall k :: 0 <= k < |c| ==> IsSnapshot(run[i].result.intervals[k], run[c[k]], events[c[k]], sender)
  {
    if i == 0 {
    } else {
      hide IsSnapshot, Next, Callbacks;
      var k, e := i - 1, events[i - 1];
      IntervalsAreSnapshots(run, events, sender, blksize, k);
      IntervalsNext(run[k], e, sender, blksize);
      assert events[..i] == events[..k] + [e];
      CallbacksNext(events[..k], e);
      assert run[k + 1] == Next(run[k], e, sender, blksize);
    }
  }

  lemma {:induction false} CallbacksNext(before: seq<Event>, e: Event)
    ensures Callbacks(before + [e]) == Callbacks(before) + if e.StatsCallback? then [|before|] else []
  {
    assert (before + [e])[..|before|] == before;
  }

  lemma IntervalsNext(s: Stream, e: Event, sender: bool, blksize: nat)
    requires Enabled(s, e, blksize)
    ensures var before, after := s.result.intervals, Next(s, e, sender, blksize).result.intervals;
      if e.StatsCallback?
      then |after| == |before| + 1 && after[..|before|] == before && IsSnapshot(after[|before|], s, e, sender)
      else after == before
  {
    hide Arrive, Jittered, IsSnapshot, Closed;
    if e.StatsCallback? { ClosedIsSnapshot(s, e, sender); }
  }

  lemma ClosedIsSnapshot(s: Stream, e: Event, sender: bool)
    requires e.StatsCallback?
    ensures IsSnapshot(Closed(s, sender, e.now, e.total), s, e, sender)
  {
  }

  // ---- the stream as it runs ----

  class StreamState {
    const sender: bool
    const blksize: nat
    var result: Result
    var pendingSize: nat
    var packetCount: nat
    var cntError: nat
    var outOfOrderPackets: nat
    var omittedPacketCount: nat
    var omittedCntError: nat
    var omittedOutOfOrderPackets: nat
    var jitter: real
    var prevTransit: real
    ghost var blocks: nat

    ghost function Model(): Stream
      reads this
    {
      Stream(result, pendingSize, Counters(packetCount, cntError, outOfOrderPackets),
        Counters(omittedPacketCount, omittedCntError, omittedOutOfOrderPackets), jitter, prevTransit, blocks)
    }

    constructor (sender: bool, blksize: nat, now: real)
      ensures Model() == NewStream(now) && this.sender == sender && this.blksize == blksize
    {
      this.sender, this.blksize, result := sender, blksize, NewResult(now);
      pendingSize, packetCount, cntError, outOfOrderPackets := 0, 0, 0, 0;
      omittedPacketCount, omittedCntError, omittedOutOfOrderPackets := 0, 0, 0;
      jitter, prevTransit, blocks := 0.0, 0.0, 0;
    }

    /** iperf_tcp_send, when the socket takes `n` bytes of the pending block. */
    method TcpSend(n: nat)
      requires Enabled(Model(), Event.TcpSend(n), blksize)
      modifies this
      ensures Model() == Next(old(Model()), Event.TcpSend(n), sender, blksize)
    {
      if pendingSize == 0 {
        pendingSize := blksize;
        blocks := blocks + 1;
      }
      pendingSize := pendingSize - n;
      result := result.(bytesSent := result.bytesSent + n);
      result := result.(sentThisInterval := result.sentThisInterval + n);
    }

    /** iperf_tcp_recv */
    method TcpReceive(n: nat, running: bool)
      modifies this
      ensures Model() == Next(old(Model()), Event.TcpReceive(n, running), sender, blksize)
    {
      if running {
        result := result.(bytesReceived := result.bytesReceived + n);
        result := result.(receivedThisInterval := result.receivedThisInterval + n);
      }
    }

    /** iperf_udp_send */
    method UdpSend(n: nat)
      modifies this
      ensures Model() == Next(old(Model()), Event.UdpSend(n), sender, blksize)
    {
      packetCount := packetCount + 1;
      result := result.(bytesSent := result.bytesSent + n);
      result := result.(sentThisInterval := result.sentThisInterval + n);
    }

    /** iperf_udp_recv; `transit` is the difference between the time in the packet and that of its arrival. */
    method UdpReceive(n: nat, pcount: nat, transit: real, running: bool)
      modifies this
      ensures Model() == Next(old(Model()), Event.UdpReceive(n, pcount, transit, running), sender, blksize)
    {
      if n == 0 { return; }
      if running {
        var firstPacket := result.bytesReceived == 0;
        result := result.(bytesReceived := result.bytesReceived + n);
        result := result.(receivedThisInterval := result.receivedThisInterval + n);
        if pcount >= packetCount + 1 {
          if pcount > packetCount + 1 { cntError := cntError + (pcount - 1 - packetCount); }
          packetCount := pcount;
        } else {
          outOfOrderPackets := outOfOrderPackets + 1;
          if cntError > 0 { cntError := cntError - 1; }
        }
        if firstPacket { prevTransit := transit; }
        var d := transit - prevTransit;
        if d < 0.0 { d := -d; }
        prevTransit := transit;
        jitter := jitter + (d - jitter) / 16.0;
      }
    }

    /** What iperf_stats_callback does for one stream. */
    method StatsCallback(now: real, total: int)
      modifies this`result
      ensures Model() == Next(old(Model()), Event.StatsCallback(now, total), sender, blksize)
    {
      var bytes := if sender then result.sentThisInterval else result.receivedThisInterval;
      var start := if result.intervals == [] then result.startTime else result.endTime;
      var retrans := total - result.prevTotalRetrans;
      var snapshot := Counters(packetCount, cntError, outOfOrderPackets);
      var x: Interval;
      if result.intervals == [] {
        x := Interval(bytes, snapshot, packetCount, cntError, outOfOrderPackets, jitter, start, now, retrans);
      } else {
        var last := result.intervals[|result.intervals| - 1].packets;
        x := Interval(bytes, snapshot, packetCount - last.highest, cntError - last.lost, outOfOrderPackets - last.outOfOrder,
          jitter, start, now, retrans);
      }
      result := result.(endTime := now, streamRetrans := result.streamRetrans + retrans, prevTotalRetrans := total);
      result := result.(intervals := result.intervals + [x]);
      result := result.(sentThisInterval := 0, receivedThisInterval := 0);
    }

    /** What iperf_reset_stats does for one stream. */
    method ResetStats(now: real, total: int)
      modifies this
      ensures Model() == Next(old(Model()), Event.ResetStats(now, total), sender, blksize)
    {
      omittedPacketCount, omittedCntError, omittedOutOfOrderPackets := packetCount, cntError, outOfOrderPackets;
      jitter := 0.0;
      result := result.(bytesSentOmit := result.bytesSent, bytesReceived := 0);
      result := result.(sentThisInterval := 0, receivedThisInterval := 0);
      result := result.(prevTotalRetrans := total, streamRetrans := 0, startTime := now);
      result := result.(since := |result.intervals|, base := total);
    }
  }
}
