/**
 Pacing: a stream may send while its average rate is below the limit, which is checked after every send, or
 after a burst of sends, and by a timer.
 */
module Pacing {
  import opened Bytes

  /** One stream: the bytes it has sent and whether it may send on. */
  datatype Paced = Paced(sender: bool, bytesSent: nat, greenLight: bool)

  /** NET_SOFTERROR and NET_HARDERROR. */
  const SOFT_ERROR: int := -1
  const HARD_ERROR: int := -2

  /** The bits a rate allows in a time. */
  function Allowed(rate: nat, elapsed: real): real {
    rate as real * elapsed
  }

  /** bits_per_second, cut to an integer. */
  function BitsPerSecond(bytes: nat, elapsed: real): int
    requires elapsed > 0.0
  {
    ((bytes * 8) as real / elapsed).Floor
  }

  /** The average is below the rate exactly when fewer bits were sent than the rate allows. */
  lemma BelowRate(bytes: nat, elapsed: real, rate: nat)
    requires elapsed > 0.0
    ensures BitsPerSecond(bytes, elapsed) < rate <==> (bytes * 8) as real < Allowed(rate, elapsed)
  {
    var q := (bytes * 8) as real / elapsed;
    FloorBelow(q, rate);
    assert q * elapsed == (bytes * 8) as real;
    Scale(q, rate as real, elapsed);
  }

  lemma FloorBelow(q: real, n: int)
    ensures q.Floor < n <==> q < n as real
  {
  }

  lemma Scale(a: real, b: real, c: real)
    requires c > 0.0
    ensures a < b <==> a * c < b * c
  {
  }

  lemma AllowedGrows(rate: nat, a: real, b: real)
    requires a <= b
    ensures Allowed(rate, a) <= Allowed(rate, b)
  {
  }

  /** What one send may add, in bits. */
  function Slack(blksize: nat, sends: nat): nat { 8 * blksize * sends }

  /** A stream with `sends` sends since it was last known to be below the rate. */
  predicate Within(p: Paced, rate: nat, elapsed: real, blksize: nat, sends: nat) {
    (p.bytesSent * 8) as real <= Allowed(rate, elapsed) + Slack(blksize, sends) as real
  }

  /**
   In the middle of a round: a stream that may send has made at most `sends` sends since it was known to be
   below the rate, any stream at most a whole round of them.
   */
  predicate InRound(p: Paced, rate: nat, elapsed: real, blksize: nat, round: nat, sends: nat) {
    && Within(p, rate, elapsed, blksize, if p.greenLight then sends else round)
    && (!p.sender ==> p.bytesSent == 0)
  }

  lemma SlackGrows(blksize: nat, a: nat, b: nat)
    requires a <= b
    ensures Slack(blksize, a) <= Slack(blksize, b)
    ensures Slack(blksize, a + 1) == Slack(blksize, a) + 8 * blksize
  {
  }

  /** Time and sends only loosen the bound. */
  lemma Loosens(p: Paced, rate: nat, before: real, after: real, blksize: nat, round: nat, sends: nat, more: nat)
    requires InRound(p, rate, before, blksize, round, sends) && before <= after && sends <= more
    ensures InRound(p, rate, after, blksize, round, more)
  {
    AllowedGrows(rate, before, after);
    SlackGrows(blksize, sends, more);
  }

  /** One send of at most a block. */
  lemma SendsOne(p: Paced, r: nat, rate: nat, elapsed: real, blksize: nat, round: nat, sends: nat)
    requires InRound(p, rate, elapsed, blksize, round, sends) && p.greenLight && p.sender && r <= blksize
    ensures InRound(p.(bytesSent := p.bytesSent + r), rate, elapsed, blksize, round, sends + 1)
  {
    SlackGrows(blksize, sends, sends + 1);
  }

  /** A check sets the light so that the next round starts within the rate. */
  lemma ChecksOne(p: Paced, rate: nat, now: real, elapsed: real, blksize: nat, round: nat, sends: nat)
    requires InRound(p, rate, elapsed, blksize, round, sends) && sends <= round && 0.0 < now <= elapsed
    ensures InRound(p.(greenLight := (p.bytesSent * 8) as real < Allowed(rate, now)), rate, elapsed, blksize, round, 0)
  {
    AllowedGrows(rate, now, elapsed);
    SlackGrows(blksize, sends, round);
  }

  lemma NothingSent(p: Paced, rate: nat, elapsed: real, blksize: nat, round: nat)
    requires !p.sender && p.bytesSent == 0 && elapsed >= 0.0
    ensures InRound(p, rate, elapsed, blksize, round, 0)
  {
    AllowedGrows(rate, 0.0, elapsed);
  }

  /** What InRound says to a user: the bits sent stay within one round of blocks of what the rate allows. */
  lemma WithinOneRound(p: Paced, rate: nat, elapsed: real, blksize: nat, round: nat, sends: nat)
    requires InRound(p, rate, elapsed, blksize, round, sends) && sends <= round
    ensures (p.bytesSent * 8) as real <= rate as real * elapsed + (8 * blksize * round) as real
  {
    SlackGrows(blksize, sends, round);
  }

  class PacedTest {
    var streams: seq<Paced>
    const rate: nat
    const burst: nat
    const multisend: nat
    const blksize: nat
    const bytesLimit: nat
    const blocksLimit: nat
    var bytesSent: nat
    var blocksSent: nat
    var done: bool

    /** The time since the streams were started. */
    var elapsed: real

    /** How many sends a stream may make between two checks. */
    function MaxSends(): nat { Max(burst, 1) }

    /** The streams are paced while the test is not done, when there is a rate. */
    predicate Paces()
      reads this
    {
      !done && rate > 0
    }

    /** Every stream is in its round. */
    ghost predicate Round(sends: nat)
      reads this
    {
      elapsed >= 0.0 && (Paces() ==>
        forall i :: 0 <= i < |streams| ==> InRound(streams[i], rate, elapsed, blksize, MaxSends(), sends))
    }

    /** Streams that may send are within the rate, all others within one round of sends of it. */
    ghost predicate Valid()
      reads this
    {
      Round(0)
    }

    /** Streams that have sent nothing, with their lights green. */
    constructor (senders: seq<bool>, rate: nat, burst: nat, multisend: nat, blksize: nat, bytesLimit: nat, blocksLimit: nat)
      ensures Valid() && |streams| == |senders| && this.rate == rate && this.burst == burst && this.blksize == blksize
    {
      streams := seq(|senders|, i requires 0 <= i < |senders| => Paced(senders[i], 0, true));
      this.rate, this.burst, this.multisend, this.blksize := rate, burst, multisend, blksize;
      this.bytesLimit, this.blocksLimit := bytesLimit, blocksLimit;
      bytesSent, blocksSent, done, elapsed := 0, 0, false, 0.0;
    }

    /** The clock moves on. */
    method Tick(ghost sends: nat) returns (now: real)
      requires Round(sends)
      modifies this`elapsed
      ensures Round(sends) && old(elapsed) <= elapsed == now && now > 0.0
    {
      var d: real := *;
      if d <= 0.0 { d := 1.0; }
      now := elapsed + d;
      forall i | 0 <= i < |streams| && Paces() ensures InRound(streams[i], rate, now, blksize, MaxSends(), sends) {
        Loosens(streams[i], rate, elapsed, now, blksize, MaxSends(), sends, sends);
      }
      elapsed := now;
    }

    /** iperf_check_throttle for the stream at `i`, at a time that has passed. */
    method CheckThrottle(i: nat, now: real, ghost sends: nat)
      requires i < |streams| && 0.0 < now <= elapsed && sends <= MaxSends()
      requires Paces() ==> InRound(streams[i], rate, elapsed, blksize, MaxSends(), sends)
      modifies this`streams
      ensures |streams| == |old(streams)|
      ensures forall k :: 0 <= k < |streams| && k != i ==> streams[k] == old(streams[k])
      ensures !Paces() ==> streams == old(streams)
      ensures Paces() ==>
        streams[i] == old(streams[i]).(greenLight := (streams[i].bytesSent * 8) as real < Allowed(rate, now))
      ensures Paces() ==> InRound(streams[i], rate, elapsed, blksize, MaxSends(), 0)
    {
      if done || rate == 0 { return; }
      var p := streams[i];
      BelowRate(p.bytesSent, now, rate);
      ChecksOne(p, rate, now, elapsed, blksize, MaxSends(), sends);
      streams := streams[i := p.(greenLight := BitsPerSecond(p.bytesSent, now) < rate)];
    }

    /** send_timer_proc: the timer that lets a stream go on. */
    method SendTimer(i: nat)
      requires Valid() && i < |streams|
      modifies this`streams, this`elapsed
      ensures Valid()
    {
      var now := Tick(0);
      CheckThrottle(i, now, 0);
    }

    /** One pass over the streams that are ready, the `sends`-th since the last check; false when none of them sent. */
    method SendRound(left: nat, ghost sends: nat) returns (active: bool, failed: bool)
      requires Round(sends) && left > 0 && (rate > 0 ==> sends < MaxSends())
      modifies this`streams, this`elapsed, this`bytesSent, this`blocksSent
      ensures Round(if failed then MaxSends() else if burst == 0 then 0 else sends + 1)
      ensures |streams| == |old(streams)|
    {
      active, failed := false, false;
      var checkEach := rate != 0 && burst == 0;
      var now := elapsed;
      if checkEach { now := Tick(sends); }
      var i := 0;
      while i < |streams|
        invariant i <= |streams| == |old(streams)| && elapsed >= 0.0 && (checkEach ==> 0.0 < now <= elapsed)
        invariant Paces() ==> forall k :: 0 <= k < i ==>
          InRound(streams[k], rate, elapsed, blksize, MaxSends(), if burst == 0 then 0 else sends + 1)
        invariant Paces() ==> forall k :: i <= k < |streams| ==>
          InRound(streams[k], rate, elapsed, blksize, MaxSends(), sends)
        decreases |streams| - i
      {
        var ready: bool := *;
        if streams[i].greenLight && streams[i].sender && ready {
          if left > 1 && bytesLimit != 0 && bytesSent >= bytesLimit { break; }
          if left > 1 && blocksLimit != 0 && blocksSent >= blocksLimit { break; }
          var r: int :| HARD_ERROR <= r <= blksize;
          if r < 0 {
            if r == SOFT_ERROR { break; }
            forall k | 0 <= k < |streams| && Paces()
              ensures InRound(streams[k], rate, elapsed, blksize, MaxSends(), MaxSends())
            {
              var made := if k < i then if burst == 0 then 0 else sends + 1 else sends;
              Loosens(streams[k], rate, elapsed, elapsed, blksize, MaxSends(), made, MaxSends());
            }
            failed := true;
            return;
          }
          if Paces() { SendsOne(streams[i], r, rate, elapsed, blksize, MaxSends(), sends); }
          streams := streams[i := streams[i].(bytesSent := streams[i].bytesSent + r)];
          active := true;
          bytesSent := bytesSent + r;
          var blockIsSent: bool := *;
          if blockIsSent { blocksSent := blocksSent + 1; }
          if checkEach { CheckThrottle(i, now, sends + 1); }
        } else if Paces() {
          Loosens(streams[i], rate, elapsed, elapsed, blksize, MaxSends(), sends, sends + 1);
        }
        i := i + 1;
      }
      forall k | 0 <= k < |streams| && i <= k && Paces()
        ensures InRound(streams[k], rate, elapsed, blksize, MaxSends(), if burst == 0 then 0 else sends + 1)
      {
        Loosens(streams[k], rate, elapsed, elapsed, blksize, MaxSends(), sends, sends + 1);
      }
    }

    /** iperf_send; a hard error ends it at once, and still leaves every stream within a round of the rate. */
    method Send() returns (failed: bool)
      requires Valid()
      modifies this`streams, this`elapsed, this`bytesSent, this`blocksSent
      ensures if failed then Round(MaxSends()) else Valid()
    {
      var left := if burst != 0 then burst else if rate == 0 then multisend else 1;
      ghost var sends := 0;
      failed := false;
      while left > 0
        invariant Round(sends) && (burst == 0 ==> sends == 0) && sends <= MaxSends()
        invariant burst != 0 ==> left + sends == burst
        decreases left
      {
        var active;
        active, failed := SendRound(left, sends);
        if failed { return; }
        if burst != 0 { sends := sends + 1; }
        if !active { break; }
        left := left - 1;
      }
      if !(rate != 0 && burst == 0) { CheckAll(sends); }
    }

    /** The check of every sender behind a burst. */
    method CheckAll(ghost sends: nat)
      requires Round(sends) && sends <= MaxSends()
      modifies this`streams, this`elapsed
      ensures Valid()
    {
      var now := Tick(sends);
      var i := 0;
      while i < |streams|
        invariant i <= |streams| && 0.0 < now <= elapsed
        invariant Paces() ==> forall k :: 0 <= k < i ==> InRound(streams[k], rate, elapsed, blksize, MaxSends(), 0)
        invariant Paces() ==> forall k :: i <= k < |streams| ==>
          InRound(streams[k], rate, elapsed, blksize, MaxSends(), sends)
      {
        if streams[i].sender {
          CheckThrottle(i, now, sends);
        } else if Paces() {
          NothingSent(streams[i], rate, elapsed, blksize, MaxSends());
        }
        i := i + 1;
      }
    }
  }
}
