/** The server's limit on its total rate: a cyclic array of interval byte counts that acts as a sliding window. */
module RateWindow {

  /** MAX_INTERVAL, the size of the array. */
  const MAX_INTERVAL: nat := 60

  function Sum(s: seq<nat>): nat {
    if s == [] then 0 else s[0] + Sum(s[1..])
  }

  lemma {:induction false} SumOfParts(a: seq<nat>, b: seq<nat>)
    ensures Sum(a + b) == Sum(a) + Sum(b)
  {
    if a == [] {
      assert a + b == b;
    } else {
      assert (a + b)[1..] == a[1..] + b;
      SumOfParts(a[1..], b);
    }
  }

  lemma {:induction false} SumOfNothing(s: seq<nat>)
    ensures s == [] ==> Sum(s) == 0
  {
  }

  lemma {:induction false} SumSnoc(s: seq<nat>, x: nat)
    ensures Sum(s + [x]) == Sum(s) + x
  {
    SumOfParts(s, [x]);
    assert [x][1..] == [];
  }

  lemma {:induction false} Swapped(a: seq<nat>, b: seq<nat>)
    ensures Sum(a + b) == Sum(b + a)
  {
    SumOfParts(a, b);
    SumOfParts(b, a);
  }

  /** The last n elements. */
  function Last(s: seq<nat>, n: nat): seq<nat>
    requires n <= |s|
  {
    s[|s| - n..]
  }

  /** How many calls ago the count at `position` was recorded, when `index` was recorded last. */
  function Age(index: nat, position: nat, periods: nat): nat
    requires index < periods && position < periods
  {
    if position <= index then index - position else index + periods - position
  }

  /** The average rate in bits per second, cut to an integer. */
  function Rate(total: nat, statsInterval: real, periods: nat): int
    requires statsInterval > 0.0 && periods > 0
  {
    (total as real * 8.0 / (statsInterval * periods as real)).Floor
  }

  /** The bits of the window reach the whole rate above the limit over the time of the window. */
  predicate Exceeds(total: nat, statsInterval: real, periods: nat, limit: nat) {
    total as real * 8.0 >= (limit + 1) as real * (statsInterval * periods as real)
  }

  /** The cut rate is above the limit exactly then. */
  lemma RateExceeds(total: nat, statsInterval: real, periods: nat, limit: nat)
    requires statsInterval > 0.0 && periods > 0
    ensures Rate(total, statsInterval, periods) > limit <==> Exceeds(total, statsInterval, periods, limit)
  {
    var time := statsInterval * periods as real;
    var q := total as real * 8.0 / time;
    assert q * time == total as real * 8.0;
    assert q.Floor > limit <==> q >= (limit + 1) as real;
    Scaled(q, (limit + 1) as real, time);
  }

  lemma Scaled(a: real, b: real, c: real)
    requires c > 0.0
    ensures a >= b <==> a * c >= b * c
  {
  }

  class RateLimit {
    const traffic: array<nat>
    const periods: nat
    const statsInterval: real
    const limit: nat
    var index: nat
    var count: nat
    var exceeded: bool

    /** All counts that were recorded. */
    ghost var history: seq<nat>

    ghost predicate Valid()
      reads this, traffic
    {
      && 0 < periods <= MAX_INTERVAL == traffic.Length
      && index < periods && count == |history|
      && statsInterval > 0.0
      && (forall p :: 0 <= p < periods ==>
        Age(index, p, periods) < count ==> traffic[p] == history[count - 1 - Age(index, p, periods)])
    }

    constructor (periods: nat, statsInterval: real, limit: nat)
      requires 0 < periods <= MAX_INTERVAL && statsInterval > 0.0
      ensures Valid() && history == [] && !exceeded && this.periods == periods && fresh(traffic)
    {
      traffic := new nat[MAX_INTERVAL](_ => 0);
      this.periods, this.statsInterval, this.limit := periods, statsInterval, limit;
      index, count, exceeded, history := 0, 0, false, [];
    }

    /** The window is the array read from behind the index around to it. */
    lemma WindowIsRotation()
      requires Valid() && count >= periods
      ensures traffic[index + 1..periods] + traffic[..index + 1] == Last(history, periods)
    {
      var w := traffic[index + 1..periods] + traffic[..index + 1];
      forall i | 0 <= i < periods ensures w[i] == Last(history, periods)[i] {
        var p := if index + 1 + i < periods then index + 1 + i else index + 1 + i - periods;
        assert w[i] == traffic[p] && Age(index, p, periods) == periods - 1 - i;
      }
    }

    /** The loop over the array. */
    method AddUp() returns (total: nat)
      requires Valid() && count >= periods
      ensures total == Sum(Last(history, periods))
    {
      hide Sum, Last, Age;
      total := 0;
      var i := 0;
      SumOfNothing(traffic[..0]);
      while i < periods
        invariant i <= periods && total == Sum(traffic[..i])
      {
        assert traffic[..i + 1] == traffic[..i] + [traffic[i]];
        SumSnoc(traffic[..i], traffic[i]);
        total := total + traffic[i];
        i := i + 1;
      }
      assert traffic[..periods] == traffic[..index + 1] + traffic[index + 1..periods];
      WindowIsRotation();
      Swapped(traffic[..index + 1], traffic[index + 1..periods]);
    }

    /**
     iperf_check_total_rate. From the call on that fills the window, the rate it checks is that of the last
     `periods` intervals; nothing is recorded once the test is done, or without a limit.
     */
    method CheckTotalRate(done: bool, bytes: nat)
      requires Valid()
      modifies this`index, this`count, this`exceeded, this`history, traffic
      ensures Valid() && history == if done || limit == 0 then old(history) else old(history) + [bytes]
      ensures exceeded == (old(exceeded) || (!done && limit > 0 && count >= periods &&
        Exceeds(Sum(Last(history, periods)), statsInterval, periods, limit)))
    {
      hide Rate, Sum, Last, Age, Exceeds;
      if done || limit == 0 { return; }
      Record(bytes);
      if count < periods { return; }
      var total := AddUp();
      var bitsPerSecond := Rate(total, statsInterval, periods);
      RateExceeds(total, statsInterval, periods, limit);
      if bitsPerSecond > limit { exceeded := true; }
    }

    method Record(bytes: nat)
      requires Valid()
      modifies this`index, this`count, this`history, traffic
      ensures Valid() && history == old(history) + [bytes]
    {
      index := index + 1;
      if index >= periods { index := 0; }
      traffic[index] := bytes;
      count := count + 1;
      history := history + [bytes];
    }
  }
}
