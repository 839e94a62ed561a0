/** Loss accounting of a UDP receiver, packet by packet. */
module UdpLoss {
  import opened Bytes

  /** The counters iperf_udp_recv keeps for a stream; `highest` is packet_count. */
  datatype Counters = Counters(highest: nat, lost: nat, outOfOrder: nat)

  function Start(): Counters { Counters(0, 0, 0) }

  /** What one arriving packet with sequence number `pcount` does to them. */
  function Arrive(c: Counters, pcount: nat): Counters {
    if pcount >= c.highest + 1 then
      Counters(pcount, c.lost + (pcount - 1 - c.highest), c.outOfOrder)
    else
      Counters(c.highest, if c.lost > 0 then c.lost - 1 else 0, c.outOfOrder + 1)
  }

  function Received(arrivals: seq<nat>): Counters {
    if arrivals == [] then Start() else Arrive(Received(arrivals[..|arrivals| - 1]), arrivals[|arrivals| - 1])
  }

  function Highest(arrivals: seq<nat>): nat {
    if arrivals == [] then 0 else Max(Highest(arrivals[..|arrivals| - 1]), arrivals[|arrivals| - 1])
  }

  /** The sequence numbers that arrived; senders count from 1. */
  function Seen(arrivals: seq<nat>): (s: set<nat>)
  {
    set p | p in arrivals && p > 0
  }

  /** The sequence numbers a receiver expects when `highest` is the highest it has seen. */
  function Sent(highest: nat): (s: set<nat>)
    ensures |s| == highest && forall p :: p in s <==> 0 < p <= highest
  {
    if highest == 0 then {} else Sent(highest - 1) + {highest}
  }

  /** What is missing below the highest sequence number. */
  function Missing(arrivals: seq<nat>): set<nat> {
    Sent(Highest(arrivals)) - Seen(arrivals)
  }

  lemma {:induction false} SeenIsSent(arrivals: seq<nat>)
    ensures Seen(arrivals) <= Sent(Highest(arrivals))
  {
    if arrivals == [] {
    } else {
      var before, p := arrivals[..|arrivals| - 1], arrivals[|arrivals| - 1];
      SeenIsSent(before);
      assert arrivals == before + [p];
    }
  }

  lemma SubsetSize(a: set<nat>, b: set<nat>)
    requires a <= b
    ensures |a| <= |b| && |b - a| == |b| - |a|
    ensures |a| == |b| ==> a == b
  {
    assert b == a + (b - a);
    if |a| == |b| { assert b - a == {}; }
  }

  lemma SeenGrows(before: seq<nat>, p: nat)
    ensures Seen(before + [p]) == if p > 0 then Seen(before) + {p} else Seen(before)
  {
  }

  lemma Repeats(before: seq<nat>, p: nat)
    ensures |Seen(before + [p])| == |Seen(before)| + if p > 0 && p !in before then 1 else 0
  {
    SeenGrows(before, p);
    if p > 0 && p in before { assert Seen(before) + {p} == Seen(before); }
  }

  /** Nothing is missing below the highest sequence number. */
  predicate Complete(arrivals: seq<nat>) {
    Missing(arrivals) == {}
  }

  lemma {:induction false} MissingCount(arrivals: seq<nat>)
    ensures |Missing(arrivals)| == Highest(arrivals) - |Seen(arrivals)|
    ensures |Seen(arrivals)| <= Highest(arrivals)
    ensures Complete(arrivals) <==> |Seen(arrivals)| == Highest(arrivals)
  {
    SeenIsSent(arrivals);
    SubsetSize(Seen(arrivals), Sent(Highest(arrivals)));
  }

  lemma {:induction false} HighestIsUpper(a: seq<nat>, p: nat)
    requires p in a
    ensures p <= Highest(a)
  {
    var before, last := a[..|a| - 1], a[|a| - 1];
    assert a == before + [last];
    if p in before { HighestIsUpper(before, p); }
  }

  lemma SeenNothing()
    ensures Seen([]) == {}
  {
  }

  /**
   Whatever arrives, in whatever order and however often: the loss count lies between the highest sequence
   number less the packets received and the highest sequence number less the different packets received.
   */
  lemma {:induction false} LossBounds(arrivals: seq<nat>)
    ensures var c := Received(arrivals);
      && c.highest == Highest(arrivals)
      && c.highest - |arrivals| <= c.lost <= c.highest - |Seen(arrivals)|
  {
    hide Seen, Sent;
    if arrivals == [] {
      SeenNothing();
    } else {
      var before, p := arrivals[..|arrivals| - 1], arrivals[|arrivals| - 1];
      assert arrivals == before + [p];
      LossBounds(before);
      Repeats(before, p);
      MissingCount(before);
      MissingCount(arrivals);
      if p in before { HighestIsUpper(before, p); }
    }
  }

  ghost predicate NoDuplicates(arrivals: seq<nat>) {
    forall i, j :: 0 <= i < j < |arrivals| ==> arrivals[i] != arrivals[j]
  }

  // ---- the exact law ----

  /** How far the number of packets has at some moment been ahead of the highest sequence number. */
  function Excess(arrivals: seq<nat>): (x: int)
    ensures x >= |arrivals| - Highest(arrivals)
  {
    if arrivals == [] then 0
    else
      var before, now := Excess(arrivals[..|arrivals| - 1]), |arrivals| - Highest(arrivals);
      if before < now then now else before
  }

  /** The loss count in closed form. */
  lemma {:induction false} LossCount(arrivals: seq<nat>)
    ensures Received(arrivals) == Counters(Highest(arrivals), Highest(arrivals) - |arrivals| + Excess(arrivals),
      Received(arrivals).outOfOrder)
  {
    if arrivals == [] {
    } else {
      LossCount(arrivals[..|arrivals| - 1]);
    }
  }

  /** The places of the packets that do not go beyond the highest number in front of them. */
  function Late(arrivals: seq<nat>): set<nat> {
    set i: nat | i < |arrivals| && arrivals[i] <= Highest(arrivals[..i])
  }

  /** Exactly these count as out of order. */
  lemma {:induction false} OutOfOrderIsLate(arrivals: seq<nat>)
    ensures Received(arrivals).outOfOrder == |Late(arrivals)|
  {
    if arrivals == [] {
      assert Late(arrivals) == {};
    } else {
      var before, p := arrivals[..|arrivals| - 1], arrivals[|arrivals| - 1];
      OutOfOrderIsLate(before);
      LossBounds(before);
      LateGrows(before, p);
      assert arrivals == before + [p];
    }
  }

  lemma {:induction false} LateGrows(before: seq<nat>, p: nat)
    ensures |Late(before + [p])| == |Late(before)| + if p <= Highest(before) then 1 else 0
  {
    hide Highest;
    var all := before + [p];
    assert all[..|before|] == before;
    forall i: nat | i < |before| ensures all[..i] == before[..i] && all[i] == before[i] {}
    if p <= Highest(before) {
      assert Late(all) == Late(before) + {|before|};
    } else {
      assert Late(all) == Late(before);
    }
  }

  /** The excess is the greatest of the differences at the moments so far. */
  lemma {:induction false} ExcessIsMaximum(arrivals: seq<nat>)
    ensures forall k :: 0 <= k <= |arrivals| ==> k - Highest(arrivals[..k]) <= Excess(arrivals)
    ensures exists k :: 0 <= k <= |arrivals| && k - Highest(arrivals[..k]) == Excess(arrivals)
  {
    assert arrivals[..|arrivals|] == arrivals;
    if arrivals == [] {
    } else {
      var before := arrivals[..|arrivals| - 1];
      ExcessIsMaximum(before);
      assert forall k :: 0 <= k <= |before| ==> before[..k] == arrivals[..k];
      if Excess(arrivals) == Excess(before) {
        var k :| 0 <= k <= |before| && k - Highest(before[..k]) == Excess(before);
        assert k - Highest(arrivals[..k]) == Excess(arrivals);
      }
    }
  }

  /** No packet from the `k`-th on repeats an earlier one. */
  ghost predicate FreshFrom(arrivals: seq<nat>, k: nat) {
    forall i {:trigger arrivals[i]} :: k <= i < |arrivals| ==> arrivals[i] > 0 && arrivals[i] !in arrivals[..i]
  }

  lemma FreshSnoc(before: seq<nat>, p: nat, k: nat)
    requires k <= |before|
    ensures FreshFrom(before + [p], k) <==> FreshFrom(before, k) && p > 0 && p !in before
  {
    var all := before + [p];
    assert all[..|before|] == before && all[|before|] == p;
    assert forall i :: k <= i < |before| ==> before[i] == all[i] && before[..i] == all[..i];
  }

  lemma NothingLeft(arrivals: seq<nat>)
    ensures FreshFrom(arrivals, |arrivals|)
  {
  }

  /** Repeats only accumulate, and stand still as long as fresh packets arrive. */
  lemma {:induction false} RepeatsGrow(arrivals: seq<nat>, k: nat)
    requires k <= |arrivals|
    ensures k - |Seen(arrivals[..k])| <= |arrivals| - |Seen(arrivals)|
    ensures k - |Seen(arrivals[..k])| == |arrivals| - |Seen(arrivals)| <==> FreshFrom(arrivals, k)
    decreases |arrivals|
  {
    hide FreshFrom, Seen;
    if k == |arrivals| {
      NothingLeft(arrivals);
      assert arrivals[..k] == arrivals;
    } else {
      var before, p := arrivals[..|arrivals| - 1], arrivals[|arrivals| - 1];
      assert arrivals == before + [p];
      RepeatsGrow(before, k);
      Repeats(before, p);
      FreshSnoc(before, p, k);
      assert before[..k] == arrivals[..k];
    }
  }

  /**
   The count is exactly the number of packets missing below the highest when and only when at some moment
   nothing was missing and no later packet is a repeat.
   */
  lemma {:induction false} LossIsExactIff(arrivals: seq<nat>)
    ensures Received(arrivals).lost == |Missing(arrivals)| <==>
      exists k :: 0 <= k <= |arrivals| && Complete(arrivals[..k]) && FreshFrom(arrivals, k)
  {
    hide Received, Complete, FreshFrom, Highest, Seen, Excess;
    LossCount(arrivals);
    MissingCount(arrivals);
    ExcessIsMaximum(arrivals);
    forall k | 0 <= k <= |arrivals|
      ensures k - Highest(arrivals[..k]) <= |arrivals| - |Seen(arrivals)|
      ensures k - Highest(arrivals[..k]) == |arrivals| - |Seen(arrivals)| <==>
        Complete(arrivals[..k]) && FreshFrom(arrivals, k)
    {
      MissingCount(arrivals[..k]);
      RepeatsGrow(arrivals, k);
    }
  }

  /** Without duplicates it always is: nothing is missing before the first packet. */
  lemma {:induction false} LossIsExact(arrivals: seq<nat>)
    requires NoDuplicates(arrivals) && forall i :: 0 <= i < |arrivals| ==> arrivals[i] > 0
    ensures Received(arrivals).lost == |Missing(arrivals)|
  {
    LossIsExactIff(arrivals);
    assert Complete(arrivals[..0]) && FreshFrom(arrivals, 0);
  }

  lemma {:induction false} HighestIsSeen(a: seq<nat>)
    ensures Highest(a) in a || Highest(a) == 0
  {
    if a == [] {
    } else {
      var before, last := a[..|a| - 1], a[|a| - 1];
      assert a == before + [last];
      HighestIsSeen(before);
    }
  }

  lemma {:induction false} SameHighest(a: seq<nat>, b: seq<nat>)
    requires forall i :: 0 <= i < |a| ==> a[i] > 0
    requires forall i :: 0 <= i < |b| ==> b[i] > 0
    requires Seen(a) == Seen(b)
    ensures Highest(a) == Highest(b)
  {
    HighestIsSeen(a);
    HighestIsSeen(b);
    if Highest(a) > 0 { assert Highest(a) in Seen(b); HighestIsUpper(b, Highest(a)); }
    if Highest(b) > 0 { assert Highest(b) in Seen(a); HighestIsUpper(a, Highest(b)); }
  }

  /** Two orders of the same packets are counted alike exactly when their excess is the same. */
  lemma {:induction false} OrderMattersByExcess(a: seq<nat>, b: seq<nat>)
    requires |a| == |b| && Seen(a) == Seen(b)
    requires forall i :: 0 <= i < |a| ==> a[i] > 0
    requires forall i :: 0 <= i < |b| ==> b[i] > 0
    ensures Received(a).lost == Received(b).lost <==> Excess(a) == Excess(b)
  {
    SameHighest(a, b);
    LossCount(a);
    LossCount(b);
  }

  /** So without duplicates the count does not depend on the order of arrival. */
  lemma {:induction false} OrderDoesNotMatter(a: seq<nat>, b: seq<nat>)
    requires NoDuplicates(a) && NoDuplicates(b)
    requires forall i :: 0 <= i < |a| ==> a[i] > 0
    requires forall i :: 0 <= i < |b| ==> b[i] > 0
    requires Seen(a) == Seen(b)
    ensures Received(a).lost == Received(b).lost && Received(a).highest == Received(b).highest
  {
    SameHighest(a, b);
    LossIsExact(a);
    LossIsExact(b);
    LossBounds(a);
    LossBounds(b);
  }

  /** A repeat while a packet is missing takes one off a count that was exact. */
  lemma {:induction false} RepeatHidesLoss(a: seq<nat>, p: nat)
    requires p in a && Received(a).lost == |Missing(a)| > 0
    ensures Missing(a + [p]) == Missing(a) && Received(a + [p]).lost == |Missing(a + [p])| - 1
  {
    HighestIsUpper(a, p);
    LossBounds(a);
    SeenGrows(a, p);
    assert (a + [p])[..|a|] == a;
    if p > 0 { assert p in Seen(a) && Seen(a) + {p} == Seen(a); }
  }

  lemma {:induction false} Snoc(a: seq<nat>, p: nat)
    ensures Highest(a + [p]) == Max(Highest(a), p)
    ensures Seen(a + [p]) == if p > 0 then Seen(a) + {p} else Seen(a)
  {
    assert (a + [p])[..|a|] == a;
    SeenGrows(a, p);
  }

  /** A fresh packet behind a moment when nothing was missing leaves the count exact. */
  lemma {:induction false} FreshIsExact(a: seq<nat>, q: nat)
    requires Complete(a) && q > Highest(a)
    ensures Received(a + [q]).lost == |Missing(a + [q])|
  {
    if q in a { HighestIsUpper(a, q); }
    var all := a + [q];
    assert all[..|a|] == a;
    assert FreshFrom(all, |a|);
    LossIsExactIff(all);
  }

  /**
   So with duplicates the order does matter: when nothing is missing, a repeat of `p` and a packet `q` that
   leaves a gap are counted exactly in one order and one too low in the other.
   */
  lemma {:induction false} DuplicatesMislead(a: seq<nat>, p: nat, q: nat)
    requires Complete(a) && p in a && p > 0 && q > Highest(a) + 1
    ensures Missing(a + [p] + [q]) == Missing(a + [q] + [p])
    ensures Received(a + [p] + [q]).lost == |Missing(a + [p] + [q])|
    ensures Received(a + [q] + [p]).lost == |Missing(a + [q] + [p])| - 1
  {
    hide Received, Highest;
    HighestIsUpper(a, p);
    Snoc(a, p);
    Snoc(a, q);
    Snoc(a + [p], q);
    Snoc(a + [q], p);
    assert Seen(a) + {p} == Seen(a) by { assert p in Seen(a); }
    FreshIsExact(a + [p], q);
    FreshIsExact(a, q);
    SeenIsSent(a);
    assert Highest(a) + 1 in Missing(a + [q]);
    RepeatHidesLoss(a + [q], p);
  }
}
