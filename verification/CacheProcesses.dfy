/** The event loops of the real-time server and its client, each message proved against the state it changes. */
module CacheProcesses {
  import opened Bytes
  import opened Cache

  ghost predicate IsFirst<V>(m: map<nat, V>, k: nat) {
    k in m && forall j :: j in m ==> k <= j
  }

  /** begin()->first: the smallest key of a map that is not empty. */
  method First<V>(m: map<nat, V>) returns (k: nat)
    requires m != map[]
    ensures IsFirst(m, k)
  {
    k :| k in m;
    var keys: set<nat> := m.Keys - {k};
    while keys != {}
      invariant k in m && (forall j :: j in keys ==> j in m) && (forall j :: j in m ==> k <= j || j in keys)
      decreases keys
    {
      var j :| j in keys;
      if j < k { k := j; }
      keys := keys - {j};
    }
  }

  /** The loop that erases what lies in front of a number. It is not guarded against running a map empty. */
  method Prune<V>(m: map<nat, V>, cumSeq: nat) returns (r: map<nat, V>)
    requires exists k: nat :: k in m && cumSeq <= k
    ensures r == From(m, cumSeq)
  {
    ghost var kept: nat :| cumSeq <= kept && kept in m;
    r := m;
    var first: nat := First(r);
    while first < cumSeq
      invariant IsFirst(r, first) && kept in r
      invariant From(r, cumSeq) == From(m, cumSeq)
      decreases r.Keys
    {
      r := r - {first};
      assert kept in r;
      first := First(r);
    }
  }

  class ServerProcess {
    var window: map<nat, Data>
    var timetable: map<nat, int>
    var cumSeq: nat
    var cacheSeq: nat

    ghost function Model(): Server
      reads this
    {
      Server(window, timetable, cumSeq, cacheSeq)
    }

    constructor ()
      ensures Model() == InitialServer()
    {
      window, timetable, cumSeq, cacheSeq := map[], map[], 0, 1;
    }

    /** A packet from the application. */
    method OnApp(data: Data)
      modifies this
      ensures Model() == Cached(old(Model()), data)
    {
      window := window[cacheSeq := data];
      cacheSeq := cacheSeq + 1;
    }

    /**
     A message from the client. An acknowledgement that prunes must name a packet in both maps, which the
     protocol guarantees.
     */
    method OnMessage(m: Message, now: int) returns (out: set<Reply>)
      requires m.seqNo > 0 && !m.isNack && cumSeq < m.seqNo ==> m.seqNo in window && m.seqNo in timetable
      modifies this
      ensures (Model(), out) == ServerGets(old(Model()), m, now)
    {
      out := {};
      if m.seqNo == 0 {
        out := {Calibration};
      } else if m.isNack {
        if m.seqNo in window {
          if m.seqNo !in timetable { timetable := timetable[m.seqNo := now]; }
          out := {Packet(m.seqNo, window[m.seqNo])};
        }
      } else if cumSeq < m.seqNo {
        cumSeq := m.seqNo;
        timetable := Prune(timetable, cumSeq);
        window := Prune(window, cumSeq);
      }
    }
  }

  lemma {:induction false} TopGrows(timetable: map<nat, nat>, a: seq<nat>, k: nat)
    requires k in timetable
    ensures TopExpired(timetable, a + [k]) ==
      if timetable[k] > TopExpired(timetable, a) then timetable[k] else TopExpired(timetable, a)
  {
    if a == [] {
      assert [k][1..] == [];
    } else {
      assert (a + [k])[1..] == a[1..] + [k];
      TopGrows(timetable, a[1..], k);
    }
  }

  /** The first packet of the window comes first. */
  lemma {:induction false} InOrderFirst(window: map<nat, Data>, i: nat, top: nat, first: nat)
    requires IsFirst(window, first) && i <= first <= top
    ensures InOrder(window, i, top) == [window[first]] + InOrder(window - {first}, i, top)
    decreases first - i
  {
    if i < first {
      InOrderFirst(window, i + 1, top, first);
    } else {
      Untouched(window, i + 1, top, first);
    }
  }

  lemma {:induction false} Untouched(window: map<nat, Data>, i: nat, top: nat, k: nat)
    requires k < i
    ensures InOrder(window, i, top) == InOrder(window - {k}, i, top)
    decreases top + 1 - i
  {
    if i > top {
    } else {
      Untouched(window, i + 1, top, k);
    }
  }

  lemma {:induction false} NothingInOrder(window: map<nat, Data>, i: nat, top: nat)
    requires forall k :: k in window ==> k > top
    ensures InOrder(window, i, top) == []
    decreases top + 1 - i
  {
    if i > top {
    } else {
      NothingInOrder(window, i + 1, top);
    }
  }

  class ClientProcess {
    var window: map<nat, Data>
    var timetable: map<nat, nat>
    var cumSeq: nat
    var delta: int
    var exited: bool
    var delivered: seq<Data>

    ghost function Model(): Client
      reads this
    {
      Client(window, timetable, cumSeq, delta, exited, delivered)
    }

    constructor ()
      ensures Model() == InitialClient()
    {
      window, timetable, cumSeq, delta, exited, delivered := map[], map[], 0, NO_DELTA, false, [];
    }

    /** A packet from the server. */
    method OnReply(r: Reply, stamp: nat, measured: int) returns (out: set<Message>)
      modifies this
      ensures (Model(), out) == ClientGets(old(Model()), r, stamp, measured)
    {
      out := {};
      if r.Packet? && r.seqNo == BLOCKED {
        exited := true;
        return;
      }
      if cumSeq == 0 && delta == NO_DELTA {
        delta, cumSeq := measured, 1;
        return;
      }
      if r.Calibration? { return; }
      if r.seqNo == cumSeq {
        var acked := cumSeq;
        cumSeq := acked + 1;
        var i := cumSeq;
        while i < cumSeq + W_SIZE && i in window
          invariant cumSeq <= i <= cumSeq + W_SIZE && acked == i - 1
          invariant Model() == old(Model()).(cumSeq := cumSeq)
          invariant FirstMissing(window, cumSeq, cumSeq + W_SIZE) == FirstMissing(window, i, cumSeq + W_SIZE)
          decreases cumSeq + W_SIZE - i
        {
          acked := i;
          i := i + 1;
        }
        cumSeq := i;
        out := {Message(acked, false)};
      }
      timetable := timetable[stamp := r.seqNo];
      window := window[r.seqNo := r.data];
    }

    /** The demands of a timeout. */
    method OnTimeout() returns (out: set<Message>)
      ensures out == Demands(Model())
    {
      out := {};
      var i := cumSeq;
      while i < cumSeq + W_SIZE
        invariant cumSeq <= i <= cumSeq + W_SIZE
        invariant out == set k | cumSeq <= k < i && k !in window :: Message(k, true)
      {
        if i !in window { out := out + {Message(i, true)}; }
        i := i + 1;
      }
    }

    /** Timed delivery: stamps before `cutoff` have expired. */
    method Deliver(cutoff: nat) returns (ghost expired: seq<nat>)
      modifies this
      ensures Model() == Delivers(old(Model()), expired)
      ensures forall k :: k in expired <==> k in old(timetable) && k < cutoff
    {
      var top: nat := 0;
      top, expired := Expire(cutoff);
      HandOver(top);
      if cumSeq > 0 && top >= cumSeq { cumSeq := top + 1; }
    }

    /** The first loop: the expired stamps go, the highest of their numbers is kept. */
    method Expire(cutoff: nat) returns (top: nat, ghost expired: seq<nat>)
      modifies this`timetable
      ensures top == TopExpired(old(timetable), expired) && timetable == Without(old(timetable), expired)
      ensures forall k :: k in expired <==> k in old(timetable) && k < cutoff
    {
      top, expired := 0, [];
      while timetable != map[]
        invariant top == TopExpired(old(timetable), expired) && timetable == Without(old(timetable), expired)
        invariant forall k :: k in expired ==> k in old(timetable) && k < cutoff
        decreases timetable.Keys
      {
        var first: nat := First(timetable);
        if first >= cutoff { break; }
        TopGrows(old(timetable), expired, first);
        if timetable[first] > top { top := timetable[first]; }
        timetable := timetable - {first};
        expired := expired + [first];
      }
      assert forall k :: k in old(timetable) && k !in expired ==> k in timetable;
    }

    /** The second loop: the packets up to that number go to the application. */
    method HandOver(top: nat)
      modifies this`window, this`delivered
      ensures window == From(old(window), top + 1)
      ensures delivered == old(delivered) + InOrder(old(window), 0, top)
    {
      while window != map[]
        invariant From(window, top + 1) == From(old(window), top + 1)
        invariant delivered + InOrder(window, 0, top) == old(delivered) + InOrder(old(window), 0, top)
        decreases window.Keys
      {
        var first: nat := First(window);
        if first > top { break; }
        InOrderFirst(window, 0, top, first);
        ghost var before := delivered;
        delivered := delivered + [window[first]];
        window := window - {first};
        assert before + ([delivered[|before|]] + InOrder(window, 0, top)) == delivered + InOrder(window, 0, top);
      }
      NothingInOrder(window, 0, top);
      assert delivered + [] == delivered;
    }
  }
}
