/** The timer module's two linked lists, relinked in place. */
module Timers {
  import opened IperfTime
  import opened TimerSpec

  /** One timer. What it calls when it fires is foreign and does not touch the lists. */
  class Timer {
    var time: Time
    var usecs: nat
    var periodic: bool
    var prev: Timer?
    var next: Timer?

    constructor ()
    {
      time, usecs, periodic, prev, next := Time(0, 0), 0, false, null, null;
    }
  }

  ghost predicate Distinct(s: seq<Timer>) {
    forall i, j :: 0 <= i < j < |s| ==> s[i] != s[j]
  }

  ghost function Succ(s: seq<Timer>, i: int): Timer?
    requires -1 <= i < |s|
  {
    if i + 1 < |s| then s[i + 1] else null
  }

  ghost function Pred(s: seq<Timer>, i: int): Timer?
    requires 0 <= i <= |s|
  {
    if i > 0 then s[i - 1] else null
  }

  /** The nodes of `s` are linked in both directions, in this order, and `head` points to the first. */
  ghost predicate Chain(s: seq<Timer>, head: Timer?)
    reads s`next, s`prev
  {
    && head == Succ(s, -1)
    && Distinct(s)
    && (forall i {:trigger s[i].next} :: 0 <= i < |s| ==> s[i].next == Succ(s, i))
    && (forall i {:trigger s[i].prev} :: 0 <= i < |s| ==> s[i].prev == Pred(s, i))
  }

  ghost predicate NormalTimes(s: seq<Timer>)
    reads s`time
  {
    forall t :: t in s ==> Normal(t.time)
  }

  ghost function EntryOf(t: Timer): Entry<Timer>
    reads t`time, t`usecs, t`periodic
  {
    Entry(t, InUsecs(t.time), t.usecs, t.periodic)
  }

  ghost function Entries(s: seq<Timer>): (r: seq<Entry<Timer>>)
    reads s`time, s`usecs, s`periodic
    ensures |r| == |s| && forall i :: 0 <= i < |s| ==> r[i] == EntryOf(s[i])
  {
    if s == [] then [] else [EntryOf(s[0])] + Entries(s[1..])
  }

  lemma {:induction false} PlaceIs<T>(s: seq<Entry<T>>, time: nat, k: nat)
    requires k <= |s|
    requires forall i :: 0 <= i < k ==> s[i].time <= time
    requires k < |s| ==> s[k].time > time
    ensures Place(s, time) == k
  {
    if k == 0 {
    } else {
      PlaceIs(s[1..], time, k - 1);
    }
  }

  /** `t` put between two neighbours. */
  lemma ChainWith(s: seq<Timer>, k: nat, t: Timer, head: Timer?)
    requires k <= |s| && t !in s && Distinct(s)
    requires head == if k == 0 then t else Succ(s, -1)
    requires t.next == Succ(s, k - 1) && t.prev == Pred(s, k)
    requires forall i {:trigger s[i].next} :: 0 <= i < |s| ==> s[i].next == if i == k - 1 then t else Succ(s, i)
    requires forall i {:trigger s[i].prev} :: 0 <= i < |s| ==> s[i].prev == if i == k then t else Pred(s, i)
    ensures Chain(s[..k] + [t] + s[k..], head)
  {
    var r := s[..k] + [t] + s[k..];
    forall i | 0 <= i < |r|
      ensures r[i].next == Succ(r, i) && r[i].prev == Pred(r, i)
    {
      if i < k { assert r[i] == s[i]; } else if i > k { assert r[i] == s[i - 1]; }
    }
  }

  ghost function Removed(s: seq<Timer>, c: nat): seq<Timer>
    requires c < |s|
  {
    s[..c] + s[c + 1..]
  }

  /** The neighbours of `s[c]` linked to each other. */
  lemma ChainWithout(s: seq<Timer>, c: nat, head: Timer?)
    requires c < |s| && Distinct(s)
    requires head == if c == 0 then Succ(s, 0) else Succ(s, -1)
    requires forall i {:trigger s[i].next} :: 0 <= i < |s| && i != c ==>
      s[i].next == if i == c - 1 then Succ(s, c) else Succ(s, i)
    requires forall i {:trigger s[i].prev} :: 0 <= i < |s| && i != c ==>
      s[i].prev == if i == c + 1 then Pred(s, c) else Pred(s, i)
    ensures Chain(Removed(s, c), head) && s[c] !in Removed(s, c)
  {
    var r := Removed(s, c);
    forall i | 0 <= i < |r|
      ensures r[i].next == Succ(r, i) && r[i].prev == Pred(r, i)
    {
      if i < c { assert r[i] == s[i]; } else { assert r[i] == s[i + 1]; }
    }
  }

  /** The free list is linked one way only. */
  ghost predicate FreeChain(s: seq<Timer>, head: Timer?)
    reads s`next
  {
    && head == Succ(s, -1)
    && Distinct(s)
    && (forall i {:trigger s[i].next} :: 0 <= i < |s| ==> s[i].next == Succ(s, i))
  }

  lemma FreeChainWith(s: seq<Timer>, t: Timer)
    requires Distinct(s) && t !in s && t.next == Succ(s, -1)
    requires forall i {:trigger s[i].next} :: 0 <= i < |s| ==> s[i].next == Succ(s, i)
    ensures FreeChain([t] + s, t)
  {
    var r := [t] + s;
    forall i | 0 <= i < |r| ensures r[i].next == Succ(r, i) {
      if i > 0 { assert r[i] == s[i - 1]; }
    }
  }

  lemma FreeTail(s: seq<Timer>)
    requires s != [] && FreeChain(s, s[0])
    ensures FreeChain(s[1..], s[0].next) && s[0] !in s[1..]
  {
    forall i | 0 <= i < |s| - 1 ensures s[1..][i].next == Succ(s[1..], i) { assert s[1..][i] == s[i + 1]; }
  }

  lemma {:induction false} EntriesRemoved(s: seq<Timer>, c: nat)
    requires c < |s|
    ensures Entries(Removed(s, c)) == Without(Entries(s), c)
  {
    hide Entries, EntryOf;
    var r, es := Removed(s, c), Entries(s);
    forall i | 0 <= i < |r| ensures Entries(r)[i] == Without(es, c)[i] {
      DroppedAt(s, c, i);
      DroppedAt(es, c, i);
    }
  }

  lemma DroppedAt<T>(s: seq<T>, c: nat, i: nat)
    requires c < |s| && i < |s| - 1
    ensures (s[..c] + s[c + 1..])[i] == s[if i < c then i else i + 1]
  {
  }

  lemma NotRemoved(s: seq<Timer>, c: nat, head: Timer?)
    requires c < |s| && Chain(s, head)
    ensures s[c] !in Removed(s, c)
    ensures forall t :: t in Removed(s, c) ==> t in s
  {
  }

  lemma Spliced<T>(s: seq<T>, k: nat, x: T, r: seq<T>)
    requires k <= |s| && r == s[..k] + [x] + s[k..]
    ensures IsSplice(s, k, x, r)
  {
  }

  /** `r` is `s` with `x` put in at `k`. */
  ghost predicate IsSplice<T>(s: seq<T>, k: nat, x: T, r: seq<T>) {
    k <= |s| && |r| == |s| + 1 && r[k] == x && forall i :: 0 <= i < |r| && i != k ==> r[i] == s[if i < k then i else i - 1]
  }

  lemma {:induction false} EntriesSpliced(s: seq<Timer>, k: nat, t: Timer, r: seq<Timer>, e: seq<Entry<Timer>>)
    requires IsSplice(s, k, t, r) && IsSplice(Entries(s), k, EntryOf(t), e)
    ensures Entries(r) == e
  {
    hide Entries, EntryOf;
    forall i | 0 <= i < |r| ensures Entries(r)[i] == e[i] {
      if i != k { assert r[i] == s[if i < k then i else i - 1]; }
    }
  }

  lemma {:induction false} EntriesWith(s: seq<Timer>, k: nat, t: Timer)
    requires k <= |s|
    ensures Entries(s[..k] + [t] + s[k..]) == Entries(s)[..k] + [EntryOf(t)] + Entries(s)[k..]
  {
    hide Entries;
    var es := Entries(s);
    var r, e := s[..k] + [t] + s[k..], es[..k] + [EntryOf(t)] + es[k..];
    Spliced(s, k, t, r);
    Spliced(es, k, EntryOf(t), e);
    hide IsSplice;
    EntriesSpliced(s, k, t, r, e);
  }

  /** What is left of a sorted list is sorted. */
  lemma WithoutSorted<T>(s: seq<Entry<T>>, c: nat)
    requires c < |s| && Sorted(s)
    ensures Sorted(Without(s, c))
  {
  }

  datatype Wait = Forever | Wait(secs: nat, usecs: nat)

  /** How long to wait at `now` for a time. */
  function Until(time: Time, now: Time): nat {
    if InUsecs(time) <= InUsecs(now) then 0 else InUsecs(time) - InUsecs(now)
  }

  function Behind<T>(fired: seq<Entry<T>>, r: Ran<T>): Ran<T> {
    Ran(r.list, fired + r.fired)
  }

  lemma BehindNothing<T>(r: Ran<T>)
    ensures Behind([], r) == r && Behind(r.fired, Ran(r.list, [])) == r
  {
    assert [] + r.fired == r.fired && r.fired + [] == r.fired;
  }

  lemma BehindOne<T>(fired: seq<Entry<T>>, e: Entry<T>, r: Ran<T>)
    ensures Behind(fired, Ran(r.list, [e] + r.fired)) == Behind(fired + [e], r)
  {
    assert fired + ([e] + r.fired) == fired + [e] + r.fired;
  }

  /** Equal entries are the same node. */
  lemma {:induction false} SameNode(s: seq<Timer>, r: seq<Timer>, i: nat, j: nat)
    requires 0 < i <= |s| && j <= |r|
    requires if i < |s| then j < |r| && Entries(r)[j].id == s[i] else j == |r|
    ensures Succ(s, i - 1) == Succ(r, j - 1)
  {
    hide Entries;
  }

  class TimerList {
    var timers: Timer?
    var freeTimers: Timer?
    ghost var active: seq<Timer>
    ghost var free: seq<Timer>

    constructor ()
      ensures active == [] && timers == null
    {
      timers, freeTimers, active, free := null, null, [], [];
    }

    /** Both lists are well linked and share no timer; the active one is sorted. */
    ghost predicate Valid()
      reads this, active, free
    {
      && Chain(active, timers) && FreeChain(free, freeTimers)
      && (forall t :: t in active ==> t !in free)
      && NormalTimes(active) && Sorted(Entries(active))
    }

    /** Valid but for the time of one timer, which has changed. */
    ghost predicate ValidExcept(c: nat)
      requires c < |active|
      reads this, active, free
    {
      && Chain(active, timers) && FreeChain(free, freeTimers)
      && (forall t :: t in active ==> t !in free)
      && NormalTimes(Removed(active, c)) && Sorted(Without(Entries(active), c))
    }

    /** The walk of list_add: the neighbours between which a timer goes that is not the first. */
    method FindPlace(time: Time) returns (t2prev: Timer, t2: Timer?, ghost k: nat)
      requires Chain(active, timers) && timers != null
      requires NormalTimes(active) && Normal(time) && InUsecs(timers.time) <= InUsecs(time)
      ensures 0 < k <= |active| && t2prev == active[k - 1] && t2 == Succ(active, k - 1)
      ensures k == Place(Entries(active), InUsecs(time))
    {
      hide Entries;
      t2prev, t2, k := timers, timers.next, 1;
      while t2 != null && Compare(time, t2.time) >= 0
        invariant 1 <= k <= |active| && t2prev == active[k - 1] && t2 == Succ(active, k - 1)
        invariant forall i :: 0 <= i < k ==> InUsecs(active[i].time) <= InUsecs(time)
        decreases |active| - k
      {
        CompareIsOrder(time, t2.time);
        t2prev, t2, k := t2, t2.next, k + 1;
      }
      if t2 != null { CompareIsOrder(time, t2.time); }
      PlaceIs(Entries(active), InUsecs(time), k);
    }

    /** list_add at the head of the list. */
    method LinkFirst(t: Timer)
      requires Chain(active, timers) && t !in active
      modifies this`timers, this`active, t`prev, t`next, active`prev
      ensures active == [t] + old(active) && Chain(active, timers)
    {
      if timers == null {
        timers := t;
        t.prev, t.next := null, null;
      } else {
        t.prev := null;
        t.next := timers;
        timers.prev := t;
        timers := t;
      }
      ChainWith(active, 0, t, timers);
      assert active[..0] + [t] + active[0..] == [t] + active;
      active := [t] + active;
    }

    /** list_add between two neighbours. */
    method LinkBehind(t: Timer, t2prev: Timer, t2: Timer?, ghost k: nat)
      requires Chain(active, timers) && t !in active
      requires 0 < k <= |active| && t2prev == active[k - 1] && t2 == Succ(active, k - 1)
      modifies this`active, t`prev, t`next, active`prev, active`next
      ensures active == old(active)[..k] + [t] + old(active)[k..] && Chain(active, timers)
    {
      t2prev.next := t;
      t.prev := t2prev;
      t.next := t2;
      if t2 != null { t2.prev := t; }
      ChainWith(active, k, t, timers);
      active := active[..k] + [t] + active[k..];
    }

    /** The three cases of list_add. */
    method Link(t: Timer) returns (ghost k: nat)
      requires Chain(active, timers) && t !in active
      requires NormalTimes(active) && Normal(t.time)
      modifies this`timers, this`active, t`prev, t`next, active`prev, active`next
      ensures k == Place(old(Entries(active)), InUsecs(t.time)) <= |old(active)|
      ensures active == old(active)[..k] + [t] + old(active)[k..]
      ensures Chain(active, timers)
    {
      hide Entries;
      if timers != null { CompareIsOrder(t.time, timers.time); }
      if timers == null || Compare(t.time, timers.time) < 0 {
        k := 0;
        PlaceIs(Entries(active), InUsecs(t.time), 0);
        LinkFirst(t);
      } else {
        var t2prev, t2;
        t2prev, t2, k := FindPlace(t.time);
        LinkBehind(t, t2prev, t2, k);
      }
    }

    /** list_add: behind every timer that is not later. */
    method ListAdd(t: Timer)
      requires Valid() && t !in active && t !in free && Normal(t.time)
      modifies this`timers, this`active, t`prev, t`next, active`prev, active`next
      ensures Valid()
      ensures Entries(active) == Insert(old(Entries(active)), EntryOf(t))
      ensures forall x :: x in active <==> x in old(active) || x == t
    {
      hide Entries, Place, Chain, Sorted, FreeChain;
      ghost var es, s := Entries(active), active;
      ghost var k := Link(t);
      assert Entries(active) == Insert(es, EntryOf(t)) by {
        assert Entries(s) == es;
        EntriesWith(s, k, t);
      }
      InsertSorts(es, EntryOf(t));
      assert forall x :: x in active <==> x in s || x == t by { assert s == s[..k] + s[k..]; }
      KeepsFree();
    }

    /** list_remove */
    method ListRemove(t: Timer, ghost c: nat)
      requires c < |active| && active[c] == t && ValidExcept(c)
      modifies this`timers, this`active, active`prev, active`next
      ensures Valid()
      ensures active == Removed(old(active), c) && t !in active
      ensures Entries(active) == Without(old(Entries(active)), c)
    {
      hide Entries;
      ghost var es := Entries(active);
      EntriesRemoved(active, c);
      Unlink(t, c);
      hide Chain;
      assert Entries(active) == Without(es, c);
      KeepsFree();
    }

    method Unlink(t: Timer, ghost c: nat)
      requires Chain(active, timers) && c < |active| && active[c] == t
      modifies this`timers, this`active, active`prev, active`next
      ensures active == Removed(old(active), c) && Chain(active, timers) && t !in active
    {
      if t.prev == null { timers := t.next; } else { t.prev.next := t.next; }
      if t.next != null { t.next.prev := t.prev; }
      ChainWithout(active, c, timers);
      active := Removed(active, c);
    }

    /** Entries stay what they are while times and periods do. */
    twostate lemma {:induction false} SameTimes(s: seq<Timer>)
      requires forall x :: x in s ==> x.time == old(x.time) && x.usecs == old(x.usecs) && x.periodic == old(x.periodic)
      ensures Entries(s) == old(Entries(s))
    {
      hide Entries;
    }

    /** Relinking active timers leaves the free ones alone. */
    twostate lemma KeepsFree()
      requires old(FreeChain(free, freeTimers)) && free == old(free) && freeTimers == old(freeTimers)
      requires forall x :: x in free ==> x.next == old(x.next)
      ensures FreeChain(free, freeTimers)
    {
    }

    /** list_resort, after the time has changed. */
    method ListResort(t: Timer, ghost c: nat)
      requires c < |active| && active[c] == t && ValidExcept(c) && Normal(t.time)
      modifies this`timers, this`active, active`prev, active`next
      ensures Valid()
      ensures Entries(active) == Insert(Without(old(Entries(active)), c), EntryOf(t))
      ensures forall x :: x in active <==> x in old(active)
    {
      hide Entries, Place, Chain;
      assert active == active[..c] + [t] + active[c + 1..];
      ListRemove(t, c);
      ListAdd(t);
    }

    /** A new time for an active timer, and list_resort. */
    method Reschedule(t: Timer, time: Time, ghost c: nat)
      requires Valid() && c < |active| && active[c] == t && Normal(time)
      modifies this`timers, this`active, t`time, active`prev, active`next
      ensures Valid()
      ensures t.time == time
      ensures Entries(active) == Insert(Without(old(Entries(active)), c), EntryOf(t))
      ensures forall x :: x in active <==> x in old(active)
    {
      hide Entries, Place, Chain, Sorted, FreeChain, Insert, Removed, Normal, EntryOf;
      NotRemoved(active, c, timers);
      ghost var es, others := Entries(active), Removed(active, c);
      EntriesRemoved(active, c);
      WithoutSorted(es, c);
      t.time := time;
      SameTimes(others);
      EntriesRemoved(active, c);
      ListResort(t, c);
    }

    /** tmr_cancel */
    method Cancel(t: Timer, ghost c: nat)
      requires Valid() && c < |active| && active[c] == t
      modifies this, active`prev, active`next
      ensures Valid()
      ensures active == Removed(old(active), c) && free == [t] + old(free)
      ensures Entries(active) == Without(old(Entries(active)), c)
    {
      hide Entries, Chain, Sorted, Without;
      WithoutSorted(Entries(active), c);
      ListRemove(t, c);
      label Gone:
      t.next := freeTimers;
      freeTimers := t;
      t.prev := null;
      FreeChainWith(free, t);
      free := [t] + free;
      SameTimes@Gone(active);
    }

    /** tmr_create: a timer from the free list, or a new one, put in its place. */
    method Create(now: Time, usecs: nat, periodic: bool) returns (t: Timer)
      requires Valid() && Normal(now)
      modifies this, active`prev, active`next, free
      ensures Valid()
      ensures if old(free) == [] then fresh(t) && free == [] else t == old(free)[0] && free == old(free)[1..]
      ensures EntryOf(t) == Entry(t, (InUsecs(now) + usecs) % WRAP, usecs, periodic)
      ensures Entries(active) == Insert(old(Entries(active)), EntryOf(t))
    {
      hide Entries, Chain, Sorted, Place, Insert, FreeChain;
      t := Take();
      assert Entries(active) == old(Entries(active));
      SetUp(t, now, usecs, periodic);
      ListAdd(t);
    }

    /** The fields of a timer that is in neither list. */
    method SetUp(t: Timer, now: Time, usecs: nat, periodic: bool)
      requires Valid() && Normal(now) && t !in active && t !in free
      modifies t`time, t`usecs, t`periodic
      ensures Valid() && Normal(t.time) && Entries(active) == old(Entries(active))
      ensures EntryOf(t) == Entry(t, (InUsecs(now) + usecs) % WRAP, usecs, periodic)
    {
      hide Entries, Chain, Sorted, FreeChain;
      t.usecs, t.periodic := usecs, periodic;
      AddIsExact(now, usecs);
      t.time := AddUsecs(now, usecs);
      SameTimes(active);
    }

    /** A timer from the free list, or a new one. */
    method Take() returns (t: Timer)
      requires Valid()
      modifies this`freeTimers, this`free
      ensures Valid() && t !in active && t !in free
      ensures if old(free) == [] then fresh(t) && free == [] else t == old(free)[0] && free == old(free)[1..]
    {
      hide Entries, Sorted, Chain;
      if freeTimers != null {
        t := freeTimers;
        freeTimers := t.next;
        FreeTail(free);
        free := free[1..];
      } else {
        t := new Timer();
      }
    }

    /** tmr_reset */
    method Reset(now: Time, t: Timer) returns (ghost c: nat)
      requires Valid() && Normal(now) && t in active
      modifies this`timers, this`active, t`time, active`prev, active`next
      ensures Valid()
      ensures c < |old(active)| && old(active)[c] == t
      ensures InUsecs(t.time) == (InUsecs(now) + t.usecs) % WRAP
      ensures Entries(active) == Insert(Without(old(Entries(active)), c), EntryOf(t))
    {
      hide Entries, Chain, Sorted, Insert, Without;
      c :| 0 <= c < |active| && active[c] == t;
      AddIsExact(now, t.usecs);
      var time := AddUsecs(now, t.usecs);
      Reschedule(t, time, c);
    }

    /** tmr_timeout: how long until the earliest of all active timers. */
    method Timeout(now: Time) returns (r: Wait)
      requires Valid() && Normal(now)
      ensures r.Forever? <==> active == []
      ensures r.Wait? ==> r.usecs < MILLION
      ensures r.Wait? ==> exists t :: t in active && r.secs * MILLION + r.usecs == Until(t.time, now)
      ensures r.Wait? ==> forall t :: t in active ==> r.secs * MILLION + r.usecs <= Until(t.time, now)
    {
      if timers == null { return Forever; }
      var diff, past := Diff(timers.time, now);
      var usecs := if past == 1 then 0 else InUsecs(diff);
      r := Wait(usecs / MILLION, usecs % MILLION);
      assert timers == active[0];
      forall t | t in active ensures usecs <= Until(t.time, now) {
        var i :| 0 <= i < |active| && active[i] == t;
        assert Entries(active)[0].time <= Entries(active)[i].time;
      }
    }

    /** One turn of tmr_run: `t` at position `c` fires; the walk goes on at the node that followed it. */
    method FireOne(t: Timer, next: Timer?, ghost c: nat) returns (ghost c': nat)
      requires Valid() && c < |active| && active[c] == t && next == t.next
      requires t.periodic ==> InUsecs(t.time) + t.usecs < WRAP
      modifies this, active
      ensures Valid()
      ensures (Entries(active), c') == Fire(old(Entries(active)), c)
      ensures next == Succ(active, c' - 1)
      ensures forall x :: x in active ==> x in old(active) && x.usecs == old(x.usecs) && x.periodic == old(x.periodic)
    {
      hide Entries, Sorted, FreeChain, Place, Insert, Without;
      ghost var s, es := active, Entries(active);
      NextStays(es, c);
      assert next == Succ(s, c);
      c' := Fire(es, c).1;
      if t.periodic {
        AddFits(t.time, t.usecs);
        AddIsExact(t.time, t.usecs);
        var time := AddUsecs(t.time, t.usecs);
        Reschedule(t, time, c);
        assert EntryOf(t) == Later(es[c], 1);
      } else {
        Cancel(t, c);
      }
      assert Entries(active) == Fire(es, c).0;
      hide Fire, Chain;
      SameNode(s, active, c + 1, c');
    }

    /** tmr_run. A time that is due leaves room in the 32-bit seconds for its period. */
    method Run(now: Time) returns (ghost fired: seq<Entry<Timer>>)
      requires Valid() && Normal(now)
      requires forall t :: t in active && t.periodic ==> t.usecs > 0 && InUsecs(now) + t.usecs < WRAP
      modifies this, active
      ensures Valid()
      ensures Ready(old(Entries(active)))
      ensures Ran(Entries(active), fired) == TimerSpec.Run(old(Entries(active)), 0, InUsecs(now))
    {
      hide Entries, Sorted, FreeChain, Place, Insert, Without, Fire, Remaining, Due;
      ghost var start, n := Entries(active), InUsecs(now);
      ghost var c: nat := 0;
      fired := [];
      var t := timers;
      BehindNothing(TimerSpec.Run(start, 0, n));
      while t != null
        invariant Valid() && c <= |active| && t == Succ(active, c - 1)
        invariant forall i :: 0 <= i < |active| ==> active[i] in old(active)
        invariant forall x :: x in active && x.periodic ==> x.usecs > 0 && n + x.usecs < WRAP
        invariant Ready(Entries(active))
        invariant TimerSpec.Run(start, 0, n) == Behind(fired, TimerSpec.Run(Entries(active), c, n))
        decreases Due(Entries(active), n)
      {
        ghost var es := Entries(active);
        var next := t.next;
        CompareIsOrder(t.time, now);
        if Compare(t.time, now) > 0 { break; }
        FiringCounts(es, c, n);
        BehindOne(fired, es[c], TimerSpec.Run(Fire(es, c).0, Fire(es, c).1, n));
        fired := fired + [es[c]];
        c := FireOne(t, next, c);
        t := next;
      }
      BehindNothing(Ran(Entries(active), fired));
    }

    /** The first free timer is given back to the allocator. */
    method DropFree()
      requires Valid() && freeTimers != null
      modifies this`freeTimers, this`free
      ensures Valid() && free == old(free)[1..] && |free| < |old(free)|
    {
      hide Entries, Sorted, Chain;
      FreeTail(free);
      var t := freeTimers;
      freeTimers := t.next;
      free := free[1..];
    }

    /** tmr_cleanup */
    method Cleanup()
      requires Valid()
      modifies this`freeTimers, this`free
      ensures Valid() && freeTimers == null && free == []
    {
      while freeTimers != null
        invariant Valid()
        decreases |free|
      {
        DropFree();
      }
    }

    /** tmr_destroy */
    method Destroy()
      requires Valid()
      modifies this, active
      ensures Valid() && timers == freeTimers == null && active == free == []
    {
      hide Entries, Sorted, FreeChain;
      while timers != null
        invariant Valid()
        invariant forall i :: 0 <= i < |active| ==> active[i] in old(active)
        decreases |active|
      {
        Cancel(timers, 0);
      }
      Cleanup();
    }
  }
}
