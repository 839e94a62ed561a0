/** The timer list as a sequence of entries, and what running it amounts to. Times are in microseconds. */
module TimerSpec {

  datatype Entry<T> = Entry(id: T, time: nat, period: nat, periodic: bool)

  function Later<T>(e: Entry<T>, n: nat): Entry<T> {
    e.(time := e.time + n * e.period)
  }

  ghost predicate Sorted<T>(s: seq<Entry<T>>) {
    forall i, j :: 0 <= i < j < |s| ==> s[i].time <= s[j].time
  }

  /** Periodic timers move on by at least a microsecond. */
  ghost predicate Ready<T>(s: seq<Entry<T>>) {
    forall i :: 0 <= i < |s| ==> s[i].periodic ==> s[i].period > 0
  }

  /** Where list_add puts a time: in front of the first later one. */
  function Place<T>(s: seq<Entry<T>>, time: nat): (k: nat)
    ensures k <= |s|
    ensures forall i :: 0 <= i < k ==> s[i].time <= time
    ensures k < |s| ==> s[k].time > time
  {
    if s == [] || time < s[0].time then 0 else 1 + Place(s[1..], time)
  }

  function Insert<T>(s: seq<Entry<T>>, e: Entry<T>): seq<Entry<T>> {
    var k := Place(s, e.time);
    s[..k] + [e] + s[k..]
  }

  function Without<T>(s: seq<Entry<T>>, c: nat): seq<Entry<T>>
    requires c < |s|
  {
    s[..c] + s[c + 1..]
  }

  /** How often a timer can still become due: once per microsecond up to now at most. */
  function Remaining<T>(e: Entry<T>, now: nat): nat {
    if e.time <= now then now + 1 - e.time else 0
  }

  function Due<T>(s: seq<Entry<T>>, now: nat): nat {
    if s == [] then 0 else Remaining(s[0], now) + Due(s[1..], now)
  }

  /** Firing the entry at `c`: the list then, and where the walk goes on, at the entry that followed. */
  function Fire<T>(s: seq<Entry<T>>, c: nat): (r: (seq<Entry<T>>, nat))
    requires c < |s|
    ensures r.1 <= |r.0|
  {
    var e, others := s[c], Without(s, c);
    if !e.periodic then (others, c)
    else (Insert(others, Later(e, 1)), if Place(others, Later(e, 1).time) <= c then c + 1 else c)
  }

  datatype Ran<T> = Ran(list: seq<Entry<T>>, fired: seq<Entry<T>>)

  /** tmr_run from the entry at `c` on. */
  function Run<T>(s: seq<Entry<T>>, c: nat, now: nat): Ran<T>
    requires c <= |s| && Ready(s)
    decreases Due(s, now)
  {
    if c == |s| || s[c].time > now then Ran(s, [])
    else
      var (s', c') := Fire(s, c);
      FiringCounts(s, c, now);
      var r := Run(s', c', now);
      Ran(r.list, [s[c]] + r.fired)
  }

  // ---- termination ----

  lemma {:induction false} DueOfSum<T>(a: seq<Entry<T>>, b: seq<Entry<T>>, now: nat)
    ensures Due(a + b, now) == Due(a, now) + Due(b, now)
  {
    if a == [] {
      assert a + b == b;
    } else {
      assert (a + b)[1..] == a[1..] + b;
      DueOfSum(a[1..], b, now);
    }
  }

  lemma {:induction false} DueOfInsert<T>(s: seq<Entry<T>>, e: Entry<T>, now: nat)
    ensures Due(Insert(s, e), now) == Due(s, now) + Remaining(e, now)
  {
    var k := Place(s, e.time);
    DueOfSum(s[..k] + [e], s[k..], now);
    DueOfSum(s[..k], [e], now);
    DueOfSum(s[..k], s[k..], now);
    assert s[..k] + s[k..] == s;
    assert Due([e], now) == Remaining(e, now);
  }

  lemma {:induction false} DueOfWithout<T>(s: seq<Entry<T>>, c: nat, now: nat)
    requires c < |s|
    ensures Due(s, now) == Due(Without(s, c), now) + Remaining(s[c], now)
  {
    DueOfSum(s[..c], s[c..], now);
    DueOfSum(s[..c], s[c + 1..], now);
    assert s[..c] + s[c..] == s;
  }

  /** Each firing uses up at least one of the remaining times. */
  lemma {:induction false} FiringCounts<T>(s: seq<Entry<T>>, c: nat, now: nat)
    requires c < |s| && Ready(s) && s[c].time <= now
    ensures Due(Fire(s, c).0, now) < Due(s, now)
    ensures Ready(Fire(s, c).0)
  {
    DueOfWithout(s, c, now);
    hide Place;
    if s[c].periodic {
      hide Insert;
      DueOfInsert(Without(s, c), Later(s[c], 1), now);
      InsertReady(Without(s, c), Later(s[c], 1));
    }
  }

  lemma InsertReady<T>(s: seq<Entry<T>>, e: Entry<T>)
    requires Ready(s) && (e.periodic ==> e.period > 0)
    ensures Ready(Insert(s, e))
  {
  }

  // ---- order ----

  lemma InsertSorts<T>(s: seq<Entry<T>>, e: Entry<T>)
    requires Sorted(s)
    ensures Sorted(Insert(s, e))
  {
    var k, r := Place(s, e.time), Insert(s, e);
    forall i | k < i < |r| ensures e.time <= r[i].time { assert r[i] == s[i - 1]; }
  }

  /** What firing does to a sorted list: the entries behind stay behind, in order, and only the fired one moves. */
  lemma FireKeeps<T>(s: seq<Entry<T>>, c: nat)
    requires c < |s| && Sorted(s)
    ensures var (s', c') := Fire(s, c);
      && Sorted(s')
      && (c' < |s'| ==> s[c].time <= s'[c'].time)
  {
    var e, others := s[c], Without(s, c);
    if e.periodic { InsertSorts(others, Later(e, 1)); }
  }

  lemma FireMoves<T>(s: seq<Entry<T>>, c: nat)
    requires c < |s| && Sorted(s)
    ensures var (s', c') := Fire(s, c);
      && (forall x :: x in s[c + 1..] ==> x in s'[c'..])
      && (forall x :: x in s'[..c'] ==> x in s[..c] || (s[c].periodic && x == Later(s[c], 1)))
  {
    var e, others := s[c], Without(s, c);
    if e.periodic {
      var k := Place(others, Later(e, 1).time);
      var s' := Insert(others, Later(e, 1));
      if k <= c {
        assert s'[c + 1..] == s[c + 1..];
        assert s'[..c + 1] == s[..k] + [Later(e, 1)] + s[k..c];
      } else {
        assert s'[..c] == s[..c];
        assert s'[c..] == others[c..k] + [Later(e, 1)] + others[k..];
        assert others[c..] == s[c + 1..];
        assert others[c..k] + others[k..] == others[c..];
      }
    } else {
      assert others[c..] == s[c + 1..] && others[..c] == s[..c];
    }
  }

  /** The walk goes on at the entry that followed, and ends when there was none. */
  lemma NextStays<T>(s: seq<Entry<T>>, c: nat)
    requires c < |s|
    ensures var (s', c') := Fire(s, c);
      if c + 1 < |s| then c' < |s'| && s'[c'] == s[c + 1] else c' == |s'|
  {
    var others := Without(s, c);
    if s[c].periodic { InsertElements(others, Later(s[c], 1)); }
  }

  // ---- what a run does ----

  /** The list stays sorted; nothing fires that is later than now, and earlier times fire first. */
  lemma {:induction false} RunFiresInOrder<T>(s: seq<Entry<T>>, c: nat, now: nat)
    requires c <= |s| && Ready(s) && Sorted(s)
    ensures Sorted(Run(s, c, now).list)
    ensures Sorted(Run(s, c, now).fired)
    ensures forall x :: x in Run(s, c, now).fired ==> s[c..] != [] && s[c].time <= x.time <= now
    decreases Due(s, now)
  {
    hide Fire;
    if c == |s| || now < s[c].time {
    } else {
      FiringCounts(s, c, now);
      FireKeeps(s, c);
      RunFiresInOrder(Fire(s, c).0, Fire(s, c).1, now);
    }
  }

  /** Every entry that is due fires. */
  lemma {:induction false} RunFiresDue<T>(s: seq<Entry<T>>, c: nat, now: nat, x: Entry<T>)
    requires c <= |s| && Ready(s) && Sorted(s)
    requires x in s[c..] && x.time <= now
    ensures x in Run(s, c, now).fired
    decreases Due(s, now)
  {
    var (s', c') := Fire(s, c);
    FiringCounts(s, c, now);
    if x == s[c] {
    } else {
      assert x in s[c + 1..];
      FireKeeps(s, c);
      FireMoves(s, c);
      RunFiresDue(s', c', now, x);
    }
  }

  /** What is still due when the run ends is a periodic timer that fired in it. */
  lemma {:induction false} RunLeaves<T>(s: seq<Entry<T>>, c: nat, now: nat, x: Entry<T>)
    requires c <= |s| && Ready(s) && Sorted(s)
    requires x in Run(s, c, now).list && x.time <= now
    ensures x in s[..c] || (x.periodic && exists y :: y in Run(s, c, now).fired && y.id == x.id)
    decreases Due(s, now)
  {
    if c == |s| || s[c].time > now {
      var i :| 0 <= i < |s| && s[i] == x;
      assert i < c;
    } else {
      var (s', c') := Fire(s, c);
      FiringCounts(s, c, now);
      FireKeeps(s, c);
      FireMoves(s, c);
      RunLeaves(s', c', now, x);
      if x in s'[..c'] && x !in s[..c] { assert s[c] in Run(s, c, now).fired; }
    }
  }

  // ---- how often a timer fires ----

  function Count<T(==)>(s: seq<Entry<T>>, id: T): nat {
    if s == [] then 0 else (if s[0].id == id then 1 else 0) + Count(s[1..], id)
  }

  ghost predicate DistinctIds<T>(s: seq<Entry<T>>) {
    forall i, j :: 0 <= i < j < |s| ==> s[i].id != s[j].id
  }

  lemma WithoutKeeps<T>(s: seq<Entry<T>>, c: nat, x: Entry<T>)
    requires c < |s| && DistinctIds(s) && x in s
    ensures DistinctIds(Without(s, c)) && forall y :: y in Without(s, c) ==> y.id != s[c].id
    ensures x.id == s[c].id ==> x == s[c]
    ensures x.id != s[c].id ==> x in Without(s, c)
  {
    var others := Without(s, c);
    assert forall k :: 0 <= k < |others| ==> others[k] == s[if k < c then k else k + 1];
    var i :| 0 <= i < |s| && s[i] == x;
    if i != c { assert others[if i < c then i else i - 1] == x; }
  }

  lemma InsertKeeps<T>(s: seq<Entry<T>>, e: Entry<T>)
    requires DistinctIds(s) && forall y :: y in s ==> y.id != e.id
    ensures DistinctIds(Insert(s, e)) && e in Insert(s, e)
    ensures forall y :: y in s ==> y in Insert(s, e)
  {
    InsertElements(s, e);
    var k, r := Place(s, e.time), Insert(s, e);
    hide Place, Insert;
    forall y | y in s ensures y in r {
      var i :| 0 <= i < |s| && s[i] == y;
      assert r[if i < k then i else i + 1] == y;
    }
  }

  lemma {:induction false} InsertElements<T>(s: seq<Entry<T>>, e: Entry<T>)
    ensures var k, r := Place(s, e.time), Insert(s, e);
      |r| == |s| + 1 && r[k] == e && forall i :: 0 <= i < |r| && i != k ==> r[i] == s[if i < k then i else i - 1]
  {
  }

  lemma FireKeepsIds<T>(s: seq<Entry<T>>, c: nat, x: Entry<T>)
    requires c < |s| && DistinctIds(s) && x in s
    ensures DistinctIds(Fire(s, c).0)
    ensures x.id != s[c].id ==> x in Fire(s, c).0
    ensures x.id == s[c].id ==> x == s[c] && (if x.periodic then Later(x, 1) in Fire(s, c).0 else Absent(Fire(s, c).0, x.id))
  {
    hide Place, Insert, Without;
    WithoutKeeps(s, c, x);
    if s[c].periodic { InsertKeeps(Without(s, c), Later(s[c], 1)); }
  }

  ghost predicate Absent<T>(s: seq<Entry<T>>, id: T) {
    forall y :: y in s ==> y.id != id
  }

  lemma FireKeepsAbsent<T>(s: seq<Entry<T>>, c: nat, id: T)
    requires c < |s| && Absent(s, id)
    ensures Absent(Fire(s, c).0, id)
  {
  }

  lemma LaterAgain<T>(e: Entry<T>, n: nat)
    ensures Later(Later(e, 1), n) == Later(e, n + 1)
  {
  }

  /**
   A periodic timer that fired n times is scheduled n periods after its old time; any other timer is gone
   after it fired, which it does once.
   */
  lemma {:induction false} RunAccounts<T>(s: seq<Entry<T>>, c: nat, now: nat, x: Entry<T>)
    requires c <= |s| && Ready(s) && DistinctIds(s) && x in s
    ensures var r := Run(s, c, now);
      var n := Count(r.fired, x.id);
      if x.periodic then Later(x, n) in r.list else n <= 1 && (n == 0 ==> x in r.list) && (n == 1 ==> x !in r.list)
    decreases Due(s, now)
  {
    hide Fire;
    if c < |s| && s[c].time <= now {
      var s', c' := Fire(s, c).0, Fire(s, c).1;
      FiringCounts(s, c, now);
      FireKeepsIds(s, c, x);
      var r := Run(s', c', now);
      assert ([s[c]] + r.fired)[1..] == r.fired;
      if x.id != s[c].id {
        RunAccounts(s', c', now, x);
      } else if x.periodic {
        RunAccounts(s', c', now, Later(x, 1));
        LaterAgain(x, Count(r.fired, x.id));
      } else {
        Gone(s', c', now, x.id);
      }
    } else {
      assert Later(x, 0) == x;
    }
  }

  /** A timer that is not in the list neither fires nor comes back. */
  lemma {:induction false} Gone<T>(s: seq<Entry<T>>, c: nat, now: nat, id: T)
    requires c <= |s| && Ready(s) && Absent(s, id)
    ensures Count(Run(s, c, now).fired, id) == 0 && Absent(Run(s, c, now).list, id)
    decreases Due(s, now)
  {
    if c == |s| || now < s[c].time {
    } else {
      FiringCounts(s, c, now);
      FireKeepsAbsent(s, c, id);
      hide Fire;
      Gone(Fire(s, c).0, Fire(s, c).1, now, id);
      assert ([s[c]] + Run(Fire(s, c).0, Fire(s, c).1, now).fired)[1..] == Run(Fire(s, c).0, Fire(s, c).1, now).fired;
    }
  }

  /**
   tmr_run on a sorted list: the list stays sorted; the scheduled times of what fires never decrease and are
   not later than now; every timer due at the start fires; what is still due at the end is periodic and fired.
   */
  lemma {:induction false} RunMeaning<T>(s: seq<Entry<T>>, now: nat)
    requires Ready(s) && Sorted(s)
    ensures var r := Run(s, 0, now);
      && Sorted(r.list) && Sorted(r.fired) && (forall x :: x in r.fired ==> x.time <= now)
      && (forall x :: x in s && x.time <= now ==> x in r.fired)
      && (forall x :: x in r.list && x.time <= now ==> x.periodic && exists y :: y in r.fired && y.id == x.id)
  {
    hide Run;
    RunFiresInOrder(s, 0, now);
    assert s[0..] == s;
    forall x | x in s && x.time <= now ensures x in Run(s, 0, now).fired { RunFiresDue(s, 0, now, x); }
    forall x | x in Run(s, 0, now).list && x.time <= now
      ensures x.periodic && exists y :: y in Run(s, 0, now).fired && y.id == x.id
    {
      RunLeaves(s, 0, now, x);
    }
  }
}
