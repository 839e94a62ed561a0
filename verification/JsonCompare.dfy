/**
 cJSON_Compare against cJSON_Duplicate. `value` is the conversion of a number's digits to a number, which
 is foreign; every result holds for every conversion.
 */
module JsonCompare {
  import opened Bytes
  import opened Json

  type Conversion = CString -> real

  const DBL_EPSILON: real := 1.0 / 4503599627370496.0

  function Abs(x: real): real { if x < 0.0 then -x else x }

  /** compare_double */
  predicate CompareDouble(a: real, b: real) {
    Abs(a - b) <= (if Abs(a) > Abs(b) then Abs(a) else Abs(b)) * DBL_EPSILON
  }

  function ToLower(b: byte): byte { if 65 <= b <= 90 then b + 32 else b }

  function Lower(s: seq<byte>): (r: seq<byte>)
    ensures |r| == |s|
  {
    seq(|s|, i requires 0 <= i < |s| => ToLower(s[i]))
  }

  /** Equal under strcmp, or under case_insensitive_strcmp. */
  predicate SameName(a: CString, b: CString, caseSensitive: bool) {
    if caseSensitive then a == b else Lower(a) == Lower(b)
  }

  // ---- sizes, for termination ----

  function Size(t: Json): (n: nat)
    ensures n > 0
  {
    match t
    case Array(child) => 1 + ElementsSize(child)
    case Object(members) => 1 + MembersSize(members)
    case _ => 1
  }

  function ElementsSize(e: Elements): nat {
    match e
    case NoElement => 0
    case Element(v, next) => Size(v) + ElementsSize(next)
  }

  function MembersSize(m: Members): nat {
    match m
    case NoMember => 0
    case Member(_, v, rest) => 1 + Size(v) + MembersSize(rest)
  }

  // ---- the functions ----

  /**
   The first member with that name. A member without a name ends the search when case counts and is passed over
   when it does not.
   */
  function Find(m: Members, name: CString, caseSensitive: bool): (r: Option<Json>)
    ensures r.Some? ==> Size(r.value) < MembersSize(m)
  {
    match m
    case NoMember => None
    case Member(key, v, rest) =>
      if key.None? then (if caseSensitive then None else Find(rest, name, caseSensitive))
      else if SameName(name, key.value, caseSensitive) then Some(v)
      else Find(rest, name, caseSensitive)
  }

  /** get_object_item, on the members of an object. */
  function GetObjectItem(m: Members, name: Option<CString>, caseSensitive: bool): (r: Option<Json>)
    ensures r.Some? ==> Size(r.value) < MembersSize(m)
  {
    if name.None? then None else Find(m, name.value, caseSensitive)
  }

  /** cJSON_Compare, for two items at different addresses. */
  predicate Compare(a: Json, b: Json, caseSensitive: bool, value: Conversion)
    decreases Size(a) + Size(b), 1
  {
    match a
    case Number(x) => b.Number? && CompareDouble(value(x), value(b.token))
    case String(x) => b.String? && x.Some? && b.text.Some? && x.value == b.text.value
    case Raw(x) => b.Raw? && x.Some? && b.raw.Some? && x.value == b.raw.value
    case Array(child) => b.Array? && CompareElements(child, b.child, caseSensitive, value)
    case Object(m) => b.Object? && Covers(m, b.members, caseSensitive, value) && Covers(b.members, m, caseSensitive, value)
    case _ => a == b
  }

  predicate CompareElements(e: Elements, f: Elements, caseSensitive: bool, value: Conversion)
    decreases ElementsSize(e) + ElementsSize(f), 2
  {
    if e.NoElement? || f.NoElement? then e == f
    else Compare(e.value, f.value, caseSensitive, value) && CompareElements(e.next, f.next, caseSensitive, value)
  }

  /** One of the two passes over the members: each has its like in `other`. */
  predicate Covers(m: Members, other: Members, caseSensitive: bool, value: Conversion)
    decreases MembersSize(m) + MembersSize(other), 2
  {
    if m.NoMember? then true
    else
      var found := GetObjectItem(other, m.key, caseSensitive);
      found.Some? && Compare(m.val, found.value, caseSensitive, value) && Covers(m.rest, other, caseSensitive, value)
  }

  /** cJSON_Duplicate: without recursion the copy has no children. */
  function Duplicate(t: Json, recurse: bool): Json {
    if recurse then t
    else
      match t
      case Array(_) => Array(NoElement)
      case Object(_) => Object(NoMember)
      case _ => t
  }

  // ---- symmetry ----

  lemma DoubleSymmetric(a: real, b: real)
    ensures CompareDouble(a, b) == CompareDouble(b, a)
  {
  }

  /** cJSON_Compare is symmetric on all trees, whatever their keys. */
  lemma {:induction false} CompareSymmetric(a: Json, b: Json, caseSensitive: bool, value: Conversion)
    ensures Compare(a, b, caseSensitive, value) == Compare(b, a, caseSensitive, value)
    decreases Size(a) + Size(b), 1
  {
    hide CompareDouble;
    match a {
      case Number(x) => if b.Number? { DoubleSymmetric(value(x), value(b.token)); }
      case Array(child) => if b.Array? { ElementsSymmetric(child, b.child, caseSensitive, value); }
      case _ =>
    }
  }

  lemma {:induction false} ElementsSymmetric(e: Elements, f: Elements, caseSensitive: bool, value: Conversion)
    ensures CompareElements(e, f, caseSensitive, value) == CompareElements(f, e, caseSensitive, value)
    decreases ElementsSize(e) + ElementsSize(f), 2
  {
    if e.Element? && f.Element? {
      CompareSymmetric(e.value, f.value, caseSensitive, value);
      ElementsSymmetric(e.next, f.next, caseSensitive, value);
    }
  }

  // ---- a tree and its copy ----

  /**
   When a tree equals its copy: strings and names are there, and a member whose name stands in front of it
   already has a value equal to the one found first.
   */
  predicate Comparable(t: Json, caseSensitive: bool, value: Conversion)
    decreases Size(t), 1
  {
    match t
    case String(s) => s.Some?
    case Raw(r) => r.Some?
    case Array(child) => ComparableElements(child, caseSensitive, value)
    case Object(members) => ComparableMembers(members, members, caseSensitive, value)
    case _ => true
  }

  predicate ComparableElements(e: Elements, caseSensitive: bool, value: Conversion)
    decreases ElementsSize(e), 2
  {
    e.Element? ==> Comparable(e.value, caseSensitive, value) && ComparableElements(e.next, caseSensitive, value)
  }

  predicate ComparableMembers(m: Members, all: Members, caseSensitive: bool, value: Conversion)
    decreases MembersSize(m), 2
  {
    m.Member? ==>
      && m.key.Some?
      && (var first := Find(all, m.key.value, caseSensitive);
          first == Some(m.val) || (first.Some? && Compare(m.val, first.value, caseSensitive, value)))
      && (Find(all, m.key.value, caseSensitive) == Some(m.val) ==> Comparable(m.val, caseSensitive, value))
      && ComparableMembers(m.rest, all, caseSensitive, value)
  }

  lemma {:induction false} CopyCompares(t: Json, caseSensitive: bool, value: Conversion)
    ensures Compare(t, t, caseSensitive, value) <==> Comparable(t, caseSensitive, value)
    decreases Size(t), 1
  {
    match t {
      case Array(child) => ElementsCompare(child, caseSensitive, value);
      case Object(members) => MembersCompare(members, members, caseSensitive, value);
      case _ =>
    }
  }

  lemma {:induction false} ElementsCompare(e: Elements, caseSensitive: bool, value: Conversion)
    ensures CompareElements(e, e, caseSensitive, value) <==> ComparableElements(e, caseSensitive, value)
    decreases ElementsSize(e), 2
  {
    if e.NoElement? {
    } else {
      CopyCompares(e.value, caseSensitive, value);
      ElementsCompare(e.next, caseSensitive, value);
    }
  }

  lemma {:induction false} MembersCompare(m: Members, all: Members, caseSensitive: bool, value: Conversion)
    ensures Covers(m, all, caseSensitive, value) <==> ComparableMembers(m, all, caseSensitive, value)
    decreases MembersSize(m), 2
  {
    hide Find;
    if m.NoMember? {
    } else {
      CopyCompares(m.val, caseSensitive, value);
      MembersCompare(m.rest, all, caseSensitive, value);
    }
  }

  /** Strings and names are there, and the names of every object are pairwise different. */
  predicate DistinctKeys(t: Json, caseSensitive: bool) {
    match t
    case String(s) => s.Some?
    case Raw(r) => r.Some?
    case Array(child) => DistinctElements(child, caseSensitive)
    case Object(members) => DistinctMembers(members, caseSensitive)
    case _ => true
  }

  predicate DistinctElements(e: Elements, caseSensitive: bool) {
    match e
    case NoElement => true
    case Element(v, next) => DistinctKeys(v, caseSensitive) && DistinctElements(next, caseSensitive)
  }

  predicate DistinctMembers(m: Members, caseSensitive: bool) {
    match m
    case NoMember => true
    case Member(key, v, rest) =>
      && key.Some? && Find(rest, key.value, caseSensitive).None?
      && DistinctKeys(v, caseSensitive) && DistinctMembers(rest, caseSensitive)
  }

  /** `m` is the end of the list `all`. */
  predicate EndOf(m: Members, all: Members) {
    m == all || (all.Member? && EndOf(m, all.rest))
  }

  /** Names that are the same find the same member. */
  lemma {:induction false} SameNameFinds(m: Members, a: CString, b: CString, caseSensitive: bool)
    requires SameName(a, b, caseSensitive)
    ensures Find(m, a, caseSensitive) == Find(m, b, caseSensitive)
  {
    if m.NoMember? {
    } else {
      SameNameFinds(m.rest, a, b, caseSensitive);
    }
  }

  lemma {:induction false} EndsShrink(m: Members, all: Members)
    requires m.Member? && EndOf(m, all)
    ensures EndOf(m.rest, all)
  {
    if m == all {
    } else {
      EndsShrink(m, all.rest);
    }
  }

  /** Where names differ, a member is found under its own name. */
  lemma {:induction false} DistinctFound(m: Members, all: Members, caseSensitive: bool)
    requires m.Member? && EndOf(m, all) && DistinctMembers(all, caseSensitive)
    ensures m.key.Some? && Find(all, m.key.value, caseSensitive) == Some(m.val) && DistinctKeys(m.val, caseSensitive)
  {
    if m == all {
    } else {
      DistinctFound(m, all.rest, caseSensitive);
      if SameName(m.key.value, all.key.value, caseSensitive) {
        SameNameFinds(all.rest, m.key.value, all.key.value, caseSensitive);
      }
    }
  }

  lemma {:induction false} DistinctIsComparable(t: Json, caseSensitive: bool, value: Conversion)
    requires DistinctKeys(t, caseSensitive)
    ensures Comparable(t, caseSensitive, value)
    decreases Size(t), 1
  {
    match t {
      case Array(child) => DistinctElementsComparable(child, caseSensitive, value);
      case Object(members) => DistinctMembersComparable(members, members, caseSensitive, value);
      case _ =>
    }
  }

  lemma {:induction false} DistinctElementsComparable(e: Elements, caseSensitive: bool, value: Conversion)
    requires DistinctElements(e, caseSensitive)
    ensures ComparableElements(e, caseSensitive, value)
    decreases ElementsSize(e), 2
  {
    if e.NoElement? {
    } else {
      DistinctIsComparable(e.value, caseSensitive, value);
      DistinctElementsComparable(e.next, caseSensitive, value);
    }
  }

  lemma {:induction false} DistinctMembersComparable(m: Members, all: Members, caseSensitive: bool, value: Conversion)
    requires EndOf(m, all) && DistinctMembers(all, caseSensitive)
    ensures ComparableMembers(m, all, caseSensitive, value)
    decreases MembersSize(m), 2
  {
    if m.NoMember? {
    } else {
      DistinctFound(m, all, caseSensitive);
      DistinctIsComparable(m.val, caseSensitive, value);
      EndsShrink(m, all);
      DistinctMembersComparable(m.rest, all, caseSensitive, value);
    }
  }

  /**
   A deep copy equals the original whenever no object repeats a name, and in general exactly when the tree is
   comparable.
   */
  lemma {:induction false} CompareDuplicate(t: Json, caseSensitive: bool, value: Conversion)
    ensures Compare(t, Duplicate(t, true), caseSensitive, value) <==> Comparable(t, caseSensitive, value)
    ensures DistinctKeys(t, caseSensitive) ==> Compare(t, Duplicate(t, true), caseSensitive, value)
  {
    CopyCompares(t, caseSensitive, value);
    if DistinctKeys(t, caseSensitive) { DistinctIsComparable(t, caseSensitive, value); }
  }

  /** A shallow copy equals the original exactly when that has no children. */
  lemma {:induction false} CompareShallow(t: Json, caseSensitive: bool, value: Conversion)
    ensures Compare(t, Duplicate(t, false), caseSensitive, value) <==>
      Comparable(t, caseSensitive, value) && Duplicate(t, false) == t
  {
    CopyCompares(t, caseSensitive, value);
  }

  /** Repeated names do fail: with two values that differ, an object does not equal its copy. */
  lemma {:induction false} RepeatedNameFails(key: CString, x: CString, y: CString, caseSensitive: bool, value: Conversion)
    requires !CompareDouble(value(x), value(y))
    ensures var t := Object(Member(Some(key), Number(x), Member(Some(key), Number(y), NoMember)));
      !Compare(t, Duplicate(t, true), caseSensitive, value)
  {
    hide CompareDouble;
    DoubleSymmetric(value(x), value(y));
    var one := Member(Some(key), Number(y), NoMember);
    var two := Member(Some(key), Number(x), one);
    assert Find(two, key, caseSensitive) == Some(Number(x));
    assert !Covers(one, two, caseSensitive, value);
  }

  // ---- objects as maps ----

  /** A name that is found belongs to some member. */
  lemma {:induction false} FoundMember(m: Members, all: Members, name: CString, caseSensitive: bool) returns (at: Members)
    requires EndOf(m, all) && Find(m, name, caseSensitive).Some?
    ensures at.Member? && EndOf(at, all) && at.key.Some? && SameName(name, at.key.value, caseSensitive)
    ensures at.val == Find(m, name, caseSensitive).value
    decreases m
  {
    if m.key.Some? && SameName(name, m.key.value, caseSensitive) {
      at := m;
    } else {
      EndsShrink(m, all);
      at := FoundMember(m.rest, all, name, caseSensitive);
    }
  }

  lemma {:induction false} CoversMember(m: Members, at: Members, other: Members, caseSensitive: bool, value: Conversion)
    requires Covers(m, other, caseSensitive, value) && at.Member? && EndOf(at, m)
    ensures var found := GetObjectItem(other, at.key, caseSensitive);
      found.Some? && Compare(at.val, found.value, caseSensitive, value)
    decreases m
  {
    if at == m {
    } else {
      CoversMember(m.rest, at, other, caseSensitive, value);
    }
  }

  /** Every name found in `m` is found in `other`, with an equal value. */
  ghost predicate Included(m: Members, other: Members, caseSensitive: bool, value: Conversion) {
    forall name: CString :: Find(m, name, caseSensitive).Some? ==>
      Find(other, name, caseSensitive).Some? &&
      Compare(Find(m, name, caseSensitive).value, Find(other, name, caseSensitive).value, caseSensitive, value)
  }

  lemma {:induction false} CoversIncludes(m: Members, other: Members, caseSensitive: bool, value: Conversion)
    requires Covers(m, other, caseSensitive, value)
    ensures Included(m, other, caseSensitive, value)
  {
    forall name: CString | Find(m, name, caseSensitive).Some?
      ensures Find(other, name, caseSensitive).Some? &&
        Compare(Find(m, name, caseSensitive).value, Find(other, name, caseSensitive).value, caseSensitive, value)
    {
      var at := FoundMember(m, m, name, caseSensitive);
      CoversMember(m, at, other, caseSensitive, value);
      SameNameFinds(other, name, at.key.value, caseSensitive);
    }
  }

  lemma {:induction false} IncludedCovers(m: Members, all: Members, other: Members, caseSensitive: bool, value: Conversion)
    requires EndOf(m, all) && DistinctMembers(all, caseSensitive) && Included(all, other, caseSensitive, value)
    ensures Covers(m, other, caseSensitive, value)
    decreases m
  {
    if m.NoMember? {
    } else {
      DistinctFound(m, all, caseSensitive);
      EndsShrink(m, all);
      IncludedCovers(m.rest, all, other, caseSensitive, value);
    }
  }

  /** Objects without repeated names compare as maps: the same names, and equal values under each, in any order. */
  lemma {:induction false} ObjectsCompareAsMaps(a: Members, b: Members, caseSensitive: bool, value: Conversion)
    requires DistinctMembers(a, caseSensitive) && DistinctMembers(b, caseSensitive)
    ensures Compare(Object(a), Object(b), caseSensitive, value) <==>
      Included(a, b, caseSensitive, value) && Included(b, a, caseSensitive, value)
  {
    if Covers(a, b, caseSensitive, value) { CoversIncludes(a, b, caseSensitive, value); }
    if Covers(b, a, caseSensitive, value) { CoversIncludes(b, a, caseSensitive, value); }
    if Included(a, b, caseSensitive, value) { IncludedCovers(a, a, b, caseSensitive, value); }
    if Included(b, a, caseSensitive, value) { IncludedCovers(b, b, a, caseSensitive, value); }
  }

  // ---- what comparing and looking up amount to ----

  function Items(e: Elements): seq<Json> {
    if e.NoElement? then [] else [e.value] + Items(e.next)
  }

  function Entries(m: Members): seq<(Option<CString>, Json)> {
    if m.NoMember? then [] else [(m.key, m.val)] + Entries(m.rest)
  }

  /** Arrays are equal when they have the same length and equal elements in every place. */
  lemma {:induction false} ArraysCompareByPlace(a: Elements, b: Elements, caseSensitive: bool, value: Conversion)
    ensures Compare(Array(a), Array(b), caseSensitive, value) <==>
      |Items(a)| == |Items(b)| && forall i :: 0 <= i < |Items(a)| ==> Compare(Items(a)[i], Items(b)[i], caseSensitive, value)
  {
    ElementsCompareByPlace(a, b, caseSensitive, value);
  }

  lemma {:induction false} ElementsCompareByPlace(a: Elements, b: Elements, caseSensitive: bool, value: Conversion)
    ensures CompareElements(a, b, caseSensitive, value) <==>
      |Items(a)| == |Items(b)| && forall i :: 0 <= i < |Items(a)| ==> Compare(Items(a)[i], Items(b)[i], caseSensitive, value)
    decreases a
  {
    hide Compare;
    if a.NoElement? || b.NoElement? {
    } else {
      ElementsCompareByPlace(a.next, b.next, caseSensitive, value);
      var x, y, xs, ys := Items(a), Items(b), Items(a.next), Items(b.next);
      assert x[0] == a.value && y[0] == b.value;
      if |xs| == |ys| {
        if CompareElements(a, b, caseSensitive, value) {
          forall i | 0 <= i < |x| ensures Compare(x[i], y[i], caseSensitive, value) {
            if i > 0 { assert x[i] == xs[i - 1] && y[i] == ys[i - 1]; }
          }
        }
        if forall i :: 0 <= i < |x| ==> Compare(x[i], y[i], caseSensitive, value) {
          forall i | 0 <= i < |xs| ensures Compare(xs[i], ys[i], caseSensitive, value) {
            assert xs[i] == x[i + 1] && ys[i] == y[i + 1];
          }
        }
      }
    }
  }

  /** Items of different kinds differ; names and raw text are equal as byte strings, and a missing one equals nothing. */
  lemma {:induction false} LeavesCompareByKind(a: Json, b: Json, caseSensitive: bool, value: Conversion)
    ensures Compare(a, b, caseSensitive, value) ==>
      && a.Null? == b.Null? && a.False? == b.False? && a.True? == b.True? && a.Number? == b.Number?
      && a.String? == b.String? && a.Raw? == b.Raw? && a.Array? == b.Array? && a.Object? == b.Object?
    ensures (a.Null? && b.Null?) || (a.False? && b.False?) || (a.True? && b.True?) ==> Compare(a, b, caseSensitive, value)
    ensures a.String? && b.String? ==>
      (Compare(a, b, caseSensitive, value) <==> a.text.Some? && b.text.Some? && a.text.value == b.text.value)
    ensures a.Raw? && b.Raw? ==>
      (Compare(a, b, caseSensitive, value) <==> a.raw.Some? && b.raw.Some? && a.raw.value == b.raw.value)
  {
  }

  /** Two integers that a double can tell apart are never taken for equal. */
  lemma IntegersDiffer(a: int, b: int)
    requires -0x10_0000_0000_0000 < a < 0x10_0000_0000_0000 && -0x10_0000_0000_0000 < b < 0x10_0000_0000_0000
    ensures CompareDouble(a as real, b as real) <==> a == b
  {
    var m := if Abs(a as real) > Abs(b as real) then Abs(a as real) else Abs(b as real);
    assert m * DBL_EPSILON < 1.0;
    if a != b { assert Abs(a as real - b as real) >= 1.0; }
  }

  /** Numbers compare equal when both are zero, or have one sign and differ by at most one part in 2^52. */
  lemma CloseNumbers(a: real, b: real)
    requires Abs(a) <= Abs(b)
    ensures CompareDouble(a, b) <==>
      (a == 0.0 && b == 0.0) || (0.0 < a <= b && b * 4503599627370495.0 <= a * 4503599627370496.0)
      || (b <= a < 0.0 && a * 4503599627370496.0 <= b * 4503599627370495.0)
  {
    assert Abs(b) * DBL_EPSILON * 4503599627370496.0 == Abs(b);
  }

  /** The search returns the first entry with the name; it stops at an entry without one if case counts. */
  lemma {:induction false} FindIsFirst(m: Members, name: CString, caseSensitive: bool, v: Json)
    ensures Find(m, name, caseSensitive) == Some(v) <==> FirstIs(Entries(m), name, caseSensitive, v)
    decreases m
  {
    if m.NoMember? {
    } else {
      hide FirstIs, Named, Passed;
      assert Entries(m)[0] == (m.key, m.val) && Entries(m)[1..] == Entries(m.rest);
      FindIsFirst(m.rest, name, caseSensitive, v);
      FindStep(m, name, caseSensitive);
      FirstStep(Entries(m), name, caseSensitive, v);
    }
  }

  ghost predicate FirstIs(entries: seq<(Option<CString>, Json)>, name: CString, caseSensitive: bool, v: Json) {
    exists k: nat :: k < |entries| && IsFirst(entries, k, name, caseSensitive) && entries[k].1 == v
  }

  lemma FirstStep(entries: seq<(Option<CString>, Json)>, name: CString, caseSensitive: bool, v: Json)
    requires entries != []
    ensures FirstIs(entries, name, caseSensitive, v) <==>
      if Named(entries[0], name, caseSensitive) then entries[0].1 == v
      else Passed(entries[0], name, caseSensitive) && FirstIs(entries[1..], name, caseSensitive, v)
  {
    hide IsFirst, Named, Passed;
    var rest := entries[1..];
    FirstFollows(entries, 0, name, caseSensitive);
    forall k: nat | k < |entries| ensures k > 0 ==> entries[k] == rest[k - 1] {
      FirstFollows(entries, k, name, caseSensitive);
    }
    forall k: nat | k < |rest|
      ensures IsFirst(entries, k + 1, name, caseSensitive) <==>
        Passed(entries[0], name, caseSensitive) && IsFirst(rest, k, name, caseSensitive)
    {
      FirstFollows(entries, k + 1, name, caseSensitive);
    }
    if k: nat :| k < |entries| && IsFirst(entries, k, name, caseSensitive) && entries[k].1 == v {
      FirstFollows(entries, k, name, caseSensitive);
      if k > 0 { assert rest[k - 1].1 == v; }
    }
    if k: nat :| k < |rest| && IsFirst(rest, k, name, caseSensitive) && rest[k].1 == v {
      assert entries[k + 1].1 == v;
    }
  }

  lemma {:induction false} FindStep(m: Members, name: CString, caseSensitive: bool)
    requires m.Member?
    ensures var e := (m.key, m.val);
      Find(m, name, caseSensitive) ==
        if Named(e, name, caseSensitive) then Some(m.val)
        else if Passed(e, name, caseSensitive) then Find(m.rest, name, caseSensitive)
        else None
  {
  }

  /** The first entry is the first with the name, or it is passed over. */
  lemma FirstFollows(entries: seq<(Option<CString>, Json)>, k: nat, name: CString, caseSensitive: bool)
    requires k < |entries|
    ensures IsFirst(entries, k, name, caseSensitive) <==>
      if k == 0 then Named(entries[0], name, caseSensitive)
      else Passed(entries[0], name, caseSensitive) && IsFirst(entries[1..], k - 1, name, caseSensitive)
    ensures Passed(entries[0], name, caseSensitive) ==> !Named(entries[0], name, caseSensitive)
  {
    hide Named;
    if k > 0 {
      var rest := entries[1..];
      assert forall j :: 0 <= j < k - 1 ==> rest[j] == entries[j + 1];
      assert forall j :: 0 < j < k ==> entries[j] == rest[j - 1];
    }
  }

  predicate Named(entry: (Option<CString>, Json), name: CString, caseSensitive: bool) {
    entry.0.Some? && if caseSensitive then entry.0.value == name else Lower(entry.0.value) == Lower(name)
  }

  predicate Passed(entry: (Option<CString>, Json), name: CString, caseSensitive: bool) {
    !Named(entry, name, caseSensitive) && (caseSensitive ==> entry.0.Some?)
  }

  predicate IsFirst(entries: seq<(Option<CString>, Json)>, k: nat, name: CString, caseSensitive: bool)
    requires k < |entries|
  {
    Named(entries[k], name, caseSensitive) && forall j :: 0 <= j < k ==> Passed(entries[j], name, caseSensitive)
  }

  /** Lower case changes the letters from A to Z and nothing else. */
  lemma LowerCaseLetters(b: byte)
    ensures var c, l := b as char, ToLower(b) as char;
      if 'A' <= c <= 'Z' then 'a' <= l <= 'z' && l - 'a' == c - 'A' else l == c
  {
  }

  // ---- the loops ----

  function CharAt(s: CString, i: nat): byte { if i < |s| then s[i] else 0 }

  /** case_insensitive_strcmp, its answer for a string that is not there included. */
  method CaseInsensitiveStrcmp(string1: Option<CString>, string2: Option<CString>) returns (order: int)
    ensures string1.None? || string2.None? ==> order == 1
    ensures string1.Some? && string2.Some? ==>
      var a, b := Lower(string1.value), Lower(string2.value);
      (order == 0 <==> a == b) && (order < 0 <==> Before(a, b)) && (order > 0 <==> Before(b, a))
  {
    if string1.None? || string2.None? { return 1; }
    var s, t := string1.value, string2.value;
    ghost var a, b := Lower(s), Lower(t);
    var i := 0;
    while ToLower(CharAt(s, i)) == ToLower(CharAt(t, i))
      invariant i <= |s| && i <= |t|
      invariant forall k :: 0 <= k < i ==> a[k] == b[k]
      decreases |s| - i
    {
      if CharAt(s, i) == 0 {
        assert a == b;
        NotBeforeItself(a);
        return 0;
      }
      i := i + 1;
    }
    order := ToLower(CharAt(s, i)) - ToLower(CharAt(t, i));
    if order < 0 { BeforeIsStrict(a, b, i); } else { BeforeIsStrict(b, a, i); }
  }

  /** get_object_item: the two loops. */
  method LookUp(members: Members, name: Option<CString>, caseSensitive: bool) returns (r: Option<Json>)
    ensures r == GetObjectItem(members, name, caseSensitive)
  {
    if name.None? { return None; }
    var current := members;
    if caseSensitive {
      while current.Member? && current.key.Some? && name.value != current.key.value
        invariant Find(current, name.value, true) == Find(members, name.value, true)
        decreases current
      {
        current := current.rest;
      }
    } else {
      var order := 1;
      if current.Member? { order := CaseInsensitiveStrcmp(name, current.key); }
      while current.Member? && order != 0
        invariant order == 0 <==> current.Member? && current.key.Some? && Lower(name.value) == Lower(current.key.value)
        invariant Find(current, name.value, false) == Find(members, name.value, false)
        decreases current
      {
        current := current.rest;
        order := 1;
        if current.Member? { order := CaseInsensitiveStrcmp(name, current.key); }
      }
    }
    if current.NoMember? || current.key.None? { return None; }
    r := Some(current.val);
  }

  /** cJSON_Compare */
  method CompareItems(a: Json, b: Json, caseSensitive: bool, value: Conversion) returns (equal: bool)
    ensures equal == Compare(a, b, caseSensitive, value)
    decreases Size(a) + Size(b), 1
  {
    match a {
      case Number(x) => equal := b.Number? && CompareDouble(value(x), value(b.token));
      case String(x) => equal := b.String? && x.Some? && b.text.Some? && x.value == b.text.value;
      case Raw(x) => equal := b.Raw? && x.Some? && b.raw.Some? && x.value == b.raw.value;
      case Array(child) =>
        if !b.Array? { return false; }
        var e, f := child, b.child;
        while e.Element? && f.Element?
          invariant CompareElements(e, f, caseSensitive, value) == CompareElements(child, b.child, caseSensitive, value)
          invariant ElementsSize(e) + ElementsSize(f) <= ElementsSize(child) + ElementsSize(b.child)
          decreases e
        {
          var same := CompareItems(e.value, f.value, caseSensitive, value);
          if !same { return false; }
          e, f := e.next, f.next;
        }
        equal := e.NoElement? && f.NoElement?;
      case Object(members) =>
        if !b.Object? { return false; }
        equal := CompareMembers(members, b.members, caseSensitive, value);
        if equal { equal := CompareMembers(b.members, members, caseSensitive, value); }
      case _ => equal := a == b;
    }
  }

  /** One of the two loops over the members. */
  method CompareMembers(members: Members, other: Members, caseSensitive: bool, value: Conversion) returns (equal: bool)
    ensures equal == Covers(members, other, caseSensitive, value)
    decreases MembersSize(members) + MembersSize(other), 2
  {
    var m := members;
    while m.Member?
      invariant Covers(m, other, caseSensitive, value) == Covers(members, other, caseSensitive, value)
      invariant MembersSize(m) <= MembersSize(members)
      decreases m
    {
      var found := LookUp(other, m.key, caseSensitive);
      if found.None? { return false; }
      var same := CompareItems(m.val, found.value, caseSensitive, value);
      if !same { return false; }
      m := m.rest;
    }
    equal := true;
  }

  /** cJSON_Duplicate: the copies of the children are linked one behind the other. */
  method DuplicateItem(t: Json, recurse: bool) returns (copy: Json)
    ensures copy == Duplicate(t, recurse)
    decreases t
  {
    match t {
      case Array(child) =>
        var copies: seq<Json> := [];
        var e := if recurse then child else NoElement;
        while e.Element?
          invariant e == NoElement || (recurse && (e == child || e < child))
          invariant recurse ==> ElementList(copies, e) == child
          invariant !recurse ==> copies == []
          decreases e
        {
          var v := DuplicateItem(e.value, true);
          ElementLinked(copies, v, e.next);
          copies := copies + [v];
          e := e.next;
        }
        copy := Array(ElementList(copies, NoElement));
      case Object(members) =>
        var copies: seq<(Option<CString>, Json)> := [];
        var m := if recurse then members else NoMember;
        while m.Member?
          invariant m == NoMember || (recurse && (m == members || m < members))
          invariant recurse ==> MemberList(copies, m) == members
          invariant !recurse ==> copies == []
          decreases m
        {
          var v := DuplicateItem(m.val, true);
          MemberLinked(copies, (m.key, v), m.rest);
          copies := copies + [(m.key, v)];
          m := m.rest;
        }
        copy := Object(MemberList(copies, NoMember));
      case _ => copy := t;
    }
  }
}
