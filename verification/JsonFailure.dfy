/**
 Where the parser gives up. A text it refuses breaks off somewhere: it is read as far as it is a beginning of
 some value, and the offset and the depth reported are those of the first token that cannot go on.
 */
module JsonFailure {
  import opened Bytes
  import opened Json
  import opened JsonText
  import opened JsonLex
  import opened JsonParse
  import opened JsonGrammar
  import opened JsonParseExact

  /** A text that breaks off: the containers that are still open, what they hold so far and what is missing. */
  datatype Broken =
    | NoValue                            // no value starts here
    | TooDeep                            // a container starts at the nesting limit
    | CutOff                             // a container starts with the last byte
    | InArray(elements: BrokenElements)
    | InObject(members: BrokenMembers)

  datatype BrokenElements =
    | LastElement(last: Broken)
    | MoreElements(value: Json, next: BrokenElements)
    | Unclosed(value: Json)              // neither a comma nor a closing bracket follows

  datatype BrokenMembers =
    | NoName
    | NoColon(key: Option<CString>)
    | LastMember(key: Option<CString>, last: Broken)
    | MoreMembers(key: Option<CString>, value: Json, rest: BrokenMembers)
    | Unfinished(key: Option<CString>, value: Json)

  /** Where a text breaks, and how deep inside. */
  datatype Place = Place(at: nat, depth: nat) | Nowhere

  predicate Opens(ts: Tokens) { Next(ts, OpenArray) || Next(ts, OpenObject) }

  /** Tokens that spell a value within the limit from depth `d` on; what follows, or nothing. */
  function Behind(t: Json, ts: Tokens, d: nat): Option<Tokens> {
    var l := Spell(t, ts);
    if l.Left? && d + Depth(t) <= NESTING_LIMIT then Some(l.rest) else None
  }

  /** The place where the tokens break off as `w` says. */
  function BreakAt(w: Broken, ts: Tokens, d: nat): Place
    decreases w
  {
    match w
    case NoValue =>
      if ts.Ahead? && (ts.token.Leaf? || Opens(ts)) then Nowhere
      else Place(if ts.Stop? then ts.badValue else Start(ts), d)
    case TooDeep => if Opens(ts) && d >= NESTING_LIMIT then Place(ts.start, d) else Nowhere
    case CutOff => if Opens(ts) && d < NESTING_LIMIT && ts.rest.End? then Place(ts.start, d + 1) else Nowhere
    case InArray(e) =>
      if Next(ts, OpenArray) && d < NESTING_LIMIT && !ts.rest.End? && !Next(ts.rest, CloseArray)
      then BreakInElements(e, ts.rest, d + 1) else Nowhere
    case InObject(m) =>
      if Next(ts, OpenObject) && d < NESTING_LIMIT && !ts.rest.End? && !Next(ts.rest, CloseObject)
      then BreakInMembers(m, ts.rest, d + 1) else Nowhere
  }

  function BreakInElements(e: BrokenElements, ts: Tokens, d: nat): Place
    decreases e
  {
    match e
    case LastElement(last) => BreakAt(last, ts, d)
    case MoreElements(v, next) =>
      var b := Behind(v, ts, d);
      if b.Some? && Next(b.value, Comma) then BreakInElements(next, b.value.rest, d) else Nowhere
    case Unclosed(v) =>
      var b := Behind(v, ts, d);
      if b.Some? && !Next(b.value, Comma) && !Next(b.value, CloseArray) then Place(Start(b.value), d) else Nowhere
  }

  /** A name that is missing has been looked for: the offset is behind the byte that stands in its place. */
  function BreakInMembers(m: BrokenMembers, ts: Tokens, d: nat): Place
    decreases m
  {
    match m
    case NoName =>
      if ts.Ahead? && ts.token.Leaf? && ts.token.item.String? then Nowhere
      else Place(if ts.Stop? then ts.badName else Start(ts) + 1, d)
    case NoColon(key) =>
      if Next(ts, Leaf(String(key))) && !Next(ts.rest, Colon) then Place(Start(ts.rest), d) else Nowhere
    case LastMember(key, last) => if NameAhead(key, ts) then BreakAt(last, ts.rest.rest, d) else Nowhere
    case MoreMembers(key, v, rest) =>
      if !NameAhead(key, ts) then Nowhere
      else
        var b := Behind(v, ts.rest.rest, d);
        if b.Some? && Next(b.value, Comma) then BreakInMembers(rest, b.value.rest, d) else Nowhere
    case Unfinished(key, v) =>
      if !NameAhead(key, ts) then Nowhere
      else
        var b := Behind(v, ts.rest.rest, d);
        if b.Some? && !Next(b.value, Comma) && !Next(b.value, CloseObject) then Place(Start(b.value), d) else Nowhere
  }

  // ---- every break is reported ----

  ghost predicate Reports<T>(r: Outcome<T>, p: Place) {
    p.Place? ==> r == Failed(p.at, p.depth)
  }

  lemma {:induction false} BreakIsReported(w: Broken, ts: Tokens, d: nat)
    requires d <= NESTING_LIMIT
    ensures Reports(ParseValue(ts, d), BreakAt(w, ts, d))
    decreases w
  {
    match w {
      case InArray(e) =>
        if Next(ts, OpenArray) && d < NESTING_LIMIT { ElementsBreak(e, ts.rest, d + 1); }
      case InObject(m) =>
        if Next(ts, OpenObject) && d < NESTING_LIMIT { MembersBreak(m, ts.rest, d + 1); }
      case _ =>
    }
  }

  lemma {:induction false} ElementsBreak(e: BrokenElements, ts: Tokens, d: nat)
    requires 0 < d <= NESTING_LIMIT
    ensures Reports(CloseArrayAt(ParseElements(ts, d), d), BreakInElements(e, ts, d))
    decreases e
  {
    hide ParseValue, Spell;
    match e {
      case LastElement(last) => BreakIsReported(last, ts, d);
      case MoreElements(v, next) =>
        if Behind(v, ts, d).Some? {
          ValueIsRead(v, ts, d);
          var b := Behind(v, ts, d).value;
          if Next(b, Comma) { ElementsBreak(next, b.rest, d); }
        }
      case Unclosed(v) => if Behind(v, ts, d).Some? { ValueIsRead(v, ts, d); }
    }
  }

  lemma {:induction false} MembersBreak(m: BrokenMembers, ts: Tokens, d: nat)
    requires 0 < d <= NESTING_LIMIT
    ensures Reports(CloseObjectAt(ParseMembers(ts, d), d), BreakInMembers(m, ts, d))
    decreases m
  {
    hide ParseValue, Spell;
    match m {
      case LastMember(key, last) => if NameAhead(key, ts) { BreakIsReported(last, ts.rest.rest, d); }
      case MoreMembers(key, v, rest) =>
        if NameAhead(key, ts) && Behind(v, ts.rest.rest, d).Some? {
          ValueIsRead(v, ts.rest.rest, d);
          var b := Behind(v, ts.rest.rest, d).value;
          if Next(b, Comma) { MembersBreak(rest, b.rest, d); }
        }
      case Unfinished(key, v) =>
        if NameAhead(key, ts) && Behind(v, ts.rest.rest, d).Some? { ValueIsRead(v, ts.rest.rest, d); }
      case _ =>
    }
  }

  // ---- nothing else is refused ----

  lemma {:induction false} FailureIsBreak(ts: Tokens, d: nat, r: Outcome<Json>) returns (w: Broken)
    requires d <= NESTING_LIMIT && r == ParseValue(ts, d) && r.Failed?
    ensures BreakAt(w, ts, d) == Place(r.at, r.depth)
    decreases ts, 0
  {
    if !Opens(ts) {
      w := NoValue;
    } else if d == NESTING_LIMIT {
      w := TooDeep;
    } else if ts.rest.End? {
      w := CutOff;
    } else if Next(ts, OpenArray) {
      var e := ElementsFail(ts.rest, d + 1, r);
      w := InArray(e);
    } else {
      var m := MembersFail(ts.rest, d + 1, r);
      w := InObject(m);
    }
  }

  lemma {:induction false} ElementsFail(ts: Tokens, d: nat, r: Outcome<Json>) returns (e: BrokenElements)
    requires 0 < d <= NESTING_LIMIT && r == CloseArrayAt(ParseElements(ts, d), d) && r.Failed?
    ensures BreakInElements(e, ts, d) == Place(r.at, r.depth)
    decreases ts, 1
  {
    hide ParseValue, Spell;
    var v := ParseValue(ts, d);
    if v.Failed? {
      var last := FailureIsBreak(ts, d, v);
      e := LastElement(last);
    } else {
      ReadValue(ts, d, v);
      if Next(v.rest, Comma) {
        var next := ElementsFail(v.rest.rest, d, r);
        e := MoreElements(v.value, next);
      } else {
        e := Unclosed(v.value);
      }
    }
  }

  lemma {:induction false} MembersFail(ts: Tokens, d: nat, r: Outcome<Json>) returns (m: BrokenMembers)
    requires 0 < d <= NESTING_LIMIT && r == CloseObjectAt(ParseMembers(ts, d), d) && r.Failed?
    ensures BreakInMembers(m, ts, d) == Place(r.at, r.depth)
    decreases ts, 1
  {
    hide ParseValue, Spell;
    if !ts.Ahead? || !ts.token.Leaf? || !ts.token.item.String? { return NoName; }
    var key := ts.token.item.text;
    if !Next(ts.rest, Colon) { return NoColon(key); }
    var v := ParseValue(ts.rest.rest, d);
    if v.Failed? {
      var last := FailureIsBreak(ts.rest.rest, d, v);
      m := LastMember(key, last);
    } else {
      ReadValue(ts.rest.rest, d, v);
      if Next(v.rest, Comma) {
        var rest := MembersFail(v.rest.rest, d, r);
        m := MoreMembers(key, v.value, rest);
      } else {
        m := Unfinished(key, v.value);
      }
    }
  }

  /** parse_value fails exactly where the text breaks off. */
  lemma {:induction false} FailureIsExact(ts: Tokens, d: nat, at: nat, depth: nat)
    requires d <= NESTING_LIMIT
    ensures ParseValue(ts, d) == Failed(at, depth) <==> exists w :: BreakAt(w, ts, d) == Place(at, depth)
  {
    hide ParseValue, BreakAt;
    if ParseValue(ts, d) == Failed(at, depth) { var w := FailureIsBreak(ts, d, ParseValue(ts, d)); }
    forall w | BreakAt(w, ts, d) == Place(at, depth) ensures ParseValue(ts, d) == Failed(at, depth) {
      BreakIsReported(w, ts, d);
    }
  }

  /** The buffer breaks off at `e`, or behind its last byte, which is then where the error is reported. */
  predicate IsError(w: Broken, c: seq<byte>, e: nat) {
    var p := BreakAt(w, TokensFrom(c, SkipBom(c)), 0);
    p.Place? && c != [] && e == if p.at < |c| then p.at else |c| - 1
  }

  /** cJSON_ParseWithLength refuses a buffer, and reports the error there, exactly when it breaks off there. */
  lemma ErrorIsExact(c: seq<byte>, e: nat)
    ensures ParseWithLengthOpts(c, false) == (None, e) <==> (c == [] && e == 0) || exists w :: IsError(w, c, e)
  {
    hide ParseValue, BreakAt, TokensFrom;
    var ts, r := TokensFrom(c, SkipBom(c)), ParseItem(c);
    if r.Failed? {
      var w := FailureIsBreak(ts, 0, r);
      assert c != [] ==> IsError(w, c, ErrorAt(c, r.at));
    }
    forall w | IsError(w, c, e) ensures ParseWithLengthOpts(c, false) == (None, e) { BreakIsReported(w, ts, 0); }
  }
}
