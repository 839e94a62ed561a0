/** The parser reads exactly the token lists of the grammar whose containers nest at most NESTING_LIMIT deep. */
module JsonParseExact {
  import opened Json
  import opened JsonText
  import opened JsonLex
  import opened JsonParse
  import opened JsonGrammar

  /** `r` is the item, or a failure where it nests deeper than the limit allows. */
  ghost predicate Reads<T>(r: Outcome<T>, v: T, left: Left, d: nat, depth: nat)
    requires left.Left?
  {
    if d + depth <= NESTING_LIMIT then r == Parsed(v, left.end, left.rest) else r.Failed?
  }

  // ---- every spelling is read ----

  lemma {:induction false} ValueIsRead(t: Json, ts: Tokens, d: nat)
    requires d <= NESTING_LIMIT && Spell(t, ts).Left?
    ensures Reads(ParseValue(ts, d), t, Spell(t, ts), d, Depth(t))
    decreases t, 1
  {
    match t {
      case Array(child) =>
        if child.Element? && d < NESTING_LIMIT { ElementsAreRead(child, ts.rest, d + 1); }
        if child.Element? { FirstToken(child.value, ts.rest); }
      case Object(members) =>
        if members.Member? && d < NESTING_LIMIT { MembersAreRead(members, ts.rest, d + 1); }
      case _ =>
    }
  }

  /** A value starts with no closing bracket. */
  lemma {:induction false} FirstToken(t: Json, ts: Tokens)
    requires Spell(t, ts).Left?
    ensures ts.Ahead? && ts.token !in {CloseArray, CloseObject, Comma, Colon}
  {
  }

  lemma {:induction false} ElementsAreRead(e: Elements, ts: Tokens, d: nat)
    requires d <= NESTING_LIMIT && e.Element? && SpellElements(e, ts).Left?
    requires !Next(SpellElements(e, ts).rest, Comma)
    ensures Reads(ParseElements(ts, d), e, SpellElements(e, ts), d, ElementsDepth(e))
    decreases e, 0
  {
    hide ParseValue, Spell;
    ValueIsRead(e.value, ts, d);
    if e.next.NoElement? {
    } else {
      ElementsAreRead(e.next, Spell(e.value, ts).rest.rest, d);
    }
  }

  lemma {:induction false} MembersAreRead(m: Members, ts: Tokens, d: nat)
    requires d <= NESTING_LIMIT && m.Member? && SpellMembers(m, ts).Left?
    requires !Next(SpellMembers(m, ts).rest, Comma)
    ensures Reads(ParseMembers(ts, d), m, SpellMembers(m, ts), d, MembersDepth(m))
    decreases m, 0
  {
    hide ParseValue, Spell;
    ValueIsRead(m.val, ts.rest.rest, d);
    if m.rest.NoMember? {
    } else {
      MembersAreRead(m.rest, Spell(m.val, ts.rest.rest).rest.rest, d);
    }
  }

  // ---- nothing else is read ----

  lemma {:induction false} ReadValue(ts: Tokens, d: nat, r: Outcome<Json>)
    requires d <= NESTING_LIMIT && r == ParseValue(ts, d) && r.Parsed?
    ensures Spell(r.value, ts) == Left(r.end, r.rest) && d + Depth(r.value) <= NESTING_LIMIT
    decreases ts, 0
  {
    if Next(ts, OpenArray) && !Next(ts.rest, CloseArray) {
      ReadElements(ts.rest, d + 1, ParseElements(ts.rest, d + 1));
    } else if Next(ts, OpenObject) && !Next(ts.rest, CloseObject) {
      ReadMembers(ts.rest, d + 1, ParseMembers(ts.rest, d + 1));
    }
  }

  lemma {:induction false} ReadElements(ts: Tokens, d: nat, r: Outcome<Elements>)
    requires d <= NESTING_LIMIT && r == ParseElements(ts, d) && r.Parsed?
    ensures r.value.Element? && SpellElements(r.value, ts) == Left(r.end, r.rest)
    ensures d + ElementsDepth(r.value) <= NESTING_LIMIT
    decreases ts, 1
  {
    var v := ParseValue(ts, d);
    ReadValue(ts, d, v);
    if Next(v.rest, Comma) { ReadElements(v.rest.rest, d, ParseElements(v.rest.rest, d)); }
  }

  lemma {:induction false} ReadMembers(ts: Tokens, d: nat, r: Outcome<Members>)
    requires d <= NESTING_LIMIT && r == ParseMembers(ts, d) && r.Parsed?
    ensures r.value.Member? && SpellMembers(r.value, ts) == Left(r.end, r.rest)
    ensures d + MembersDepth(r.value) <= NESTING_LIMIT
    decreases ts, 1
  {
    var v := ParseValue(ts.rest.rest, d);
    ReadValue(ts.rest.rest, d, v);
    if Next(v.rest, Comma) { ReadMembers(v.rest.rest, d, ParseMembers(v.rest.rest, d)); }
  }

  /**
   parse_value reads `t` exactly when the tokens ahead spell `t` and the containers around and inside it
   are at most NESTING_LIMIT deep.
   */
  lemma {:induction false} ParserIsExact(ts: Tokens, d: nat, t: Json, end: nat, rest: Tokens)
    requires d <= NESTING_LIMIT
    ensures ParseValue(ts, d) == Parsed(t, end, rest) <==>
      Spell(t, ts) == Left(end, rest) && d + Depth(t) <= NESTING_LIMIT
  {
    if Spell(t, ts).Left? { ValueIsRead(t, ts, d); }
    if ParseValue(ts, d).Parsed? { ReadValue(ts, d, ParseValue(ts, d)); }
  }
}
