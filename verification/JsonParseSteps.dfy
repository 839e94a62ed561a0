/** What the parser does at an offset of the buffer, one step of the descent at a time. */
module JsonParseSteps {
  import opened Bytes
  import opened Json
  import opened JsonNumber
  import opened JsonString
  import opened JsonText
  import opened JsonLex
  import opened JsonParse

  lemma {:induction false} TokenAt(c: seq<byte>, p: nat)
    requires p <= |c|
    ensures Start(TokensAt(c, p)) == p
    ensures p == |c| ==> TokensAt(c, p) == End(p)
    ensures p < |c| && Punctuation(c[p]).Some? ==>
      TokensAt(c, p) == Ahead(Punctuation(c[p]).value, p, p + 1, TokensFrom(c, p + 1))
    ensures p < |c| && Punctuation(c[p]).None? ==> TokensAt(c, p) == LeafTokens(c, p)
    ensures p < |c| && Punctuation(c[p]).None? ==> TokensAt(c, p).Stop? || TokensAt(c, p).token.Leaf?
  {
  }

  lemma {:induction false} LeafValue(c: seq<byte>, p: nat, d: nat)
    requires p < |c| && Punctuation(c[p]).None?
    ensures var r := LeafAt(c, p);
      ParseValue(TokensAt(c, p), d) == if r.Read? then Parsed(r.value, r.end, TokensFrom(c, r.end)) else Failed(r.at, d)
  {
    hide LeafAt;
    TokenAt(c, p);
  }

  /** No value starts at the end of the buffer or at a comma, a colon or a closing bracket. */
  lemma {:induction false} NoValue(c: seq<byte>, p: nat, d: nat)
    requires p <= |c| && (p < |c| ==> c[p] in {COMMA, COLON, CLOSE_ARRAY, CLOSE_OBJECT})
    ensures ParseValue(TokensAt(c, p), d) == Failed(p, d)
  {
    TokenAt(c, p);
  }

  /** A member's name, or where a failed attempt to read one leaves the offset. */
  lemma {:induction false} NameAt(c: seq<byte>, p: nat, d: nat)
    requires p <= |c|
    ensures p == |c| ==> ParseMembers(TokensAt(c, p), d) == Failed(p + 1, d)
    ensures p < |c| ==>
      var r := JsonString.ParseString(c, p);
      if r.StringParsed?
      then TokensAt(c, p) == Ahead(Leaf(String(Some(r.text))), p, r.next, TokensFrom(c, r.next))
      else ParseMembers(TokensAt(c, p), d) == Failed(r.at, d)
  {
    hide NumberAt;
    TokenAt(c, p);
    if p < |c| && c[p] == QUOTE {
      if At(c, p, NULL_TEXT) { StartsWith(c, p, NULL_TEXT); }
      if At(c, p, FALSE_TEXT) { StartsWith(c, p, FALSE_TEXT); }
      if At(c, p, TRUE_TEXT) { StartsWith(c, p, TRUE_TEXT); }
      assert LeafAt(c, p) == StringAt(c, p);
    }
  }

  lemma SkipAgain(c: seq<byte>, o: nat)
    requires o <= |c|
    ensures SkipWhite(c, SkipWhite(c, o)) == SkipWhite(c, o)
  {
  }

  lemma {:induction false} TooDeep(c: seq<byte>, p: nat, d: nat)
    requires p < |c| && c[p] in {OPEN_ARRAY, OPEN_OBJECT} && d >= NESTING_LIMIT
    ensures ParseValue(TokensAt(c, p), d) == Failed(p, d)
  {
    TokenAt(c, p);
  }

  /** An array behind its bracket: cut off, empty, or the loop and the closing bracket. */
  lemma {:induction false} ArrayAt(c: seq<byte>, p: nat, d: nat)
    requires Holds(c, p, OPEN_ARRAY) && d < NESTING_LIMIT
    ensures var q := SkipWhite(c, p + 1);
      ParseValue(TokensAt(c, p), d) ==
        if q == |c| then Failed(p, d + 1)
        else if c[q] == CLOSE_ARRAY then Parsed(Array(NoElement), q + 1, TokensFrom(c, q + 1))
        else CloseArrayAt(ParseElements(TokensAt(c, q), d + 1), d + 1)
  {
    hide ParseElements, LeafAt;
    TokenAt(c, p);
    TokenAt(c, SkipWhite(c, p + 1));
  }

  lemma {:induction false} CloseArrayIs(c: seq<byte>, q: nat, child: Elements, end: nat, d: nat)
    requires q <= |c|
    ensures CloseArrayAt(Parsed(child, end, TokensAt(c, q)), d) ==
      if Holds(c, q, CLOSE_ARRAY) then Parsed(Array(child), q + 1, TokensFrom(c, q + 1)) else Failed(q, d)
  {
    hide LeafAt;
    TokenAt(c, q);
  }

  /** One turn of the loop of parse_array. */
  lemma {:induction false} ElementAt(c: seq<byte>, p: nat, d: nat, r: Outcome<Json>)
    requires p <= |c| && r == ParseValue(TokensAt(c, p), d)
    requires r.Parsed? ==> r.end <= |c| && r.rest == TokensFrom(c, r.end)
    ensures r.Failed? ==> ParseElements(TokensAt(c, p), d) == Failed(r.at, r.depth)
    ensures r.Parsed? ==>
      var q := SkipWhite(c, r.end);
      ParseElements(TokensAt(c, p), d) ==
        if Holds(c, q, COMMA) then AddElement(r.value, ParseElements(TokensFrom(c, q + 1), d))
        else Parsed(Element(r.value, NoElement), r.end, TokensAt(c, q))
  {
    hide LeafAt, ParseValue;
    if r.Parsed? { TokenAt(c, SkipWhite(c, r.end)); }
  }

  lemma {:induction false} ObjectAt(c: seq<byte>, p: nat, d: nat)
    requires Holds(c, p, OPEN_OBJECT) && d < NESTING_LIMIT
    ensures var q := SkipWhite(c, p + 1);
      ParseValue(TokensAt(c, p), d) ==
        if q == |c| then Failed(p, d + 1)
        else if c[q] == CLOSE_OBJECT then Parsed(Object(NoMember), q + 1, TokensFrom(c, q + 1))
        else CloseObjectAt(ParseMembers(TokensAt(c, q), d + 1), d + 1)
  {
    hide ParseMembers, LeafAt;
    TokenAt(c, p);
    TokenAt(c, SkipWhite(c, p + 1));
  }

  lemma {:induction false} CloseObjectIs(c: seq<byte>, q: nat, members: Members, end: nat, d: nat)
    requires q <= |c|
    ensures CloseObjectAt(Parsed(members, end, TokensAt(c, q)), d) ==
      if Holds(c, q, CLOSE_OBJECT) then Parsed(Object(members), q + 1, TokensFrom(c, q + 1)) else Failed(q, d)
  {
    hide LeafAt;
    TokenAt(c, q);
  }

  /** A turn of the loop of parse_object up to the colon: `text` is the name, which ends at `next`. */
  lemma {:induction false} ColonAt(c: seq<byte>, p: nat, d: nat, text: CString, next: nat)
    requires p < |c| && JsonString.ParseString(c, p) == StringParsed(text, next) && next <= |c|
    ensures var q := SkipWhite(c, next);
      ParseMembers(TokensAt(c, p), d) ==
        if Holds(c, q, COLON) then MemberAt(Some(text), TokensFrom(c, q + 1), d) else Failed(q, d)
  {
    hide LeafAt, JsonString.ParseString, MemberAt;
    NameAt(c, p, d);
    TokenAt(c, SkipWhite(c, next));
  }

  /** The rest of the turn. */
  lemma {:induction false} MemberValue(c: seq<byte>, key: CString, p: nat, d: nat, r: Outcome<Json>)
    requires p <= |c| && r == ParseValue(TokensAt(c, p), d)
    requires r.Parsed? ==> r.end <= |c| && r.rest == TokensFrom(c, r.end)
    ensures r.Failed? ==> MemberAt(Some(key), TokensAt(c, p), d) == Failed(r.at, r.depth)
    ensures r.Parsed? ==>
      var q := SkipWhite(c, r.end);
      MemberAt(Some(key), TokensAt(c, p), d) ==
        if Holds(c, q, COMMA) then AddMember(Some(key), r.value, ParseMembers(TokensFrom(c, q + 1), d))
        else Parsed(Member(Some(key), r.value, NoMember), r.end, TokensAt(c, q))
  {
    hide LeafAt, ParseValue, ParseMembers;
    if r.Parsed? { TokenAt(c, SkipWhite(c, r.end)); }
  }
}
