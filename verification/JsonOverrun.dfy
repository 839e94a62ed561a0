/**
 Reading past a buffer. parse_object starts to read a name without asking whether there is a byte left. It
 does so behind the end of the buffer for exactly those texts that are cut off behind a comma between members.
 */
module JsonOverrun {
  import opened Bytes
  import opened Json
  import opened JsonNumber
  import opened JsonString
  import opened JsonText
  import opened JsonLex
  import opened JsonParse
  import opened JsonGrammar
  import opened JsonParseExact
  import opened JsonParseSteps
  import R = JsonRoundTrip

  /** A text cut off where a name is due: the containers that are still open and what they hold so far. */
  datatype CutValue = InArray(elements: CutElements) | InObject(members: CutMembers)

  datatype CutElements = LastElement(last: CutValue) | MoreElements(value: Json, next: CutElements)

  datatype CutMembers =
    | NameDue
    | LastMember(key: Option<CString>, last: CutValue)
    | MoreMembers(key: Option<CString>, value: Json, rest: CutMembers)

  /** How deep the containers nest, closed and open ones. */
  function CutDepth(w: CutValue): nat {
    match w
    case InArray(e) => 1 + CutElementsDepth(e)
    case InObject(m) => 1 + CutMembersDepth(m)
  }

  function CutElementsDepth(e: CutElements): nat {
    match e
    case LastElement(last) => CutDepth(last)
    case MoreElements(v, next) => Max(Depth(v), CutElementsDepth(next))
  }

  function CutMembersDepth(m: CutMembers): nat {
    match m
    case NameDue => 0
    case LastMember(_, last) => CutDepth(last)
    case MoreMembers(_, v, rest) => Max(Depth(v), CutMembersDepth(rest))
  }

  /** The tokens spell the cut text and end with it. */
  predicate SpellCut(w: CutValue, ts: Tokens)
    decreases w
  {
    match w
    case InArray(e) => Next(ts, OpenArray) && SpellCutElements(e, ts.rest)
    case InObject(m) => Next(ts, OpenObject) && !m.NameDue? && SpellCutMembers(m, ts.rest)
  }

  predicate SpellCutElements(e: CutElements, ts: Tokens)
    decreases e
  {
    match e
    case LastElement(last) => SpellCut(last, ts)
    case MoreElements(v, next) =>
      var l := Spell(v, ts);
      l.Left? && Next(l.rest, Comma) && SpellCutElements(next, l.rest.rest)
  }

  predicate SpellCutMembers(m: CutMembers, ts: Tokens)
    decreases m
  {
    match m
    case NameDue => ts.End?
    case LastMember(key, last) => NameAhead(key, ts) && SpellCut(last, ts.rest.rest)
    case MoreMembers(key, v, rest) =>
      NameAhead(key, ts) &&
      var l := Spell(v, ts.rest.rest);
      l.Left? && Next(l.rest, Comma) && SpellCutMembers(rest, l.rest.rest)
  }

  predicate EndsInComma(c: seq<byte>) {
    c != [] && c[|c| - 1] == COMMA
  }

  /** Tokens of the buffer, each followed by those behind it; a comma in front of the end is its last byte. */
  ghost predicate Within(ts: Tokens, c: seq<byte>) {
    match ts
    case End(at) => at == |c|
    case Stop(at, badValue, badName) => at <= |c| && badValue <= |c| && badName <= |c|
    case Ahead(token, start, end, rest) =>
      && start < |c| && end <= |c| && rest == TokensFrom(c, end)
      && Within(rest, c) && (token == Comma && rest.End? ==> EndsInComma(c))
  }

  lemma {:induction false} TokensWithin(c: seq<byte>, o: nat)
    requires o <= |c|
    ensures Within(TokensFrom(c, o), c)
    decreases |c| - o
  {
    hide LeafAt, TokensAt;
    var p := SkipWhite(c, o);
    TokenAt(c, p);
    if p == |c| {
    } else if Punctuation(c[p]).Some? {
      TokensWithin(c, p + 1);
      TokenAt(c, SkipWhite(c, p + 1));
    } else {
      var r := LeafAt(c, p);
      if r.Read? { TokensWithin(c, r.end); }
    }
  }

  // ---- what a successful step leaves ----

  /** What was read ends in the buffer, and what is ahead then are the tokens behind it. */
  ghost predicate ReadsOn<T>(r: Outcome<T>, c: seq<byte>) {
    r.Parsed? ==> r.end <= |c| && r.rest == TokensFrom(c, r.end) && Within(r.rest, c)
  }

  lemma {:induction false} ValueWithin(c: seq<byte>, ts: Tokens, d: nat)
    requires Within(ts, c)
    ensures ReadsOn(ParseValue(ts, d), c)
    decreases ts, 0
  {
    hide TokensFrom;
    if Next(ts, OpenArray) && d < NESTING_LIMIT {
      ElementsWithin(c, ts.rest, d + 1);
    } else if Next(ts, OpenObject) && d < NESTING_LIMIT {
      MembersWithin(c, ts.rest, d + 1);
    }
  }

  lemma {:induction false} ElementsWithin(c: seq<byte>, ts: Tokens, d: nat)
    requires Within(ts, c)
    ensures ReadsOn(ParseElements(ts, d), c)
    decreases ts, 1
  {
    hide TokensFrom;
    ValueWithin(c, ts, d);
    var r := ParseValue(ts, d);
    if r.Parsed? && Next(r.rest, Comma) { ElementsWithin(c, r.rest.rest, d); }
  }

  lemma {:induction false} MembersWithin(c: seq<byte>, ts: Tokens, d: nat)
    requires Within(ts, c)
    ensures ReadsOn(ParseMembers(ts, d), c)
    decreases ts, 1
  {
    hide TokensFrom;
    if ts.Ahead? && ts.token.Leaf? && ts.token.item.String? && Next(ts.rest, Colon) {
      ValueWithin(c, ts.rest.rest, d);
      var r := ParseValue(ts.rest.rest, d);
      if r.Parsed? && Next(r.rest, Comma) { MembersWithin(c, r.rest.rest, d); }
    }
  }

  // ---- every cut text overruns ----

  ghost predicate FailsBehind<T>(r: Outcome<T>, c: seq<byte>) {
    r.Failed? && r.at == |c| + 1
  }

  lemma {:induction false} CutValueOverruns(w: CutValue, c: seq<byte>, ts: Tokens, d: nat)
    requires Within(ts, c) && SpellCut(w, ts) && d + CutDepth(w) <= NESTING_LIMIT
    ensures FailsBehind(ParseValue(ts, d), c) && EndsInComma(c)
    decreases w
  {
    match w {
      case InArray(e) =>
        if e.MoreElements? { FirstToken(e.value, ts.rest); } else { assert SpellCut(e.last, ts.rest); }
        CutElementsOverrun(e, c, ts.rest, d + 1);
      case InObject(m) => CutMembersOverrun(m, c, ts.rest, d + 1);
    }
  }

  lemma {:induction false} CutElementsOverrun(e: CutElements, c: seq<byte>, ts: Tokens, d: nat)
    requires Within(ts, c) && SpellCutElements(e, ts) && d + CutElementsDepth(e) <= NESTING_LIMIT
    ensures FailsBehind(ParseElements(ts, d), c) && EndsInComma(c)
    decreases e
  {
    match e {
      case LastElement(last) => CutValueOverruns(last, c, ts, d);
      case MoreElements(v, next) =>
        ValueIsRead(v, ts, d);
        ValueWithin(c, ts, d);
        CutElementsOverrun(next, c, Spell(v, ts).rest.rest, d);
    }
  }

  lemma {:induction false} CutMembersOverrun(m: CutMembers, c: seq<byte>, ts: Tokens, d: nat)
    requires Within(ts, c) && SpellCutMembers(m, ts) && d + CutMembersDepth(m) <= NESTING_LIMIT
    requires m.NameDue? ==> EndsInComma(c)
    ensures FailsBehind(ParseMembers(ts, d), c) && EndsInComma(c)
    decreases m
  {
    match m {
      case NameDue =>
      case LastMember(_, last) => CutValueOverruns(last, c, ts.rest.rest, d);
      case MoreMembers(_, v, rest) =>
        ValueIsRead(v, ts.rest.rest, d);
        ValueWithin(c, ts.rest.rest, d);
        CutMembersOverrun(rest, c, Spell(v, ts.rest.rest).rest.rest, d);
    }
  }

  // ---- nothing else does ----

  lemma {:induction false} ValueOverrunIsCut(c: seq<byte>, ts: Tokens, d: nat, r: Outcome<Json>) returns (w: CutValue)
    requires Within(ts, c) && d <= NESTING_LIMIT
    requires r == ParseValue(ts, d) && r.Failed? && r.at > |c|
    ensures SpellCut(w, ts) && d + CutDepth(w) <= NESTING_LIMIT
    decreases ts, 0
  {
    if Next(ts, OpenArray) {
      if ParseElements(ts.rest, d + 1).Parsed? { ElementsWithin(c, ts.rest, d + 1); }
      var e := ElementsOverrunIsCut(c, ts.rest, d + 1, ParseElements(ts.rest, d + 1));
      w := InArray(e);
    } else {
      if ParseMembers(ts.rest, d + 1).Parsed? { MembersWithin(c, ts.rest, d + 1); }
      var m := MembersOverrunIsCut(c, ts.rest, d + 1, ParseMembers(ts.rest, d + 1));
      w := InObject(m);
    }
  }

  lemma {:induction false} ElementsOverrunIsCut(c: seq<byte>, ts: Tokens, d: nat, r: Outcome<Elements>)
    returns (e: CutElements)
    requires Within(ts, c) && d <= NESTING_LIMIT
    requires r == ParseElements(ts, d) && r.Failed? && r.at > |c|
    ensures SpellCutElements(e, ts) && d + CutElementsDepth(e) <= NESTING_LIMIT
    decreases ts, 1
  {
    var v := ParseValue(ts, d);
    if v.Failed? {
      var last := ValueOverrunIsCut(c, ts, d, v);
      e := LastElement(last);
    } else {
      ReadValue(ts, d, v);
      ValueWithin(c, ts, d);
      var next := ElementsOverrunIsCut(c, v.rest.rest, d, ParseElements(v.rest.rest, d));
      e := MoreElements(v.value, next);
    }
  }

  lemma {:induction false} MembersOverrunIsCut(c: seq<byte>, ts: Tokens, d: nat, r: Outcome<Members>)
    returns (m: CutMembers)
    requires Within(ts, c) && d <= NESTING_LIMIT
    requires r == ParseMembers(ts, d) && r.Failed? && r.at > |c|
    ensures SpellCutMembers(m, ts) && d + CutMembersDepth(m) <= NESTING_LIMIT
    ensures m.NameDue? <==> ts.End?
    decreases ts, 1
  {
    if ts.End? { return NameDue; }
    var key, v := ts.token.item.text, ParseValue(ts.rest.rest, d);
    if v.Failed? {
      var last := ValueOverrunIsCut(c, ts.rest.rest, d, v);
      m := LastMember(key, last);
    } else {
      ReadValue(ts.rest.rest, d, v);
      ValueWithin(c, ts.rest.rest, d);
      var rest := MembersOverrunIsCut(c, v.rest.rest, d, ParseMembers(v.rest.rest, d));
      m := MoreMembers(key, v.value, rest);
    }
  }

  /** A buffer is read past exactly when it holds a text cut off where a name is due, within the nesting limit. */
  lemma {:induction false} OverrunIsCut(c: seq<byte>)
    ensures Overruns(c) <==>
      exists w :: SpellCut(w, TokensFrom(c, SkipBom(c))) && CutDepth(w) <= NESTING_LIMIT
  {
    var ts := TokensFrom(c, SkipBom(c));
    TokensWithin(c, SkipBom(c));
    if Overruns(c) { var w := ValueOverrunIsCut(c, ts, 0, ParseItem(c)); }
    forall w | SpellCut(w, ts) && CutDepth(w) <= NESTING_LIMIT ensures Overruns(c) { CutValueOverruns(w, c, ts, 0); }
  }

  /** So no buffer is that does not end in a comma, and in particular none that ends in a NUL. */
  lemma OverrunEndsInComma(c: seq<byte>)
    requires Overruns(c)
    ensures EndsInComma(c) && ParseItem(c).at == |c| + 1
  {
    var ts := TokensFrom(c, SkipBom(c));
    TokensWithin(c, SkipBom(c));
    var w := ValueOverrunIsCut(c, ts, 0, ParseItem(c));
    CutValueOverruns(w, c, ts, 0);
  }

  lemma {:induction false} CommaLast(c: seq<byte>)
    requires EndsInComma(c)
    ensures TokensFrom(c, |c| - 1) == Ahead(Comma, |c| - 1, |c|, End(|c|))
  {
    hide TokensAt;
    TokenAt(c, |c| - 1);
    TokenAt(c, |c|);
  }

  /** {"":0, */
  const CUT_OBJECT: seq<byte> := [OPEN_OBJECT, QUOTE, QUOTE, COLON, 48, COMMA]
  const NO_NAME: Scalar := String(Some([]))
  const ZERO: Scalar := Number([48])

  lemma {:induction false} CutObjectTokens(c: seq<byte>)
    requires c == CUT_OBJECT
    ensures TokensFrom(c, 0) ==
      Ahead(OpenObject, 0, 1, Ahead(Leaf(NO_NAME), 1, 3, Ahead(Colon, 3, 4, Ahead(Leaf(ZERO), 4, 5,
        Ahead(Comma, 5, 6, End(6))))))
  {
    hide LeafAt, TokensFrom;
    R.LexemeIsRead(OpenObject, c, 0);
    R.LexemeIsRead(Leaf(NO_NAME), c, 1);
    R.LexemeIsRead(Colon, c, 3);
    R.LexemeIsRead(Leaf(ZERO), c, 4);
    CommaLast(c);
  }

  /** One buffer that is read past: an object cut off behind its first member. */
  lemma CutObjectOverruns()
    ensures Overruns(CUT_OBJECT)
  {
    hide TokensFrom;
    var ts := TokensFrom(CUT_OBJECT, 0);
    CutObjectTokens(CUT_OBJECT);
    var m := MoreMembers(Some([]), ZERO, NameDue);
    assert SpellCutMembers(m, ts.rest);
    assert SpellCut(InObject(m), ts) && CutMembersDepth(m) == 0;
    if At(CUT_OBJECT, 0, BOM) { StartsWith(CUT_OBJECT, 0, BOM); }
    OverrunIsCut(CUT_OBJECT);
  }
}
