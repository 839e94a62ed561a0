/** Parsing what the printer wrote gives the tree back, and fails exactly when it nests too deep. */
module JsonRoundTrip {
  import opened Bytes
  import opened Json
  import opened JsonNumber
  import opened JsonString
  import opened JsonText
  import opened JsonLex
  import opened JsonParse
  import opened JsonGrammar
  import opened JsonParseExact
  import L = JsonLiteral

  // ---- strings ----

  lemma UnicodeEscapeBytes(b: byte)
    requires b < 32
    ensures |UnicodeEscape(b)| == 5 && UnicodeEscape(b)[0] == LETTER_U
    ensures BACKSLASH !in UnicodeEscape(b)[1..] && QUOTE !in UnicodeEscape(b)[1..]
  {
  }

  lemma ScanPassesEscaped(c: seq<byte>, p: nat, b: byte)
    requires At(c, p, EscapeByte(b))
    ensures ScanQuote(c, p) == ScanQuote(c, p + |EscapeByte(b)|)
  {
    hide UnicodeEscape;
    var w := EscapeByte(b);
    AtIndex(c, p, w);
    assert c[p + 0] == w[0];
    if EscapeLetter(b).Some? {
    } else if b < 32 {
      UnicodeEscapeBytes(b);
      var digits := UnicodeEscape(b)[1..];
      assert w == [BACKSLASH, LETTER_U] + digits;
      AtConcat(c, p, [BACKSLASH, LETTER_U], digits);
      L.ScanSkips(c, p + 2, digits);
    }
  }

  lemma DecodeUndoesEscapeByte(c: seq<byte>, p: nat, b: byte, e: nat)
    requires b != 0
    requires At(c, p, EscapeByte(b)) && p + |EscapeByte(b)| <= e < |c|
    ensures Decode(c, p, e) == Prepend([b], Decode(c, p + |EscapeByte(b)|, e))
  {
    var w := EscapeByte(b);
    AtIndex(c, p, w);
    assert c[p + 0] == w[0];
    if EscapeLetter(b).Some? {
      assert c[p + 1] == w[1];
      assert ShortEscape(w[1]) == Some(b);
    } else if b < 32 {
      assert c[p + 1] == LETTER_U;
      var h := w[2..];
      assert w == w[..2] + h;
      AtConcat(c, p, w[..2], h);
      assert c[p + 2..p + 6] == h;
      assert Hex4(h) == b;
      assert Utf16Literal(c, p, e) == Literal(6, [b]);
    }
  }

  /** The scan and the decoding loop pass the escape of the first byte, which ends `n` bytes further on. */
  lemma EscapeStep(c: seq<byte>, p: nat, s: CString, e: nat) returns (n: nat)
    requires s != [] && At(c, p, Escape(s)) && p + |Escape(s)| == e < |c|
    ensures At(c, p + n, Escape(s[1..])) && p + n + |Escape(s[1..])| == e
    ensures ScanQuote(c, p) == ScanQuote(c, p + n)
    ensures Decode(c, p, e) == Prepend([s[0]], Decode(c, p + n, e))
  {
    hide Utf16Literal, EscapeByte;
    n := |EscapeByte(s[0])|;
    AtConcat(c, p, EscapeByte(s[0]), Escape(s[1..]));
    DecodeUndoesEscapeByte(c, p, s[0], e);
    ScanPassesEscaped(c, p, s[0]);
  }

  lemma {:induction false} DecodeUndoesEscape(c: seq<byte>, p: nat, s: CString, e: nat, d: Decoded)
    requires At(c, p, Escape(s)) && p + |Escape(s)| == e < |c| && d == Decode(c, p, e)
    ensures d == Decoded(s)
    decreases |s|
  {
    hide Utf16Literal;
    if s == [] {
    } else {
      var n := EscapeStep(c, p, s, e);
      DecodeUndoesEscape(c, p + n, s[1..], e, Decode(c, p + n, e));
      assert [s[0]] + s[1..] == s;
    }
  }

  lemma {:induction false} ScanFindsEscapedQuote(c: seq<byte>, p: nat, s: CString, e: nat, r: Option<nat>)
    requires At(c, p, Escape(s)) && p + |Escape(s)| == e < |c| && c[e] == QUOTE && r == ScanQuote(c, p)
    ensures r == Some(e)
    decreases |s|
  {
    hide EscapeByte;
    if s == [] {
    } else {
      var n := EscapeStep(c, p, s, e);
      ScanFindsEscapedQuote(c, p + n, s[1..], e, ScanQuote(c, p + n));
    }
  }

  /** The string layer: parse_string undoes print_string_ptr. */
  lemma StringRoundTrip(c: seq<byte>, o: nat, s: CString)
    requires At(c, o, StringText(Some(s)))
    ensures o < |c| && c[o] == QUOTE
    ensures ParseString(c, o) == StringParsed(s, o + |StringText(Some(s))|)
  {
    hide Utf16Literal, EscapeByte;
    AtConcat(c, o, [QUOTE] + Escape(s), [QUOTE]);
    AtConcat(c, o, [QUOTE], Escape(s));
    var e := o + 1 + |Escape(s)|;
    AtIndex(c, o, [QUOTE]);
    AtIndex(c, e, [QUOTE]);
    assert c[o + 0] == QUOTE && c[e + 0] == QUOTE;
    ScanFindsEscapedQuote(c, o + 1, s, e, ScanQuote(c, o + 1));
    DecodeUndoesEscape(c, o + 1, s, e, Decode(c, o + 1, e));
  }

  // ---- white space and numbers ----

  lemma {:induction false} SkipsWhite(c: seq<byte>, o: nat, w: seq<byte>)
    requires At(c, o, w) && o + |w| < |c| && c[o + |w|] > 32
    requires forall i :: 0 <= i < |w| ==> w[i] <= 32
    ensures SkipWhite(c, o) == o + |w|
    decreases |w|
  {
    if w == [] {
    } else {
      AtIndex(c, o, w);
      assert c[o + 0] == w[0];
      assert w == [w[0]] + w[1..];
      AtConcat(c, o, [w[0]], w[1..]);
      SkipsWhite(c, o + 1, w[1..]);
    }
  }

  lemma NumberRoundTrip(c: seq<byte>, o: nat, t: seq<byte>)
    requires IsToken(t) && At(c, o, t) && o + |t| < |c| && !NumberByte(c[o + |t|])
    ensures NumberAt(c, o) == Read(Number(t), o + |t|)
  {
    TokenBytes(t);
    AtIndex(c, o, t);
    forall k | o <= k < o + |t| ensures NumberByte(c[k]) {
      assert c[o + (k - o)] == t[k - o];
    }
    SpanEndIs(c, o, o, o + |t|);
    assert c[o..o + |t|] == t && t[..|t|] == t;
  }

  // ---- tokens ----

  /** Only the three words start with their first letters. */
  lemma NoWord(c: seq<byte>, o: nat)
    requires o < |c| && c[o] !in {110, 102, 116}
    ensures LeafAt(c, o) ==
      if c[o] == QUOTE then StringAt(c, o)
      else if c[o] == MINUS || Digit(c[o]) then NumberAt(c, o)
      else NoLeaf(o)
  {
    if At(c, o, NULL_TEXT) { StartsWith(c, o, NULL_TEXT); }
    if At(c, o, FALSE_TEXT) { StartsWith(c, o, FALSE_TEXT); }
    if At(c, o, TRUE_TEXT) { StartsWith(c, o, TRUE_TEXT); }
  }

  lemma WordIsRead(t: Scalar, c: seq<byte>, o: nat)
    requires (t.Null? || t.False? || t.True?) && At(c, o, LeafText(t)) && o < |c|
    ensures LeafAt(c, o) == Read(t, o + |LeafText(t)|)
  {
    StartsWith(c, o, LeafText(t));
    if At(c, o, NULL_TEXT) { StartsWith(c, o, NULL_TEXT); }
    if At(c, o, FALSE_TEXT) { StartsWith(c, o, FALSE_TEXT); }
  }

  /** A leaf's text is read as that leaf wherever it stands, unless a number goes on behind it. */
  lemma {:induction false} LeafIsRead(t: Scalar, c: seq<byte>, o: nat)
    requires Canonical(t) && At(c, o, LeafText(t))
    requires o + |LeafText(t)| < |c| && !NumberByte(c[o + |LeafText(t)|])
    ensures LeafAt(c, o) == Read(t, o + |LeafText(t)|)
  {
    match t {
      case Number(token) =>
        StartsWith(c, o, token);
        NoWord(c, o);
        NumberRoundTrip(c, o, token);
      case String(text) =>
        StringRoundTrip(c, o, text.value);
        NoWord(c, o);
      case _ => WordIsRead(t, c, o);
    }
  }

  /** A leaf starts with no white space and no punctuation. */
  lemma {:induction false} LeafStart(t: Scalar)
    requires Canonical(t)
    ensures LeafText(t) != [] && LeafText(t)[0] > 32 && Punctuation(LeafText(t)[0]).None? && LeafText(t)[0] != 0xEF
  {
  }

  /** What follows ends a number: the end of the text, white space or punctuation. */
  predicate EndsNumber(k: Chunks) {
    match k
    case Nil => true
    case White(w, next) => w != [] || EndsNumber(next)
    case Lexeme(token, _) => !token.Leaf?
  }

  /** The leaves are canonical and kept apart, and white space is white. */
  predicate Readable(k: Chunks) {
    match k
    case Nil => true
    case White(w, next) => AllWhite(w) && Readable(next)
    case Lexeme(token, next) => ReadableToken(token, next) && Readable(next)
  }

  predicate AllWhite(w: seq<byte>) {
    forall i :: 0 <= i < |w| ==> w[i] <= 32
  }

  /** One chunk can be read in front of `next`. */
  predicate ReadableToken(token: Token, next: Chunks) {
    token.Leaf? ==> Canonical(token.item) && EndsNumber(next)
  }

  /**
   Where the readable chunks end that stand in the buffer from `o` on, no number going on behind them; -1 if they
   do not.
   */
  function Stand(k: Chunks, c: seq<byte>, o: nat): (end: int)
    ensures end == -1 || o <= end < |c|
  {
    match k
    case Nil => if o < |c| && !NumberByte(c[o]) then o else -1
    case White(w, next) => if AllWhite(w) && At(c, o, w) then Stand(next, c, o + |w|) else -1
    case Lexeme(token, next) =>
      if ReadableToken(token, next) && At(c, o, TokenText(token)) then Stand(next, c, o + |TokenText(token)|) else -1
  }

  lemma {:induction false} FlattenStands(k: Chunks, c: seq<byte>, o: nat, end: nat)
    requires Readable(k)
    requires At(c, o, Flatten(k)) && end == o + |Flatten(k)| && end < |c| && !NumberByte(c[end])
    ensures Stand(k, c, o) == end
    decreases k
  {
    hide TokenText;
    match k {
      case Nil =>
      case White(w, next) => AtConcat(c, o, w, Flatten(next)); FlattenStands(next, c, o + |w|, end);
      case Lexeme(token, next) =>
        AtConcat(c, o, TokenText(token), Flatten(next));
        FlattenStands(next, c, o + |TokenText(token)|, end);
    }
  }

  lemma {:induction false} BehindNumber(k: Chunks, c: seq<byte>, o: nat)
    requires Stand(k, c, o) != -1
    ensures o < |c| && (EndsNumber(k) ==> !NumberByte(c[o]))
    decreases k
  {
    hide LeafText, Canonical;
    match k {
      case Nil =>
      case White(w, next) =>
        if w == [] { BehindNumber(next, c, o); } else { StartsWith(c, o, w); }
      case Lexeme(token, _) =>
        if token.Leaf? { LeafStart(token.item); }
        StartsWith(c, o, TokenText(token));
    }
  }

  /** The tokens of the chunks when they start at `o`, in front of the tokens `tail`. */
  function Tokenize(k: Chunks, o: nat, tail: Tokens): Tokens {
    match k
    case Nil => tail
    case White(w, next) => Tokenize(next, o + |w|, tail)
    case Lexeme(token, next) =>
      var end := o + |TokenText(token)|;
      Ahead(token, o, end, Tokenize(next, end, tail))
  }

  /** A token and the white space behind it. */
  lemma {:induction false} TokenizePadded(token: Token, w: seq<byte>, k: Chunks, o: nat, tail: Tokens)
    ensures var end := o + |TokenText(token)|;
      Tokenize(Lexeme(token, White(w, k)), o, tail) == Ahead(token, o, end, Tokenize(k, end + |w|, tail))
    ensures Length(Lexeme(token, White(w, k))) == |TokenText(token)| + |w| + Length(k)
  {
    assert Length(White(w, k)) == |w| + Length(k);
    assert Tokenize(White(w, k), o + |TokenText(token)|, tail) == Tokenize(k, o + |TokenText(token)| + |w|, tail);
  }

  lemma LexemeIsRead(token: Token, c: seq<byte>, o: nat)
    requires At(c, o, TokenText(token)) && o + |TokenText(token)| < |c|
    requires token.Leaf? ==> Canonical(token.item) && !NumberByte(c[o + |TokenText(token)|])
    ensures var end := o + |TokenText(token)|;
      o < end && TokensFrom(c, o) == Ahead(token, o, end, TokensFrom(c, end))
  {
    hide LeafText, LeafAt, Canonical;
    if token.Leaf? { LeafStart(token.item); }
    StartsWith(c, o, TokenText(token));
    assert TokensFrom(c, o) == TokensAt(c, o);
    if token.Leaf? {
      LeafIsRead(token.item, c, o);
      assert TokensAt(c, o) == LeafTokens(c, o);
    }
  }

  lemma LexemeIsTokenized(token: Token, next: Chunks, c: seq<byte>, o: nat)
    requires Stand(Lexeme(token, next), c, o) != -1
    ensures var end := o + |TokenText(token)|;
      && o < end < |c| && TokensFrom(c, o) == Ahead(token, o, end, TokensFrom(c, end))
      && Stand(next, c, end) == Stand(Lexeme(token, next), c, o)
  {
    hide TokenText;
    BehindNumber(next, c, o + |TokenText(token)|);
    LexemeIsRead(token, c, o);
  }

  /** Reading the chunks of a text gives their tokens. */
  lemma {:induction false} ChunksAreRead(k: Chunks, c: seq<byte>, o: nat, ts: Tokens, end: nat, tail: Tokens)
    requires o < |c| && ts == TokensFrom(c, o)
    requires Stand(k, c, o) == end && tail == TokensFrom(c, end)
    ensures ts == Tokenize(k, o, tail)
    decreases k
  {
    hide TokensFrom;
    hide TokenText;
    match k {
      case Nil =>
      case White(w, next) =>
        WhiteStands(w, next, c, o);
        ChunksAreRead(next, c, o + |w|, ts, end, tail);
      case Lexeme(token, next) =>
        LexemeIsTokenized(token, next, c, o);
        ChunksAreRead(next, c, o + |TokenText(token)|, ts.rest, end, tail);
    }
  }

  lemma WhiteStands(w: seq<byte>, next: Chunks, c: seq<byte>, o: nat)
    requires Stand(White(w, next), c, o) != -1
    ensures o + |w| < |c| && Stand(next, c, o + |w|) == Stand(White(w, next), c, o)
    ensures TokensFrom(c, o) == TokensFrom(c, o + |w|)
  {
    WhiteIsSkipped(c, o, w);
  }

  lemma {:induction false} WhiteIsSkipped(c: seq<byte>, o: nat, w: seq<byte>)
    requires At(c, o, w) && o + |w| < |c| && AllWhite(w)
    ensures TokensFrom(c, o) == TokensFrom(c, o + |w|)
    decreases |w|
  {
    if w == [] {
    } else {
      StartsWith(c, o, w);
      assert w == [w[0]] + w[1..];
      AtConcat(c, o, [w[0]], w[1..]);
      WhiteIsSkipped(c, o + 1, w[1..]);
    }
  }

  // ---- trees ----

  /** What the printer writes can be read chunk by chunk. */
  lemma {:induction false} PrintIsReadable(t: Json, format: bool, ind: nat, k: Chunks)
    requires Canonical(t) && Readable(k) && EndsNumber(k)
    ensures Readable(Print(t, format, ind, k))
    decreases t, 1
  {
    match t {
      case Array(child) => ElementsAreReadable(child, format, ind + 1, Lexeme(CloseArray, k));
      case Object(members) =>
        var close := White(Pad(format, Tabs(ind)), Lexeme(CloseObject, k));
        MembersAreReadable(members, format, ind + 1, close);
      case _ =>
    }
  }

  lemma {:induction false} ElementsAreReadable(e: Elements, format: bool, ind: nat, k: Chunks)
    requires CanonicalElements(e) && Readable(k) && EndsNumber(k)
    ensures Readable(PrintElements(e, format, ind, k))
    decreases e, 0
  {
    if e.NoElement? {
    } else {
      ElementsAreReadable(e.next, format, ind, k);
      PrintIsReadable(e.value, format, ind, PrintMore(e.next, format, ind, k));
    }
  }

  lemma {:induction false} MembersAreReadable(m: Members, format: bool, ind: nat, k: Chunks)
    requires CanonicalMembers(m) && Readable(k) && EndsNumber(k)
    ensures Readable(PrintMembers(m, format, ind, k))
    decreases m, 0
  {
    if m.NoMember? {
    } else {
      MembersAreReadable(m.rest, format, ind, k);
      var value := Print(m.val, format, ind, EndLine(m.rest, format, ind, k));
      PrintIsReadable(m.val, format, ind, EndLine(m.rest, format, ind, k));
      assert Readable(White(Pad(format, [TAB]), value));
      assert Readable(Lexeme(Colon, White(Pad(format, [TAB]), value)));
    }
  }

  /** The printed tokens spell the tree, end at `end`, and leave those behind them. */
  lemma {:induction false} PrintSpells(t: Json, format: bool, ind: nat, k: Chunks, o: nat, tail: Tokens)
    returns (end: nat)
    ensures Spell(t, Tokenize(Print(t, format, ind, k), o, tail)) == Left(end, Tokenize(k, end, tail))
    ensures o + Length(Print(t, format, ind, k)) == end + Length(k)
    decreases t, 1
  {
    match t {
      case Array(child) => end := ArraySpells(child, format, ind, k, o, tail);
      case Object(members) => end := ObjectSpells(members, format, ind, k, o, tail);
      case _ => end := o + |LeafText(t)|;
    }
  }

  lemma {:induction false} ArraySpells(e: Elements, format: bool, ind: nat, k: Chunks, o: nat, tail: Tokens)
    returns (end: nat)
    ensures Spell(Array(e), Tokenize(Print(Array(e), format, ind, k), o, tail)) == Left(end, Tokenize(k, end, tail))
    ensures o + Length(Print(Array(e), format, ind, k)) == end + Length(k)
    decreases e, 1
  {
    hide LeafText, Print;
    var close := Lexeme(CloseArray, k);
    var last := o + 1;
    BracketIsSpelled(e, format, ind, k, o, tail);
    if e.Element? { last := ElementsSpell(e, format, ind + 1, close, o + 1, tail); }
    end := last + 1;
    assert Tokenize(close, last, tail) == Ahead(CloseArray, last, end, Tokenize(k, end, tail));
  }

  /** The opening bracket and what stands behind it. */
  lemma {:induction false} BracketIsSpelled(e: Elements, format: bool, ind: nat, k: Chunks, o: nat, tail: Tokens)
    ensures var elements := PrintElements(e, format, ind + 1, Lexeme(CloseArray, k));
      && Tokenize(Print(Array(e), format, ind, k), o, tail) == Ahead(OpenArray, o, o + 1, Tokenize(elements, o + 1, tail))
      && Length(Print(Array(e), format, ind, k)) == 1 + Length(elements)
  {
    assert Print(Array(e), format, ind, k) == Lexeme(OpenArray, PrintElements(e, format, ind + 1, Lexeme(CloseArray, k)));
  }

  lemma {:induction false} ObjectSpells(m: Members, format: bool, ind: nat, k: Chunks, o: nat, tail: Tokens)
    returns (end: nat)
    ensures Spell(Object(m), Tokenize(Print(Object(m), format, ind, k), o, tail)) == Left(end, Tokenize(k, end, tail))
    ensures o + Length(Print(Object(m), format, ind, k)) == end + Length(k)
    decreases m, 1
  {
    hide Pad, LeafText, Print, TokenText, Length;
    var newline := Pad(format, [NEWLINE]);
    var close := White(Pad(format, Tabs(ind)), Lexeme(CloseObject, k));
    OpenIsSpelled(m, format, ind, k, o, tail);
    var last := o + 1;
    if m.Member? { last := MembersSpell(m, format, ind + 1, close, o + 1 + |newline|, tail); }
    end := CloseIsSpelled(newline, Pad(format, Tabs(ind)), k, last, tail);
  }

  /** The opening brace and what stands behind it. */
  lemma {:induction false} OpenIsSpelled(m: Members, format: bool, ind: nat, k: Chunks, o: nat, tail: Tokens)
    ensures var newline := Pad(format, [NEWLINE]);
      var members := PrintMembers(m, format, ind + 1, White(Pad(format, Tabs(ind)), Lexeme(CloseObject, k)));
      && Tokenize(Print(Object(m), format, ind, k), o, tail)
        == Ahead(OpenObject, o, o + 1, Tokenize(members, o + 1 + |newline|, tail))
      && Length(Print(Object(m), format, ind, k)) == 1 + |newline| + Length(members)
  {
    var newline := Pad(format, [NEWLINE]);
    var members := PrintMembers(m, format, ind + 1, White(Pad(format, Tabs(ind)), Lexeme(CloseObject, k)));
    assert Print(Object(m), format, ind, k) == Lexeme(OpenObject, White(newline, members));
    TokenizePadded(OpenObject, newline, members, o, tail);
  }

  /** The closing brace behind the white space of the last lines. */
  lemma CloseIsSpelled(newline: seq<byte>, tabs: seq<byte>, k: Chunks, o: nat, tail: Tokens) returns (end: nat)
    ensures end > 0 && Tokenize(White(newline, White(tabs, Lexeme(CloseObject, k))), o, tail)
      == Ahead(CloseObject, end - 1, end, Tokenize(k, end, tail))
    ensures Tokenize(White(tabs, Lexeme(CloseObject, k)), o + |newline|, tail)
      == Ahead(CloseObject, end - 1, end, Tokenize(k, end, tail))
    ensures o + |newline| + Length(White(tabs, Lexeme(CloseObject, k))) == end + Length(k)
  {
    end := o + |newline| + |tabs| + 1;
    assert Length(Lexeme(CloseObject, k)) == 1 + Length(k);
    assert Tokenize(White(tabs, Lexeme(CloseObject, k)), o + |newline|, tail)
        == Tokenize(Lexeme(CloseObject, k), o + |newline| + |tabs|, tail);
  }

  lemma {:induction false} ElementsSpell(e: Elements, format: bool, ind: nat, k: Chunks, o: nat, tail: Tokens)
    returns (end: nat)
    requires e.Element?
    ensures SpellElements(e, Tokenize(PrintElements(e, format, ind, k), o, tail)) == Left(end, Tokenize(k, end, tail))
    ensures o + Length(PrintElements(e, format, ind, k)) == end + Length(k)
    decreases e, 0
  {
    end := PrintSpells(e.value, format, ind, PrintMore(e.next, format, ind, k), o, tail);
    if e.next.NoElement? {
    } else {
      var pad := Pad(format, [SPACE]);
      TokenizePadded(Comma, pad, PrintElements(e.next, format, ind, k), end, tail);
      end := ElementsSpell(e.next, format, ind, k, end + 1 + |pad|, tail);
    }
  }

  /** The tokens of a member: its name, the colon and the value's. */
  lemma MemberTokens(m: Members, format: bool, ind: nat, k: Chunks, o: nat, tail: Tokens) returns (v: nat)
    requires m.Member?
    ensures var ts := Tokenize(PrintMembers(m, format, ind, k), o, tail);
      var value := Print(m.val, format, ind, EndLine(m.rest, format, ind, k));
      && Next(ts, Leaf(String(m.key))) && Next(ts.rest, Colon)
      && ts.rest.rest == Tokenize(value, v, tail)
      && o + Length(PrintMembers(m, format, ind, k)) == v + Length(value)
  {
    var value := Print(m.val, format, ind, EndLine(m.rest, format, ind, k));
    var name: Token := Leaf(String(m.key));
    var colon := Lexeme(Colon, White(Pad(format, [TAB]), value));
    var lead := Pad(format, Tabs(ind));
    var at := o + |lead|;
    assert PrintMembers(m, format, ind, k) == White(lead, Lexeme(name, colon));
    assert Tokenize(White(lead, Lexeme(name, colon)), o, tail) == Tokenize(Lexeme(name, colon), at, tail);
    assert Length(White(lead, Lexeme(name, colon))) == |lead| + Length(Lexeme(name, colon));
    TokenizePadded(Colon, Pad(format, [TAB]), value, at + |TokenText(name)|, tail);
    v := at + |TokenText(name)| + 1 + |Pad(format, [TAB])|;
  }

  /** What stands behind a member's value: the end of the text of all members, or a comma and the next ones. */
  lemma {:induction false} EndLineTokens(m: Members, format: bool, ind: nat, k: Chunks, o: nat, tail: Tokens)
    ensures var newline := Pad(format, [NEWLINE]);
      var text := EndLine(m, format, ind, k);
      var more := PrintMembers(m, format, ind, k);
      && (m.NoMember? ==> text == White(newline, k) && Length(text) == |newline| + Length(k))
      && (m.Member? ==>
        Length(text) == 1 + |newline| + Length(more)
        && Tokenize(text, o, tail) == Ahead(Comma, o, o + 1, Tokenize(more, o + 1 + |newline|, tail)))
  {
    if m.Member? { TokenizePadded(Comma, Pad(format, [NEWLINE]), PrintMembers(m, format, ind, k), o, tail); }
  }

  lemma {:induction false} MembersSpell(m: Members, format: bool, ind: nat, k: Chunks, o: nat, tail: Tokens)
    returns (end: nat)
    requires m.Member?
    ensures SpellMembers(m, Tokenize(PrintMembers(m, format, ind, k), o, tail))
      == Left(end, Tokenize(White(Pad(format, [NEWLINE]), k), end, tail))
    ensures o + Length(PrintMembers(m, format, ind, k)) == end + |Pad(format, [NEWLINE])| + Length(k)
    decreases m, 0
  {
    hide Pad, PrintMembers, EndLine, Length, Print;
    var at := MemberTokens(m, format, ind, k, o, tail);
    end := PrintSpells(m.val, format, ind, EndLine(m.rest, format, ind, k), at, tail);
    EndLineTokens(m.rest, format, ind, k, end, tail);
    if m.rest.NoMember? {
    } else {
      end := MembersSpell(m.rest, format, ind, k, end + 1 + |Pad(format, [NEWLINE])|, tail);
    }
  }

  /**
   Printing and then parsing, formatted or not, with or without the demand that nothing follows: a tree
   JSON can express comes back unchanged when its containers nest at most NESTING_LIMIT deep, and is
   refused when they nest deeper.
   */
  lemma {:induction false} RoundTrip(t: Json, format: bool, requireNul: bool)
    requires Canonical(t)
    ensures var s := Text(t, format, 0);
      var c := s + [0];
      var r := ParseWithLengthOpts(c, requireNul);
      if Depth(t) <= NESTING_LIMIT then r == (Some(t), |s|) else r.0 == None
  {
    var s := Text(t, format, 0);
    var c := s + [0];
    TextSpells(t, format, c);
    ValueIsRead(t, TokensFrom(c, 0), 0);
    NothingBehind(c, |s|);
  }

  lemma {:induction false} NothingBehind(c: seq<byte>, o: nat)
    requires o == |c| - 1 && c[o] == 0
    ensures TokensFrom(c, o).Stop? && TokensFrom(c, o).at == o
  {
    assert SkipWhite(c, o) == o;
    NoWord(c, o);
    assert TokensAt(c, o) == LeafTokens(c, o);
  }

  /** The tokens of a printed text spell the tree and end with the text. */
  lemma {:induction false} TextSpells(t: Json, format: bool, c: seq<byte>)
    requires Canonical(t) && c == Text(t, format, 0) + [0]
    ensures var s := Text(t, format, 0);
      SkipBom(c) == 0 && Spell(t, TokensFrom(c, 0)) == Left(|s|, TokensFrom(c, |s|))
  {
    hide LeafText, TokenText, Canonical;
    var k := Print(t, format, 0, Nil);
    var s := Text(t, format, 0);
    PrintIsReadable(t, format, 0, Nil);
    FlattenStands(k, c, 0, |s|);
    NoMark(k, c);
    ChunksAreRead(k, c, 0, TokensFrom(c, 0), |s|, TokensFrom(c, |s|));
    var end := PrintSpells(t, format, 0, Nil, 0, TokensFrom(c, |s|));
  }

  /** No printed text starts with a byte order mark. */
  lemma {:induction false} NoMark(k: Chunks, c: seq<byte>)
    requires Stand(k, c, 0) != -1 && k.Lexeme?
    ensures SkipBom(c) == 0
  {
    LexemeStart(k.token);
    StartsWith(c, 0, TokenText(k.token));
    if At(c, 0, BOM) { StartsWith(c, 0, BOM); }
  }

  lemma LexemeStart(token: Token)
    requires token.Leaf? ==> Canonical(token.item)
    ensures TokenText(token) != [] && TokenText(token)[0] != 0xEF
  {
    if token.Leaf? { LeafStart(token.item); }
  }
}
