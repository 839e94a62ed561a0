/**
 JSON texts as RFC 8259 writes them, with any white space and any spelling of numbers and strings, what they
 denote, and the theorem that says which of them the parser reads, byte for byte.
 */
module JsonDocument {
  import opened Bytes
  import opened Unicode
  import opened Json
  import opened JsonNumber
  import opened JsonString
  import opened JsonText
  import opened JsonLex
  import opened JsonParse
  import opened JsonParseSteps
  import L = JsonLiteral
  import O = JsonOverrun
  import R = JsonRoundTrip

  // ---- the grammar ----

  /** Section 2: space, tab, line feed and carriage return. */
  type Blank = w: seq<byte> | forall i :: 0 <= i < |w| ==> w[i] in {32, 9, 10, 13} witness []

  type Digits = s: seq<byte> | s != [] && forall i :: 0 <= i < |s| ==> Digit(s[i]) witness [48]

  /** Section 6: an optional minus, an integer without superfluous zeros, a fraction and an exponent. */
  datatype Numeral = Numeral(minus: bool, whole: Digits, fraction: Option<Digits>, exponent: Option<Exponent>)

  datatype Exponent = Exponent(upper: bool, sign: Option<bool>, power: Digits)

  predicate GrammaticalNumeral(n: Numeral) {
    |n.whole| > 1 ==> n.whole[0] != 48
  }

  /** Section 3: a literal name, a number, a string, an array or an object; a list that is empty holds white space. */
  datatype Doc =
    | Word(item: Scalar)
    | Numeric(number: Numeral)
    | Quoted(pieces: seq<L.Piece>)
    | EmptyList(blank: Blank)
    | List(docs: Docs)
    | EmptyRecord(blank: Blank)
    | Record(fields: Fields)

  /** Section 5: values with white space around them and commas between them. */
  datatype Docs =
    | LastDoc(before: Blank, value: Doc, after: Blank)
    | MoreDocs(before: Blank, value: Doc, after: Blank, next: Docs)

  /** Section 4: names, colons and values with white space around each. */
  datatype Fields =
    | LastField(before: Blank, name: seq<L.Piece>, gap: Blank, space: Blank, value: Doc, after: Blank)
    | MoreFields(before: Blank, name: seq<L.Piece>, gap: Blank, space: Blank, value: Doc, after: Blank, rest: Fields)

  predicate Grammatical(doc: Doc) {
    match doc
    case Word(item) => item.Null? || item.True? || item.False?
    case Numeric(n) => GrammaticalNumeral(n)
    case Quoted(ps) => L.AllGrammatical(ps)
    case List(docs) => GrammaticalDocs(docs)
    case Record(fields) => GrammaticalFields(fields)
    case _ => true
  }

  predicate GrammaticalDocs(e: Docs) {
    Grammatical(e.value) && (e.MoreDocs? ==> GrammaticalDocs(e.next))
  }

  predicate GrammaticalFields(f: Fields) {
    L.AllGrammatical(f.name) && Grammatical(f.value) && (f.MoreFields? ==> GrammaticalFields(f.rest))
  }

  // ---- the bytes ----

  function FractionText(f: Option<Digits>): seq<byte> {
    if f.Some? then [DOT] + f.value else []
  }

  function ExponentText(e: Option<Exponent>): seq<byte> {
    if e.None? then [] else [if e.value.upper then UPPER_E else LOWER_E] + (SignText(e.value.sign) + e.value.power)
  }

  function SignText(sign: Option<bool>): seq<byte> {
    if sign.None? then [] else if sign.value then [MINUS] else [PLUS]
  }

  function NumeralText(n: Numeral): seq<byte> {
    (if n.minus then [MINUS] else []) + (n.whole + (FractionText(n.fraction) + ExponentText(n.exponent)))
  }

  function QuotedText(ps: seq<L.Piece>): seq<byte>
    requires L.AllGrammatical(ps)
  {
    [QUOTE] + L.Body(ps) + [QUOTE]
  }

  function DocText(doc: Doc): seq<byte>
    requires Grammatical(doc)
    decreases doc
  {
    match doc
    case Word(item) => LeafText(item)
    case Numeric(n) => NumeralText(n)
    case Quoted(ps) => QuotedText(ps)
    case EmptyList(w) => [OPEN_ARRAY] + (w + [CLOSE_ARRAY])
    case List(docs) => [OPEN_ARRAY] + (DocsText(docs) + [CLOSE_ARRAY])
    case EmptyRecord(w) => [OPEN_OBJECT] + (w + [CLOSE_OBJECT])
    case Record(fields) => [OPEN_OBJECT] + (FieldsText(fields) + [CLOSE_OBJECT])
  }

  function DocsText(e: Docs): seq<byte>
    requires GrammaticalDocs(e)
    decreases e, 1
  {
    e.before + (DocText(e.value) + (e.after + MoreText(e)))
  }

  function MoreText(e: Docs): seq<byte>
    requires GrammaticalDocs(e)
    decreases e, 0
  {
    if e.MoreDocs? then [COMMA] + DocsText(e.next) else []
  }

  function FieldsText(f: Fields): seq<byte>
    requires GrammaticalFields(f)
    decreases f, 2
  {
    f.before + (QuotedText(f.name) + (f.gap + ([COLON] + ValueText(f))))
  }

  function ValueText(f: Fields): seq<byte>
    requires GrammaticalFields(f)
    decreases f, 1
  {
    f.space + (DocText(f.value) + (f.after + MoreFieldsText(f)))
  }

  function MoreFieldsText(f: Fields): seq<byte>
    requires GrammaticalFields(f)
    decreases f, 0
  {
    if f.MoreFields? then [COMMA] + FieldsText(f.rest) else []
  }

  // ---- numbers ----

  lemma {:induction false} DigitsEndIs(t: seq<byte>, i: nat, e: nat)
    requires i <= e <= |t| && (forall k :: i <= k < e ==> Digit(t[k])) && (e < |t| ==> !Digit(t[e]))
    ensures DigitsEnd(t, i) == e
    decreases e - i
  {
    if i == e {
    } else {
      DigitsEndIs(t, i + 1, e);
    }
  }

  lemma {:induction false} DigitsStand(t: seq<byte>, i: nat, d: seq<byte>)
    requires At(t, i, d) && (forall k :: 0 <= k < |d| ==> Digit(d[k]))
    requires i + |d| < |t| ==> !Digit(t[i + |d|])
    ensures DigitsEnd(t, i) == i + |d|
  {
    AtIndex(t, i, d);
    forall k | i <= k < i + |d| ensures Digit(t[k]) { assert t[i + (k - i)] == d[k - i]; }
    DigitsEndIs(t, i, i + |d|);
  }

  lemma SignStands(t: seq<byte>, i: nat, sign: seq<byte>, d: Digits)
    requires At(t, i, sign) && At(t, i + |sign|, d) && sign in {[], [PLUS], [MINUS]}
    ensures SignEnd(t, i) == i + |sign|
  {
    StartsWith(t, i + |sign|, d);
    if sign != [] { StartsWith(t, i, sign); }
  }

  lemma {:induction false} FractionStands(t: seq<byte>, w: nat, digits: Digits)
    requires At(t, w, [DOT] + digits) && (w + 1 + |digits| < |t| ==> !Digit(t[w + 1 + |digits|]))
    ensures Holds(t, w, DOT) && DigitsEnd(t, w + 1) == w + 1 + |digits|
  {
    hide DigitsEnd, At;
    AtConcat(t, w, [DOT], digits);
    StartsWith(t, w, [DOT]);
    DigitsStand(t, w + 1, digits);
  }

  lemma MantissaStands(t: seq<byte>, sign: seq<byte>, whole: Digits, f: Option<Digits>, m: nat)
    requires At(t, 0, sign + (whole + FractionText(f))) && sign in {[], [MINUS]}
    requires m == |sign + (whole + FractionText(f))| && (m < |t| ==> t[m] in {LOWER_E, UPPER_E})
    ensures MantissaEnd(t) == m
  {
    hide SignEnd, DigitsEnd, At;
    var w := |sign| + |whole|;
    AtConcat(t, 0, sign, whole + FractionText(f));
    AtConcat(t, |sign|, whole, FractionText(f));
    SignStands(t, 0, sign, whole);
    if f.Some? { FractionStands(t, w, f.value); }
    DigitsStand(t, |sign|, whole);
  }

  lemma ExponentStands(t: seq<byte>, m: nat, letter: byte, sign: seq<byte>, power: Digits)
    requires At(t, m, [letter] + (sign + power)) && |t| == m + 1 + |sign| + |power| && m == MantissaEnd(t) > 0
    requires letter in {LOWER_E, UPPER_E} && sign in {[], [PLUS], [MINUS]}
    ensures StrtodLength(t) == |t|
  {
    hide SignEnd, DigitsEnd, MantissaEnd, At;
    AtConcat(t, m, [letter], sign + power);
    StartsWith(t, m, [letter]);
    AtConcat(t, m + 1, sign, power);
    SignStands(t, m + 1, sign, power);
    DigitsStand(t, m + 1 + |sign|, power);
  }

  /** strtod takes a number whole. */
  lemma NumeralIsConverted(n: Numeral)
    ensures StrtodLength(NumeralText(n)) == |NumeralText(n)|
  {
    hide SignEnd, DigitsEnd, MantissaEnd, FractionText;
    var t, x := NumeralText(n), ExponentText(n.exponent);
    var sign := if n.minus then [MINUS] else [];
    var mantissa := sign + (n.whole + FractionText(n.fraction));
    var m := |mantissa|;
    assert t == mantissa + x;
    AtConcat(t, 0, mantissa, x);
    if n.exponent.Some? { StartsWith(t, m, x); }
    MantissaStands(t, sign, n.whole, n.fraction, m);
    if n.exponent.Some? {
      var e := n.exponent.value;
      ExponentStands(t, m, if e.upper then UPPER_E else LOWER_E, SignText(e.sign), e.power);
    }
  }

  lemma NumeralBytes(n: Numeral)
    ensures NumeralText(n) != [] && (NumeralText(n)[0] == MINUS || Digit(NumeralText(n)[0]))
    ensures forall i :: 0 <= i < |NumeralText(n)| ==> NumberByte(NumeralText(n)[i])
    ensures 0 !in NumeralText(n)
  {
    hide StrtodLength, FractionText, ExponentText;
    NumeralIsConverted(n);
    TokenBytes(NumeralText(n));
  }

  /** Of a number that is too long it takes a part. */
  lemma LongNumeral(n: Numeral)
    requires |NumeralText(n)| > MAX_PARSED
    ensures StrtodLength(NumeralText(n)[..MAX_PARSED]) > 0
  {
    var t := NumeralText(n)[..MAX_PARSED];
    var sign := if n.minus then [MINUS] else [];
    assert t[|sign|] == n.whole[0];
    assert SignEnd(t, 0) == |sign|;
  }

  // ---- the tree ----

  predicate Paired(ps: seq<L.Piece>) {
    L.AllGrammatical(ps) && L.Denoted(ps).Some?
  }

  /** Every surrogate is paired, and no number is longer than parse_number copies. */
  predicate Sound(doc: Doc)
    requires Grammatical(doc)
  {
    match doc
    case Numeric(n) => |NumeralText(n)| <= MAX_PARSED
    case Quoted(ps) => Paired(ps)
    case List(docs) => SoundDocs(docs)
    case Record(fields) => SoundFields(fields)
    case _ => true
  }

  predicate SoundDocs(e: Docs)
    requires GrammaticalDocs(e)
  {
    Sound(e.value) && (e.MoreDocs? ==> SoundDocs(e.next))
  }

  predicate SoundFields(f: Fields)
    requires GrammaticalFields(f)
  {
    Paired(f.name) && Sound(f.value) && (f.MoreFields? ==> SoundFields(f.rest))
  }

  /** The C string cJSON keeps of the characters a literal denotes. */
  function Characters(ps: seq<L.Piece>): CString
    requires Paired(ps)
  {
    CStr(Utf8All(L.Denoted(ps).value))
  }

  function Tree(doc: Doc): Json
    requires Grammatical(doc) && Sound(doc)
  {
    match doc
    case Word(item) => item
    case Numeric(n) => NumeralBytes(n); Number(NumeralText(n))
    case Quoted(ps) => String(Some(Characters(ps)))
    case EmptyList(_) => Array(NoElement)
    case List(docs) => Array(TreeList(docs))
    case EmptyRecord(_) => Object(NoMember)
    case Record(fields) => Object(TreeMembers(fields))
  }

  function TreeList(e: Docs): Elements
    requires GrammaticalDocs(e) && SoundDocs(e)
  {
    Element(Tree(e.value), if e.MoreDocs? then TreeList(e.next) else NoElement)
  }

  function TreeMembers(f: Fields): Members
    requires GrammaticalFields(f) && SoundFields(f)
  {
    Member(Some(Characters(f.name)), Tree(f.value), if f.MoreFields? then TreeMembers(f.rest) else NoMember)
  }

  // ---- leaves ----

  /** What stands in the buffer where a value has ended: its end, or a byte no number goes on with. */
  predicate Ended(c: seq<byte>, e: nat) {
    e <= |c| && (e < |c| ==> !NumberByte(c[e]))
  }

  lemma {:induction false} DocStart(doc: Doc)
    requires Grammatical(doc)
    ensures DocText(doc) != [] && DocText(doc)[0] > 32 && DocText(doc)[0] !in {CLOSE_ARRAY, CLOSE_OBJECT, 0xEF}
  {
    hide L.Body, NumeralText;
    match doc {
      case Numeric(n) => NumeralBytes(n);
      case _ =>
    }
  }

  lemma NumeralIsRead(n: Numeral, c: seq<byte>, o: nat)
    requires At(c, o, NumeralText(n)) && Ended(c, o + |NumeralText(n)|)
    ensures var t, e := NumeralText(n), o + |NumeralText(n)|;
      && o < |c|
      && (|t| <= MAX_PARSED ==> 0 !in t && NumberAt(c, o) == Read(Number(t), e))
      && (|t| > MAX_PARSED ==> NumberAt(c, o).Read? && NumberAt(c, o).end < e && NumberByte(c[NumberAt(c, o).end]))
  {
    hide StrtodLength, NumeralText, NumberByte;
    var t := NumeralText(n);
    var e := if |t| <= MAX_PARSED then o + |t| else o + MAX_PARSED;
    NumeralBytes(n);
    AtIndex(c, o, t);
    forall k | o <= k < o + |t| ensures NumberByte(c[k]) { assert c[o + (k - o)] == t[k - o]; }
    SpanEndIs(c, o, o, e);
    assert c[o..o + |t|][..e - o] == c[o..e] == t[..e - o];
    if |t| <= MAX_PARSED {
      NumeralIsConverted(n);
      assert t[..|t|] == t;
    } else {
      LongNumeral(n);
    }
  }

  // ---- the descent ----

  predicate Fits(doc: Doc, d: nat)
    requires Grammatical(doc)
  {
    Sound(doc) && d + Depth(Tree(doc)) <= NESTING_LIMIT
  }

  predicate FitsDocs(e: Docs, d: nat)
    requires GrammaticalDocs(e)
  {
    SoundDocs(e) && d + ElementsDepth(TreeList(e)) <= NESTING_LIMIT
  }

  predicate FitsFields(f: Fields, d: nat)
    requires GrammaticalFields(f)
  {
    SoundFields(f) && d + MembersDepth(TreeMembers(f)) <= NESTING_LIMIT
  }

  lemma {:induction false} ListFits(e: Docs, d: nat)
    requires GrammaticalDocs(e) && d <= NESTING_LIMIT
    ensures Fits(List(e), d) <==> d < NESTING_LIMIT && FitsDocs(e, d + 1)
  {
  }

  lemma {:induction false} DocsFit(e: Docs, d: nat)
    requires GrammaticalDocs(e) && d <= NESTING_LIMIT
    ensures FitsDocs(e, d) <==> Fits(e.value, d) && (e.MoreDocs? ==> FitsDocs(e.next, d))
  {
  }

  lemma {:induction false} RecordFits(f: Fields, d: nat)
    requires GrammaticalFields(f) && d <= NESTING_LIMIT
    ensures Fits(Record(f), d) <==> d < NESTING_LIMIT && FitsFields(f, d + 1)
  {
  }

  lemma {:induction false} FieldsFit(f: Fields, d: nat)
    requires GrammaticalFields(f) && d <= NESTING_LIMIT
    ensures FitsFields(f, d) <==> Paired(f.name) && Fits(f.value, d) && (f.MoreFields? ==> FitsFields(f.rest, d))
  {
    hide Paired;
    if SoundFields(f) {
      var rest := if f.MoreFields? then TreeMembers(f.rest) else NoMember;
      assert MembersDepth(TreeMembers(f)) == Max(Depth(Tree(f.value)), MembersDepth(rest));
    }
  }

  /** A failure, or a parser that stands in the middle of a number in front of `e`. */
  ghost predicate Broken<T>(r: Outcome<T>, c: seq<byte>, e: nat) {
    r.Failed? || (r.end < e <= |c| && NumberByte(c[r.end]) && r.rest == TokensFrom(c, r.end))
  }

  ghost predicate ReadsDoc(r: Outcome<Json>, doc: Doc, c: seq<byte>, d: nat, e: nat)
    requires Grammatical(doc) && e <= |c|
  {
    if Fits(doc, d) then r == Parsed(Tree(doc), e, TokensFrom(c, e))
    else Broken(r, c, e) && (r.Parsed? ==> doc.Numeric?)
  }

  ghost predicate ReadsDocs(r: Outcome<Elements>, docs: Docs, c: seq<byte>, d: nat, q: nat)
    requires GrammaticalDocs(docs) && q <= |c|
  {
    if FitsDocs(docs, d) then r.Parsed? && r.value == TreeList(docs) && r.rest == TokensAt(c, q) else Broken(r, c, q)
  }

  ghost predicate ReadsFields(r: Outcome<Members>, f: Fields, c: seq<byte>, d: nat, q: nat)
    requires GrammaticalFields(f) && q <= |c|
  {
    if FitsFields(f, d) then r.Parsed? && r.value == TreeMembers(f) && r.rest == TokensAt(c, q) else Broken(r, c, q)
  }

  lemma {:induction false} BlankIsSkipped(c: seq<byte>, o: nat, w: Blank)
    requires At(c, o, w) && o + |w| < |c| && c[o + |w|] > 32
    ensures SkipWhite(c, o) == o + |w| && TokensFrom(c, o) == TokensAt(c, o + |w|)
  {
    hide TokensAt;
    R.SkipsWhite(c, o, w);
  }

  lemma BlankEnds(c: seq<byte>, o: nat, w: Blank)
    requires At(c, o, w) && o + |w| < |c| && c[o + |w|] in {COMMA, CLOSE_ARRAY, CLOSE_OBJECT}
    ensures Ended(c, o)
  {
    if w != [] { StartsWith(c, o, w); }
  }

  lemma {:induction false} LeafIsRead(doc: Doc, c: seq<byte>, o: nat, d: nat)
    requires Grammatical(doc) && (doc.Word? || doc.Numeric? || doc.Quoted?) && d <= NESTING_LIMIT
    requires At(c, o, DocText(doc)) && Ended(c, o + |DocText(doc)|)
    ensures ReadsDoc(ParseValue(TokensAt(c, o), d), doc, c, d, o + |DocText(doc)|)
  {
    hide LeafAt, TokensAt, NumberAt, NumeralText, QuotedText;
    DocStart(doc);
    StartsWith(c, o, DocText(doc));
    match doc {
      case Word(item) => R.WordIsRead(item, c, o); LeafValue(c, o, d);
      case Numeric(n) => NumericIsRead(n, c, o, d);
      case Quoted(ps) => QuotedIsRead(ps, c, o, d);
    }
  }

  lemma {:induction false} NumericIsRead(n: Numeral, c: seq<byte>, o: nat, d: nat)
    requires GrammaticalNumeral(n) && d <= NESTING_LIMIT
    requires At(c, o, NumeralText(n)) && Ended(c, o + |NumeralText(n)|)
    ensures ReadsDoc(ParseValue(TokensAt(c, o), d), Numeric(n), c, d, o + |NumeralText(n)|)
  {
    hide LeafAt, TokensAt, NumberAt, NumeralText;
    NumeralBytes(n);
    StartsWith(c, o, NumeralText(n));
    R.NoWord(c, o);
    NumeralIsRead(n, c, o);
    LeafValue(c, o, d);
  }

  lemma {:induction false} QuotedIsRead(ps: seq<L.Piece>, c: seq<byte>, o: nat, d: nat)
    requires L.AllGrammatical(ps) && d <= NESTING_LIMIT
    requires At(c, o, QuotedText(ps))
    ensures ReadsDoc(ParseValue(TokensAt(c, o), d), Quoted(ps), c, d, o + |QuotedText(ps)|)
  {
    hide LeafAt, TokensAt, JsonString.ParseString, L.Body;
    StartsWith(c, o, QuotedText(ps));
    R.NoWord(c, o);
    L.ParsesLiteral(c, o, ps);
    LeafValue(c, o, d);
  }

  /** A parser in the middle of a number stands in front of no white space and no punctuation. */
  lemma {:induction false} BrokenStands<T>(r: Outcome<T>, c: seq<byte>, e: nat)
    requires Broken(r, c, e) && r.Parsed?
    ensures SkipWhite(c, r.end) == r.end && r.rest == TokensAt(c, r.end)
    ensures c[r.end] !in {COMMA, CLOSE_ARRAY, CLOSE_OBJECT}
  {
    hide TokensAt;
  }

  lemma {:induction false} EmptyListIsRead(w: Blank, c: seq<byte>, o: nat, d: nat)
    requires At(c, o, DocText(EmptyList(w))) && d <= NESTING_LIMIT
    ensures ReadsDoc(ParseValue(TokensAt(c, o), d), EmptyList(w), c, d, o + |w| + 2)
  {
    hide ParseValue, TokensAt;
    BracketsStand(c, o, OPEN_ARRAY, w, CLOSE_ARRAY);
    if d < NESTING_LIMIT {
      ArrayAt(c, o, d);
      BlankIsSkipped(c, o + 1, w);
    } else {
      TooDeep(c, o, d);
    }
  }

  lemma {:induction false} EmptyRecordIsRead(w: Blank, c: seq<byte>, o: nat, d: nat)
    requires At(c, o, DocText(EmptyRecord(w))) && d <= NESTING_LIMIT
    ensures ReadsDoc(ParseValue(TokensAt(c, o), d), EmptyRecord(w), c, d, o + |w| + 2)
  {
    hide ParseValue, TokensAt;
    BracketsStand(c, o, OPEN_OBJECT, w, CLOSE_OBJECT);
    if d < NESTING_LIMIT {
      ObjectAt(c, o, d);
      BlankIsSkipped(c, o + 1, w);
    } else {
      TooDeep(c, o, d);
    }
  }

  lemma BracketsStand(c: seq<byte>, o: nat, open: byte, s: seq<byte>, close: byte)
    requires At(c, o, [open] + (s + [close]))
    ensures Holds(c, o, open) && At(c, o + 1, s) && Holds(c, o + 1 + |s|, close)
  {
    AtConcat(c, o, [open], s + [close]);
    AtConcat(c, o + 1, s, [close]);
    StartsWith(c, o, [open]);
    StartsWith(c, o + 1 + |s|, [close]);
  }

  lemma {:induction false} DocIsRead(doc: Doc, c: seq<byte>, o: nat, d: nat)
    requires Grammatical(doc) && d <= NESTING_LIMIT
    requires At(c, o, DocText(doc)) && Ended(c, o + |DocText(doc)|)
    ensures ReadsDoc(ParseValue(TokensAt(c, o), d), doc, c, d, o + |DocText(doc)|)
    decreases doc, 1
  {
    hide TokensAt, ParseValue;
    match doc {
      case EmptyList(w) => EmptyListIsRead(w, c, o, d);
      case EmptyRecord(w) => EmptyRecordIsRead(w, c, o, d);
      case List(docs) => ListIsRead(docs, c, o, d);
      case Record(fields) => RecordIsRead(fields, c, o, d);
      case _ => LeafIsRead(doc, c, o, d);
    }
  }

  lemma {:induction false} ListIsRead(e: Docs, c: seq<byte>, o: nat, d: nat)
    requires GrammaticalDocs(e) && d <= NESTING_LIMIT
    requires At(c, o, DocText(List(e)))
    ensures ReadsDoc(ParseValue(TokensAt(c, o), d), List(e), c, d, o + |DocsText(e)| + 2)
    decreases e, 2
  {
    hide ParseValue, ParseElements, TokensAt, DocsText, TokensFrom, Fits, FitsDocs, CloseArrayAt, ReadsDoc, ReadsDocs;
    ListFits(e, d);
    BracketsStand(c, o, OPEN_ARRAY, DocsText(e), CLOSE_ARRAY);
    var q := o + 1 + |DocsText(e)|;
    if d < NESTING_LIMIT {
      ArrayAt(c, o, d);
      DocsStart(e, c, o + 1);
      DocsAreRead(e, c, o + 1, d + 1);
      ListIsClosed(e, c, q, d + 1, ParseElements(TokensFrom(c, o + 1), d + 1));
    } else {
      TooDeep(c, o, d);
      FailureReads(List(e), ParseValue(TokensAt(c, o), d), c, d, q + 1);
    }
  }

  lemma {:induction false} FailureReads(doc: Doc, r: Outcome<Json>, c: seq<byte>, d: nat, e: nat)
    requires Grammatical(doc) && e <= |c| && !Fits(doc, d) && r.Failed?
    ensures ReadsDoc(r, doc, c, d, e)
  {
    hide Fits;
  }

  lemma {:induction false} ListIsClosed(e: Docs, c: seq<byte>, q: nat, d: nat, r: Outcome<Elements>)
    requires GrammaticalDocs(e) && 0 < d <= NESTING_LIMIT && Holds(c, q, CLOSE_ARRAY) && ReadsDocs(r, e, c, d, q)
    ensures ReadsDoc(CloseArrayAt(r, d), List(e), c, d - 1, q + 1)
  {
    hide TokensAt, TokensFrom, FitsDocs, Fits;
    ListFits(e, d - 1);
    if FitsDocs(e, d) {
      CloseArrayIs(c, q, r.value, r.end, d);
    } else if r.Parsed? {
      BrokenStands(r, c, q);
      CloseArrayIs(c, r.end, r.value, r.end, d);
    }
  }

  /** Where the parts of a list stand. */
  lemma {:induction false} DocsStart(e: Docs, c: seq<byte>, o: nat)
    requires GrammaticalDocs(e) && At(c, o, DocsText(e))
    ensures var v := o + |e.before|;
      var w := v + |DocText(e.value)|;
      var m := w + |e.after|;
      && v < |c| && c[v] > 32 && c[v] !in {CLOSE_ARRAY, CLOSE_OBJECT}
      && SkipWhite(c, o) == v && TokensFrom(c, o) == TokensAt(c, v)
      && At(c, v, DocText(e.value)) && At(c, w, e.after) && At(c, m, MoreText(e))
      && m + |MoreText(e)| == o + |DocsText(e)|
  {
    hide DocText, MoreText, TokensFrom, TokensAt, At, SkipWhite;
    var v := o + |e.before|;
    AtConcat(c, o, e.before, DocText(e.value) + (e.after + MoreText(e)));
    AtConcat(c, v, DocText(e.value), e.after + MoreText(e));
    AtConcat(c, v + |DocText(e.value)|, e.after, MoreText(e));
    DocStart(e.value);
    StartsWith(c, v, DocText(e.value));
    BlankIsSkipped(c, o, e.before);
  }

  /** What a turn of the loop makes of a value that ends at `w`, with white space up to `m`. */
  lemma {:induction false} ElementTurn(doc: Doc, c: seq<byte>, v: nat, d: nat, w: nat, m: nat)
    requires Grammatical(doc) && v <= |c| && w <= |c| && m == SkipWhite(c, w)
    requires ReadsDoc(ParseValue(TokensAt(c, v), d), doc, c, d, w)
    ensures var r := ParseElements(TokensAt(c, v), d);
      if !Fits(doc, d) then Broken(r, c, w)
      else if Holds(c, m, COMMA) then r == AddElement(Tree(doc), ParseElements(TokensFrom(c, m + 1), d))
      else r == Parsed(Element(Tree(doc), NoElement), w, TokensAt(c, m))
  {
    hide ParseValue, ParseElements, TokensAt, TokensFrom, Fits;
    var r := ParseValue(TokensAt(c, v), d);
    if !Fits(doc, d) && r.Parsed? { BrokenStands(r, c, w); }
    ElementAt(c, v, d, r);
  }

  /** The first value of a list and what the loop makes of the others. */
  lemma {:induction false} DocsJoin(
    e: Docs, c: seq<byte>, d: nat, r: Outcome<Elements>, more: Outcome<Elements>, w: nat, q: nat)
    requires GrammaticalDocs(e) && d <= NESTING_LIMIT && w <= q < |c|
    requires !Fits(e.value, d) ==> Broken(r, c, w)
    requires Fits(e.value, d) && e.LastDoc? ==> r == Parsed(Element(Tree(e.value), NoElement), w, TokensAt(c, q))
    requires Fits(e.value, d) && e.MoreDocs? ==>
      r == AddElement(Tree(e.value), more) && ReadsDocs(more, e.next, c, d, q)
    ensures ReadsDocs(r, e, c, d, q)
  {
    hide TokensAt, TokensFrom, Fits, FitsDocs, Tree;
    DocsFit(e, d);
  }

  lemma {:induction false} DocsAreRead(e: Docs, c: seq<byte>, o: nat, d: nat)
    requires GrammaticalDocs(e) && d <= NESTING_LIMIT
    requires At(c, o, DocsText(e)) && Holds(c, o + |DocsText(e)|, CLOSE_ARRAY)
    ensures ReadsDocs(ParseElements(TokensFrom(c, o), d), e, c, d, o + |DocsText(e)|)
    decreases e, 1
  {
    hide ParseValue, ParseElements, TokensAt, TokensFrom, DocText, DocsText, Fits, FitsDocs, Tree, At, SkipWhite;
    DocsStart(e, c, o);
    var v := o + |e.before|;
    var w := v + |DocText(e.value)|;
    var m := w + |e.after|;
    BehindStands(c, w, e.after, MoreText(e), if e.MoreDocs? then DocsText(e.next) else [], CLOSE_ARRAY);
    DocIsRead(e.value, c, v, d);
    ElementTurn(e.value, c, v, d, w, m);
    if e.LastDoc? {
    } else {
      DocsAreRead(e.next, c, m + 1, d);
    }
    var more := if e.MoreDocs? then ParseElements(TokensFrom(c, m + 1), d) else Failed(0, 0);
    DocsJoin(e, c, d, ParseElements(TokensFrom(c, o), d), more, w, o + |DocsText(e)|);
  }

  lemma {:induction false} RecordIsRead(f: Fields, c: seq<byte>, o: nat, d: nat)
    requires GrammaticalFields(f) && d <= NESTING_LIMIT
    requires At(c, o, DocText(Record(f)))
    ensures ReadsDoc(ParseValue(TokensAt(c, o), d), Record(f), c, d, o + |FieldsText(f)| + 2)
    decreases f, 2
  {
    hide ParseValue, ParseMembers, TokensAt, FieldsText, TokensFrom, Fits, FitsFields, CloseObjectAt, ReadsDoc, ReadsFields;
    RecordFits(f, d);
    BracketsStand(c, o, OPEN_OBJECT, FieldsText(f), CLOSE_OBJECT);
    var q := o + 1 + |FieldsText(f)|;
    if d < NESTING_LIMIT {
      ObjectAt(c, o, d);
      NameStands(f, c, o + 1);
      FieldsAreRead(f, c, o + 1, d + 1);
      RecordIsClosed(f, c, q, d + 1, ParseMembers(TokensFrom(c, o + 1), d + 1));
    } else {
      TooDeep(c, o, d);
      FailureReads(Record(f), ParseValue(TokensAt(c, o), d), c, d, q + 1);
    }
  }

  lemma {:induction false} RecordIsClosed(f: Fields, c: seq<byte>, q: nat, d: nat, r: Outcome<Members>)
    requires GrammaticalFields(f) && 0 < d <= NESTING_LIMIT && Holds(c, q, CLOSE_OBJECT) && ReadsFields(r, f, c, d, q)
    ensures ReadsDoc(CloseObjectAt(r, d), Record(f), c, d - 1, q + 1)
  {
    hide TokensAt, TokensFrom, FitsFields, Fits;
    RecordFits(f, d - 1);
    if FitsFields(f, d) {
      CloseObjectIs(c, q, r.value, r.end, d);
    } else if r.Parsed? {
      BrokenStands(r, c, q);
      CloseObjectIs(c, r.end, r.value, r.end, d);
    }
  }

  /** Where the name and the colon of a member stand. */
  lemma NameStands(f: Fields, c: seq<byte>, o: nat)
    requires GrammaticalFields(f) && At(c, o, FieldsText(f))
    ensures var p := o + |f.before|;
      var g := p + |QuotedText(f.name)|;
      var k := g + |f.gap|;
      && Holds(c, p, QUOTE) && At(c, p, QuotedText(f.name))
      && SkipWhite(c, o) == p && TokensFrom(c, o) == TokensAt(c, p)
      && SkipWhite(c, g) == k && Holds(c, k, COLON) && At(c, k + 1, ValueText(f))
      && k + 1 + |ValueText(f)| == o + |FieldsText(f)|
  {
    hide TokensFrom, TokensAt, ValueText, QuotedText, At, SkipWhite;
    var p := o + |f.before|;
    var g := p + |QuotedText(f.name)|;
    AtConcat(c, o, f.before, QuotedText(f.name) + (f.gap + ([COLON] + ValueText(f))));
    AtConcat(c, p, QuotedText(f.name), f.gap + ([COLON] + ValueText(f)));
    AtConcat(c, g, f.gap, [COLON] + ValueText(f));
    AtConcat(c, g + |f.gap|, [COLON], ValueText(f));
    StartsWith(c, g + |f.gap|, [COLON]);
    DocStart(Quoted(f.name));
    StartsWith(c, p, QuotedText(f.name));
    QuoteFirst(f.name);
    BlankIsSkipped(c, o, f.before);
    BlankIsSkipped(c, g, f.gap);
  }

  lemma QuoteFirst(ps: seq<L.Piece>)
    requires L.AllGrammatical(ps)
    ensures QuotedText(ps)[0] == QUOTE
  {
  }

  /** Where the value of a member stands. */
  lemma {:induction false} ValueStands(f: Fields, c: seq<byte>, o: nat)
    requires GrammaticalFields(f) && At(c, o, ValueText(f))
    ensures var v := o + |f.space|;
      var w := v + |DocText(f.value)|;
      var m := w + |f.after|;
      && v < |c| && TokensFrom(c, o) == TokensAt(c, v)
      && At(c, v, DocText(f.value)) && At(c, w, f.after) && At(c, m, MoreFieldsText(f))
      && m + |MoreFieldsText(f)| == o + |ValueText(f)|
  {
    hide DocText, MoreFieldsText, TokensFrom, TokensAt, At, SkipWhite;
    var v := o + |f.space|;
    AtConcat(c, o, f.space, DocText(f.value) + (f.after + MoreFieldsText(f)));
    AtConcat(c, v, DocText(f.value), f.after + MoreFieldsText(f));
    AtConcat(c, v + |DocText(f.value)|, f.after, MoreFieldsText(f));
    DocStart(f.value);
    StartsWith(c, v, DocText(f.value));
    BlankIsSkipped(c, o, f.space);
  }

  /** What stands behind the white space behind a value: a comma and more, or the closing bracket. */
  lemma BehindStands(c: seq<byte>, w: nat, after: Blank, more: seq<byte>, next: seq<byte>, close: byte)
    requires close in {CLOSE_ARRAY, CLOSE_OBJECT} && (more == [] || more == [COMMA] + next)
    requires var m := w + |after|;
      At(c, w, after) && At(c, m, more) && Holds(c, m + |more|, close)
    ensures var m := w + |after|;
      && Ended(c, w) && SkipWhite(c, w) == m
      && if more == [] then Holds(c, m, close) else Holds(c, m, COMMA) && At(c, m + 1, next)
  {
    hide At, SkipWhite;
    var m := w + |after|;
    if more != [] {
      StartsWith(c, m, more);
      AtConcat(c, m, [COMMA], next);
    }
    BlankEnds(c, w, after);
    BlankIsSkipped(c, w, after);
  }

  lemma {:induction false} NameTurn(ps: seq<L.Piece>, c: seq<byte>, p: nat, d: nat, k: nat)
    requires L.AllGrammatical(ps) && At(c, p, QuotedText(ps))
    requires SkipWhite(c, p + |QuotedText(ps)|) == k && Holds(c, k, COLON)
    ensures var r := ParseMembers(TokensAt(c, p), d);
      if Paired(ps) then r == MemberAt(Some(Characters(ps)), TokensFrom(c, k + 1), d) else r.Failed?
  {
    hide TokensAt, TokensFrom, ParseMembers, MemberAt, L.Body, JsonString.ParseString;
    StartsWith(c, p, QuotedText(ps));
    L.ParsesLiteral(c, p, ps);
    if Paired(ps) { ColonAt(c, p, d, Characters(ps), p + |QuotedText(ps)|); } else { NameAt(c, p, d); }
  }

  lemma {:induction false} MemberTurn(key: CString, doc: Doc, c: seq<byte>, v: nat, d: nat, w: nat, m: nat)
    requires Grammatical(doc) && v <= |c| && w <= |c| && m == SkipWhite(c, w)
    requires ReadsDoc(ParseValue(TokensAt(c, v), d), doc, c, d, w)
    ensures var r := MemberAt(Some(key), TokensAt(c, v), d);
      if !Fits(doc, d) then Broken(r, c, w)
      else if Holds(c, m, COMMA) then r == AddMember(Some(key), Tree(doc), ParseMembers(TokensFrom(c, m + 1), d))
      else r == Parsed(Member(Some(key), Tree(doc), NoMember), w, TokensAt(c, m))
  {
    hide ParseValue, ParseMembers, MemberAt, TokensAt, TokensFrom, Fits;
    var r := ParseValue(TokensAt(c, v), d);
    if !Fits(doc, d) && r.Parsed? { BrokenStands(r, c, w); }
    MemberValue(c, key, v, d, r);
  }

  lemma {:induction false} FieldsAreRead(f: Fields, c: seq<byte>, o: nat, d: nat)
    requires GrammaticalFields(f) && d <= NESTING_LIMIT
    requires At(c, o, FieldsText(f)) && Holds(c, o + |FieldsText(f)|, CLOSE_OBJECT)
    ensures ReadsFields(ParseMembers(TokensFrom(c, o), d), f, c, d, o + |FieldsText(f)|)
    decreases f, 1
  {
    hide ParseMembers, MemberAt, TokensAt, TokensFrom, DocText, FieldsText, ValueText, QuotedText, MoreFieldsText;
    hide Fits, FitsFields, At, SkipWhite;
    FieldsFit(f, d);
    NameStands(f, c, o);
    var p := o + |f.before|;
    var k := p + |QuotedText(f.name)| + |f.gap|;
    NameTurn(f.name, c, p, d, k);
    if Paired(f.name) { FieldIsRead(f, c, k + 1, d, Characters(f.name)); }
  }

  /** The first member of an object and what the loop makes of the others. */
  lemma {:induction false} FieldsJoin(
    f: Fields, c: seq<byte>, d: nat, r: Outcome<Members>, more: Outcome<Members>, w: nat, q: nat)
    requires GrammaticalFields(f) && Paired(f.name) && d <= NESTING_LIMIT && w <= q < |c|
    requires !Fits(f.value, d) ==> Broken(r, c, w)
    requires Fits(f.value, d) && f.LastField? ==>
      r == Parsed(Member(Some(Characters(f.name)), Tree(f.value), NoMember), w, TokensAt(c, q))
    requires Fits(f.value, d) && f.MoreFields? ==>
      r == AddMember(Some(Characters(f.name)), Tree(f.value), more) && ReadsFields(more, f.rest, c, d, q)
    ensures ReadsFields(r, f, c, d, q)
  {
    hide TokensAt, TokensFrom, Fits, FitsFields, Tree, Paired, Characters;
    FieldsFit(f, d);
  }

  /** The value of a member and the members behind it. */
  lemma {:induction false} FieldIsRead(f: Fields, c: seq<byte>, o: nat, d: nat, key: CString)
    requires GrammaticalFields(f) && d <= NESTING_LIMIT && Paired(f.name) && key == Characters(f.name)
    requires At(c, o, ValueText(f)) && Holds(c, o + |ValueText(f)|, CLOSE_OBJECT)
    ensures ReadsFields(MemberAt(Some(key), TokensFrom(c, o), d), f, c, d, o + |ValueText(f)|)
    decreases f, 0
  {
    hide ParseValue, ParseMembers, MemberAt, TokensAt, TokensFrom, DocText, FieldsText, ValueText;
    hide Fits, FitsFields, Tree, Paired, At, SkipWhite;
    ValueStands(f, c, o);
    var v := o + |f.space|;
    var w := v + |DocText(f.value)|;
    var m := w + |f.after|;
    BehindStands(c, w, f.after, MoreFieldsText(f), if f.MoreFields? then FieldsText(f.rest) else [], CLOSE_OBJECT);
    DocIsRead(f.value, c, v, d);
    MemberTurn(key, f.value, c, v, d, w, m);
    if f.MoreFields? { FieldsAreRead(f.rest, c, m + 1, d); }
    var more := if f.MoreFields? then ParseMembers(TokensFrom(c, m + 1), d) else Failed(0, 0);
    FieldsJoin(f, c, d, MemberAt(Some(key), TokensFrom(c, o), d), more, w, o + |ValueText(f)|);
  }

  // ---- whole texts ----

  /** A text in a buffer, as cJSON_Parse or as cJSON_ParseWithLength is handed it, perhaps behind a byte order mark. */
  function InBuffer(marked: bool, before: Blank, doc: Doc, after: Blank, terminated: bool): seq<byte>
    requires Grammatical(doc)
  {
    MarkText(marked) + (before + (DocText(doc) + (after + Terminator(terminated))))
  }

  function MarkText(marked: bool): seq<byte> {
    if marked then [0xEF, 0xBB, 0xBF] else []
  }

  function Terminator(terminated: bool): seq<byte> {
    if terminated then [0] else []
  }

  lemma {:induction false} WhiteToEnd(c: seq<byte>, o: nat)
    requires o <= |c| && forall k :: o <= k < |c| ==> c[k] <= 32
    ensures SkipWhite(c, o) == if o < |c| then |c| - 1 else o
    decreases |c| - o
  {
    if o == |c| {
    } else {
      WhiteToEnd(c, o + 1);
    }
  }

  /** White space and perhaps a NUL behind a value that ends at `end`. */
  lemma TailStands(c: seq<byte>, end: nat, after: Blank, terminated: bool)
    requires At(c, end, after + Terminator(terminated)) && |c| == end + |after| + |Terminator(terminated)|
    ensures Ended(c, end) && SkipWhite(c, end) == if end < |c| then |c| - 1 else end
    ensures Holds(c, SkipWhite(c, end), 0) <==> terminated
  {
    var tail := after + Terminator(terminated);
    AtIndex(c, end, tail);
    forall k | end <= k < |c| ensures c[k] <= 32 { assert c[end + (k - end)] == tail[k - end]; }
    WhiteToEnd(c, end);
    if end < |c| { assert c[end + (|tail| - 1)] == tail[|tail| - 1]; }
  }

  /** White space and a value in front of `tail`. */
  lemma {:induction false} HeadStands(before: Blank, doc: Doc, tail: seq<byte>, c: seq<byte>, m: nat)
    requires Grammatical(doc) && At(c, m, before + (DocText(doc) + tail))
    ensures var o := m + |before|;
      At(c, o, DocText(doc)) && At(c, o + |DocText(doc)|, tail) && TokensFrom(c, m) == TokensAt(c, o)
  {
    hide DocText, TokensFrom, TokensAt, SkipWhite;
    var o := m + |before|;
    AtConcat(c, m, before, DocText(doc) + tail);
    AtConcat(c, o, DocText(doc), tail);
    DocStart(doc);
    StartsWith(c, o, DocText(doc));
    BlankIsSkipped(c, m, before);
  }

  /** A mark and the text behind it. */
  lemma MarkStands(marked: bool, text: seq<byte>, c: seq<byte>)
    requires c == MarkText(marked) + text
    ensures At(c, 0, MarkText(marked)) && At(c, |MarkText(marked)|, text)
    ensures |MarkText(marked)| == (if marked then 3 else 0) && (!marked ==> c == text)
  {
  }

  /** Neither white space nor a value starts with the first byte of a mark. */
  lemma {:induction false} NoMarkStarts(before: Blank, doc: Doc, tail: seq<byte>)
    requires Grammatical(doc)
    ensures var text := before + (DocText(doc) + tail);
      text != [] && text[0] != 0xEF
  {
    hide DocText;
    DocStart(doc);
  }

  /** A mark is skipped in a buffer of more than four bytes, and nothing else is. */
  lemma MarkIsSkipped(marked: bool, c: seq<byte>)
    requires At(c, 0, MarkText(marked)) && (!marked ==> c != [] && c[0] != 0xEF)
    ensures SkipBom(c) == if marked && 4 < |c| then 3 else 0
  {
    if !marked && At(c, 0, BOM) { StartsWith(c, 0, BOM); }
  }

  /** Otherwise it is no value. */
  lemma MarkIsNoValue(c: seq<byte>)
    requires At(c, 0, MarkText(true)) && |c| <= 4
    ensures ParseItem(c).Failed?
  {
    hide TokensAt;
    StartsWith(c, 0, MarkText(true));
    MarkIsSkipped(true, c);
    R.NoWord(c, 0);
    LeafValue(c, 0, 0);
  }

  /** A text that starts at the first byte the parser looks at, and goes on to the end of the buffer. */
  lemma {:induction false} TextIsRead(
    c: seq<byte>, before: Blank, doc: Doc, after: Blank, terminated: bool, requireNul: bool)
    requires Grammatical(doc)
    requires var text := before + (DocText(doc) + (after + Terminator(terminated)));
      At(c, SkipBom(c), text) && |c| == SkipBom(c) + |text|
    ensures var end := SkipBom(c) + |before| + |DocText(doc)|;
      var r := ParseWithLengthOpts(c, requireNul);
      if Fits(doc, 0) && !requireNul then r == (Some(Tree(doc)), end)
      else if Fits(doc, 0) && terminated then r == (Some(Tree(doc)), |c| - 1)
      else r.0.None? || (!requireNul && doc.Numeric? && r.1 < end)
  {
    hide Fits, Tree, DocText, TokensAt, JsonParse.ParseValue, SkipBom, SkipWhite;
    var o := SkipBom(c) + |before|;
    var end := o + |DocText(doc)|;
    HeadStands(before, doc, after + Terminator(terminated), c, SkipBom(c));
    TailStands(c, end, after, terminated);
    DocIsRead(doc, c, o, 0);
    TokenAt(c, SkipWhite(c, end));
    var r := ParseItem(c);
    if !Fits(doc, 0) && r.Parsed? {
      BrokenStands(r, c, end);
      TokenAt(c, r.end);
    }
  }

  /**
   Every text of the grammar, whatever white space and spelling it uses, with or without a NUL behind it: the
   parser returns the tree it denotes exactly when every surrogate is paired, no number has more than
   MAX_PARSED characters and no container nests deeper than NESTING_LIMIT. A text it cannot read whole is
   refused, unless the caller accepts a prefix and the text is a single number that is too long. A byte order
   mark in front changes nothing, unless the buffer has no more than four bytes.
   */
  lemma {:induction false} DocumentIsRead(
    marked: bool, before: Blank, doc: Doc, after: Blank, terminated: bool, requireNul: bool)
    requires Grammatical(doc)
    ensures var c := InBuffer(marked, before, doc, after, terminated);
      var end := |MarkText(marked)| + |before| + |DocText(doc)|;
      var r := ParseWithLengthOpts(c, requireNul);
      if marked && |c| <= 4 then r.0.None?
      else if Fits(doc, 0) && !requireNul then r == (Some(Tree(doc)), end)
      else if Fits(doc, 0) && terminated then r == (Some(Tree(doc)), |c| - 1)
      else r.0.None? || (!requireNul && doc.Numeric? && r.1 < end)
  {
    hide Fits, Tree, DocText, ParseItem, SkipBom, SkipWhite, MarkText;
    var c := InBuffer(marked, before, doc, after, terminated);
    var text := before + (DocText(doc) + (after + Terminator(terminated)));
    MarkStands(marked, text, c);
    NoMarkStarts(before, doc, after + Terminator(terminated));
    MarkIsSkipped(marked, c);
    if marked && |c| <= 4 {
      MarkIsNoValue(c);
    } else {
      TextIsRead(c, before, doc, after, terminated, requireNul);
    }
  }

  // ---- what must follow an item ----

  /** Nothing but white space, which any byte up to 32 is, and a NUL as the last byte of the buffer. */
  predicate NulBehind(c: seq<byte>, o: nat) {
    o < |c| && (forall k :: o <= k < |c| ==> c[k] <= 32) && c[|c| - 1] == 0
  }

  lemma {:induction false} NulStands(c: seq<byte>, o: nat)
    requires o <= |c|
    ensures Holds(c, SkipWhite(c, o), 0) <==> NulBehind(c, o)
    ensures forall k :: o <= k < SkipWhite(c, o) ==> c[k] <= 32
    ensures SkipWhite(c, o) + 1 < |c| ==> c[SkipWhite(c, o)] > 32
    decreases |c| - o
  {
    if o == |c| || c[o] > 32 {
    } else {
      NulStands(c, o + 1);
    }
  }

  /** Where the item of a buffer was read, what is ahead are the tokens behind it. */
  lemma ItemReadsOn(c: seq<byte>)
    ensures O.ReadsOn(ParseItem(c), c)
  {
    O.TokensWithin(c, SkipBom(c));
    O.ValueWithin(c, TokensFrom(c, SkipBom(c)), 0);
  }

  /**
   For every buffer: who asks for a terminating NUL gets the item exactly when a NUL ends the buffer and only
   white space stands in front of it; else the error is at the first byte that does not belong there.
   */
  lemma NulIsRequired(c: seq<byte>)
    ensures var (item, end) := ParseWithLengthOpts(c, false);
      var strict := ParseWithLengthOpts(c, true);
      && end <= |c|
      && (item.None? ==> strict == (None, end) && (c != [] ==> end < |c|))
      && (item.Some? && NulBehind(c, end) ==> strict == (item, |c| - 1))
      && (item.Some? && !NulBehind(c, end) ==>
        && strict.0.None? && strict.1 < |c| && (strict.1 < end ==> strict.1 + 1 == end == |c|)
        && (forall k :: end <= k < strict.1 ==> c[k] <= 32) && (strict.1 + 1 < |c| ==> c[strict.1] > 32))
  {
    hide ParseItem, SkipWhite, TokensAt;
    ItemReadsOn(c);
    var r := ParseItem(c);
    if r.Parsed? {
      NulStands(c, r.end);
      TokenAt(c, SkipWhite(c, r.end));
    }
  }
}
