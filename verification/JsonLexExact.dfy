/**
 Which bytes the lexical layer takes for which token: numbers in the form strtod expects, literals, words,
 punctuation and white space, each described without the functions that read it.
 */
module JsonLexExact {
  import opened Bytes
  import opened Json
  import opened JsonNumber
  import opened JsonString
  import opened JsonText
  import opened JsonLex
  import opened JsonParse
  import opened JsonParseSteps
  import R = JsonRoundTrip
  import S = JsonStringExact

  // ---- the form of a number ----

  predicate Signed(t: seq<byte>, i: nat, j: nat) {
    j <= |t| && (j == i || (j == i + 1 && t[i] in {PLUS, MINUS}))
  }

  predicate DigitsIn(t: seq<byte>, i: nat, j: nat) {
    i <= j <= |t| && forall k :: i <= k < j ==> Digit(t[k])
  }

  /** A sign, digits and a point with more digits, each of them optional, but with a digit somewhere. */
  ghost predicate Mantissa(t: seq<byte>, m: nat) {
    exists s: nat, w: nat :: Signed(t, 0, s) && DigitsIn(t, s, w) && Fraction(t, s, w, m)
  }

  predicate Fraction(t: seq<byte>, s: nat, w: nat, m: nat) {
    || (m == w && s < w)
    || (Holds(t, w, DOT) && DigitsIn(t, w + 1, m) && (s < w || w + 1 < m))
  }

  /** The letter e, a sign and digits; only the sign is optional. */
  ghost predicate Power(t: seq<byte>, m: nat, n: nat) {
    && (Holds(t, m, LOWER_E) || Holds(t, m, UPPER_E))
    && exists g: nat :: Signed(t, m + 1, g) && DigitsIn(t, g, n) && g < n
  }

  /** The first `n` bytes are a decimal number of the form the C standard gives strtod. */
  ghost predicate IsForm(t: seq<byte>, n: nat) {
    exists m: nat :: Mantissa(t, m) && (n == m || Power(t, m, n))
  }

  ghost predicate IsLongest(t: seq<byte>, n: nat) {
    IsForm(t, n) && forall k: nat :: IsForm(t, k) ==> k <= n
  }

  lemma {:induction false} DigitsReach(t: seq<byte>, i: nat, j: nat)
    requires DigitsIn(t, i, j)
    ensures j <= DigitsEnd(t, i)
    ensures j < |t| && !Digit(t[j]) ==> j == DigitsEnd(t, i)
  {
  }

  /** Behind an optional sign there is no other one. */
  lemma SignIs(t: seq<byte>, i: nat, j: nat)
    requires Signed(t, i, j) && (j < |t| ==> t[j] !in {PLUS, MINUS}) && i <= |t|
    ensures j == SignEnd(t, i)
  {
  }

  lemma MantissaReaches(t: seq<byte>, m: nat)
    requires Mantissa(t, m)
    ensures 0 < m <= MantissaEnd(t)
    ensures m < |t| && t[m] in {LOWER_E, UPPER_E} ==> m == MantissaEnd(t)
  {
    hide SignEnd, DigitsEnd;
    var s: nat, w: nat :| Signed(t, 0, s) && DigitsIn(t, s, w) && Fraction(t, s, w, m);
    SignIs(t, 0, s);
    DigitsReach(t, s, w);
    if m != w { DigitsReach(t, w + 1, m); }
  }

  lemma MantissaIsForm(t: seq<byte>)
    requires MantissaEnd(t) > 0
    ensures Mantissa(t, MantissaEnd(t))
  {
    hide DigitsEnd;
    var s := SignEnd(t, 0);
    var w := DigitsEnd(t, s);
    assert Signed(t, 0, s) && DigitsIn(t, s, w) && Fraction(t, s, w, MantissaEnd(t));
  }

  lemma PowerReaches(t: seq<byte>, m: nat, n: nat)
    requires Power(t, m, n) && m == MantissaEnd(t) > 0
    ensures n <= StrtodLength(t)
  {
    hide SignEnd, DigitsEnd, MantissaEnd;
    var g: nat :| Signed(t, m + 1, g) && DigitsIn(t, g, n) && g < n;
    SignIs(t, m + 1, g);
    DigitsReach(t, g, n);
  }

  lemma PowerIsForm(t: seq<byte>)
    requires StrtodLength(t) > MantissaEnd(t)
    ensures Power(t, MantissaEnd(t), StrtodLength(t))
  {
    hide DigitsEnd, MantissaEnd;
    var m := MantissaEnd(t);
    var g := SignEnd(t, m + 1);
    assert Signed(t, m + 1, g) && DigitsIn(t, g, StrtodLength(t)) && g < StrtodLength(t);
  }

  /** strtod takes the longest beginning of its form, and nothing when there is none. */
  lemma StrtodIsLongest(t: seq<byte>)
    ensures StrtodLength(t) > 0 ==> IsLongest(t, StrtodLength(t))
    ensures StrtodLength(t) == 0 ==> forall k: nat :: !IsForm(t, k)
  {
    hide StrtodLength, MantissaEnd, Mantissa, Power;
    forall k: nat | IsForm(t, k) ensures 0 < k <= StrtodLength(t) {
      var m: nat :| Mantissa(t, m) && (k == m || Power(t, m, k));
      MantissaReaches(t, m);
      LengthBounds(t);
      if k != m {
        PowerGrows(t, m, k);
        PowerReaches(t, m, k);
      }
    }
    LengthBounds(t);
    if StrtodLength(t) > 0 {
      MantissaIsForm(t);
      if StrtodLength(t) > MantissaEnd(t) { PowerIsForm(t); }
    }
  }

  lemma PowerGrows(t: seq<byte>, m: nat, n: nat)
    requires Power(t, m, n)
    ensures m < n && m < |t| && t[m] in {LOWER_E, UPPER_E}
  {
  }

  lemma LengthBounds(t: seq<byte>)
    ensures MantissaEnd(t) <= StrtodLength(t)
    ensures MantissaEnd(t) == 0 ==> StrtodLength(t) == 0
  {
    hide MantissaEnd;
  }

  // ---- numbers in a buffer ----

  lemma FormBytes(t: seq<byte>, k: nat)
    requires IsForm(t, k)
    ensures k <= |t| && forall i :: 0 <= i < k ==> NumberByte(t[i])
  {
    var m: nat :| Mantissa(t, m) && (k == m || Power(t, m, k));
    MantissaBytes(t, m);
    if k != m { PowerBytes(t, m, k); }
  }

  lemma MantissaBytes(t: seq<byte>, m: nat)
    requires Mantissa(t, m)
    ensures m <= |t| && forall i :: 0 <= i < m ==> NumberByte(t[i])
  {
  }

  lemma PowerBytes(t: seq<byte>, m: nat, n: nat)
    requires Power(t, m, n)
    ensures m < n <= |t| && forall i :: m <= i < n ==> NumberByte(t[i])
  {
  }

  lemma MantissaIsLocal(t: seq<byte>, u: seq<byte>, m: nat)
    requires Mantissa(t, m) && m <= |u| && forall i :: 0 <= i < m ==> i < |t| && t[i] == u[i]
    ensures Mantissa(u, m)
  {
    var s: nat, w: nat :| Signed(t, 0, s) && DigitsIn(t, s, w) && Fraction(t, s, w, m);
    assert Signed(u, 0, s) && DigitsIn(u, s, w) && Fraction(u, s, w, m);
  }

  lemma PowerIsLocal(t: seq<byte>, u: seq<byte>, m: nat, n: nat)
    requires Power(t, m, n) && n <= |u| && forall i :: 0 <= i < n ==> i < |t| && t[i] == u[i]
    ensures Power(u, m, n)
  {
    var g: nat :| Signed(t, m + 1, g) && DigitsIn(t, g, n) && g < n;
    assert Signed(u, m + 1, g) && DigitsIn(u, g, n) && g < n;
  }

  /** Whether a beginning has the form depends on nothing behind it. */
  lemma FormIsLocal(t: seq<byte>, u: seq<byte>, k: nat)
    requires IsForm(t, k) && k <= |u| && forall i :: 0 <= i < k ==> i < |t| && t[i] == u[i]
    ensures IsForm(u, k)
  {
    hide Mantissa, Power;
    var m: nat :| Mantissa(t, m) && (k == m || Power(t, m, k));
    MantissaBytes(t, m);
    if k != m {
      PowerBytes(t, m, k);
      PowerIsLocal(t, u, m, k);
    }
    MantissaIsLocal(t, u, m);
  }

  /** What parse_number may copy. */
  function Window(c: seq<byte>, o: nat): seq<byte>
    requires o <= |c|
  {
    if o + MAX_PARSED <= |c| then c[o..o + MAX_PARSED] else c[o..]
  }

  /** A number that ends at `end`: the longest beginning of the form in the next 63 bytes. */
  ghost predicate NumberStands(c: seq<byte>, o: nat, v: Scalar, end: nat) {
    o < end <= |c| && IsLongest(Window(c, o), end - o) && v.Number? && v.token == c[o..end]
  }

  lemma NumberIsExact(c: seq<byte>, o: nat, v: Scalar, end: nat)
    requires o < |c|
    ensures NumberAt(c, o) == Read(v, end) <==> NumberStands(c, o, v, end)
  {
    hide IsForm, StrtodLength;
    var w, e := Window(c, o), SpanEnd(c, o, o);
    var t := c[o..e];
    StrtodIsLongest(t);
    SpanIs(c, o);
    forall k: nat ensures IsForm(w, k) <==> IsForm(t, k) {
      if IsForm(w, k) {
        FormBytes(w, k);
        FormIsLocal(w, t, k);
      }
      if IsForm(t, k) {
        FormBytes(t, k);
        FormIsLocal(t, w, k);
      }
    }
    TokenOf(c, o, e, StrtodLength(t));
  }

  lemma TokenOf(c: seq<byte>, o: nat, e: nat, n: nat)
    requires o <= e <= |c| && n <= e - o
    ensures c[o..e][..n] == c[o..o + n]
  {
  }

  /** The bytes parse_number copies: the number characters at the beginning of the window. */
  lemma {:induction false} SpanIs(c: seq<byte>, o: nat)
    requires o < |c|
    ensures var w, n := Window(c, o), SpanEnd(c, o, o) - o;
      && n <= |w| && c[o..o + n] == w[..n] && (forall k :: 0 <= k < n ==> NumberByte(w[k]))
      && (n < |w| ==> !NumberByte(w[n]))
  {
    SpanStops(c, o, o);
  }

  lemma {:induction false} SpanStops(c: seq<byte>, o: nat, p: nat)
    requires o <= p <= o + MAX_PARSED && p <= |c|
    ensures var e := SpanEnd(c, o, p); e == o + MAX_PARSED || e == |c| || !NumberByte(c[e])
    decreases |c| - p
  {
    if p == o + MAX_PARSED || p == |c| || !NumberByte(c[p]) {
    } else {
      SpanStops(c, o, p + 1);
    }
  }

  // ---- leaves ----

  predicate WordStands(c: seq<byte>, o: nat, word: seq<byte>, end: nat) {
    At(c, o, word) && end == o + |word|
  }

  /** A leaf of the text and where it ends. */
  ghost predicate LeafStands(c: seq<byte>, o: nat, v: Scalar, end: nat)
    requires o < |c|
  {
    match v
    case Null => WordStands(c, o, [110, 117, 108, 108], end)
    case False => WordStands(c, o, [102, 97, 108, 115, 101], end)
    case True => WordStands(c, o, [116, 114, 117, 101], end)
    case String(text) => text.Some? && S.IsLiteral(c, o, text.value, end)
    case Number(_) => (c[o] == MINUS || Digit(c[o])) && NumberStands(c, o, v, end)
    case Raw(_) => false
  }

  /** A leaf is read exactly where it stands. */
  lemma LeafIsExact(c: seq<byte>, o: nat, v: Scalar, end: nat)
    requires o < |c|
    ensures LeafAt(c, o) == Read(v, end) <==> LeafStands(c, o, v, end)
  {
    hide NumberAt, NumberStands, S.IsLiteral, JsonString.ParseString;
    if c[o] in {110, 102, 116} {
      WordIsExact(c, o, v, end);
    } else {
      R.NoWord(c, o);
      NoWordStands(c, o, end);
      NumberIsExact(c, o, v, end);
      if v.String? && v.text.Some? { S.StringIsExact(c, o, v.text.value, end); }
      LiteralStart(c, o, v, end);
    }
  }

  lemma LiteralStart(c: seq<byte>, o: nat, v: Scalar, end: nat)
    requires o < |c|
    ensures v.String? && v.text.Some? && S.IsLiteral(c, o, v.text.value, end) ==> c[o] == QUOTE
  {
  }

  lemma NoWordStands(c: seq<byte>, o: nat, end: nat)
    requires o < |c| && c[o] !in {110, 102, 116}
    ensures !WordStands(c, o, NULL_TEXT, end) && !WordStands(c, o, FALSE_TEXT, end) && !WordStands(c, o, TRUE_TEXT, end)
  {
    if At(c, o, NULL_TEXT) { StartsWith(c, o, NULL_TEXT); }
    if At(c, o, FALSE_TEXT) { StartsWith(c, o, FALSE_TEXT); }
    if At(c, o, TRUE_TEXT) { StartsWith(c, o, TRUE_TEXT); }
  }

  /** At the first letter of a word there is that word or nothing. */
  lemma WordIsExact(c: seq<byte>, o: nat, v: Scalar, end: nat)
    requires o < |c| && c[o] in {110, 102, 116}
    ensures LeafAt(c, o) == Read(v, end) <==> LeafStands(c, o, v, end)
  {
    hide NumberStands;
    LiteralStart(c, o, v, end);
    if At(c, o, NULL_TEXT) { StartsWith(c, o, NULL_TEXT); }
    if At(c, o, FALSE_TEXT) { StartsWith(c, o, FALSE_TEXT); }
    if At(c, o, TRUE_TEXT) { StartsWith(c, o, TRUE_TEXT); }
  }

  // ---- tokens ----

  /** White space from `o` up to `p`: any bytes up to 32. */
  predicate WhiteIn(c: seq<byte>, o: nat, p: nat) {
    o <= p <= |c| && forall k :: o <= k < p ==> c[k] <= 32
  }

  function Mark(token: Token): byte
    requires !token.Leaf?
  {
    match token
    case OpenArray => 91
    case CloseArray => 93
    case OpenObject => 123
    case CloseObject => 125
    case Comma => 44
    case Colon => 58
  }

  ghost predicate TokenStands(c: seq<byte>, p: nat, token: Token, end: nat) {
    p < |c| && if token.Leaf? then LeafStands(c, p, token.item, end) else c[p] == Mark(token) && end == p + 1
  }

  /** The next token is the one that stands behind white space, and the others are those behind it. */
  lemma {:induction false} TokenIsExact(c: seq<byte>, o: nat, token: Token, start: nat, end: nat, rest: Tokens)
    requires o <= |c|
    ensures TokensFrom(c, o) == Ahead(token, start, end, rest) <==>
      WhiteIn(c, o, start) && TokenStands(c, start, token, end) && end <= |c| && rest == TokensFrom(c, end)
  {
    hide TokensAt, TokenStands, SkipWhite;
    WhiteIs(c, o);
    TokenStart(c, start, token, end);
    PieceIsExact(c, SkipWhite(c, o), token, start, end, rest);
  }

  lemma TokenEnds(c: seq<byte>, p: nat, token: Token, end: nat)
    requires TokenStands(c, p, token, end)
    ensures end <= |c|
  {
    hide LeafStands;
    if token.Leaf? { LeafStart(c, p, token.item, end); }
  }

  lemma {:induction false} StopAt(c: seq<byte>, p: nat)
    requires p <= |c| && TokensAt(c, p).Stop?
    ensures var ts := TokensAt(c, p);
      && ts.at == p < |c|
      && if c[p] == QUOTE then ParseString(c, p) == StringFailed(ts.badValue) && ts.badName == ts.badValue
        else ts.badValue == p && ts.badName == p + 1
  {
    if At(c, p, NULL_TEXT) { StartsWith(c, p, NULL_TEXT); }
    if At(c, p, FALSE_TEXT) { StartsWith(c, p, FALSE_TEXT); }
    if At(c, p, TRUE_TEXT) { StartsWith(c, p, TRUE_TEXT); }
  }

  /** Where the list stops no token stands, and there is a byte; it ends only with the buffer. */
  lemma {:induction false} StopIsExact(c: seq<byte>, o: nat)
    requires o <= |c|
    ensures var ts := TokensFrom(c, o);
      && (ts.End? ==> ts.at == o == |c|)
      && (ts.Stop? ==>
        && WhiteIn(c, o, ts.at) && ts.at < |c| && (forall token, end: nat :: !TokenStands(c, ts.at, token, end))
        && if c[ts.at] == QUOTE then ParseString(c, ts.at) == StringFailed(ts.badValue) && ts.badName == ts.badValue
          else ts.badValue == ts.at && ts.badName == ts.at + 1)
  {
    hide LeafStands, LeafAt, TokensAt, TokenStands;
    var ts, p := TokensFrom(c, o), SkipWhite(c, o);
    TokenAt(c, p);
    if ts.Stop? {
      StopAt(c, p);
      WhiteIs(c, o);
      forall token, end: nat ensures !TokenStands(c, ts.at, token, end) {
        if TokenStands(c, ts.at, token, end) {
          TokenStart(c, ts.at, token, end);
          TokenEnds(c, ts.at, token, end);
          TokenIsExact(c, o, token, ts.at, end, TokensFrom(c, end));
        }
      }
    }
  }

  /** What is read at `p` is what stands there. */
  lemma {:induction false} PieceIsExact(c: seq<byte>, p: nat, token: Token, start: nat, end: nat, rest: Tokens)
    requires p <= |c|
    ensures TokensAt(c, p) == Ahead(token, start, end, rest) <==>
      start == p && TokenStands(c, p, token, end) && end <= |c| && rest == TokensFrom(c, end)
  {
    hide LeafAt, LeafStands, TokensAt, TokensFrom;
    TokenAt(c, p);
    if p < |c| && token.Leaf? {
      LeafIsExact(c, p, token.item, end);
      LeafStart(c, p, token.item, end);
    }
  }

  /** No token starts with white space. */
  lemma TokenStart(c: seq<byte>, p: nat, token: Token, end: nat)
    ensures TokenStands(c, p, token, end) ==> p < |c| && c[p] > 32
  {
    hide LeafStands;
    if p < |c| && token.Leaf? { LeafStart(c, p, token.item, end); }
  }

  /** No leaf starts with white space or punctuation. */
  lemma LeafStart(c: seq<byte>, o: nat, v: Scalar, end: nat)
    requires o < |c|
    ensures LeafStands(c, o, v, end) ==> c[o] > 32 && Punctuation(c[o]).None? && end <= |c|
  {
    hide IsLongest;
    LiteralStart(c, o, v, end);
    if At(c, o, NULL_TEXT) { StartsWith(c, o, NULL_TEXT); }
    if At(c, o, FALSE_TEXT) { StartsWith(c, o, FALSE_TEXT); }
    if At(c, o, TRUE_TEXT) { StartsWith(c, o, TRUE_TEXT); }
  }

  lemma {:induction false} WhiteIs(c: seq<byte>, o: nat)
    requires o <= |c|
    ensures WhiteIn(c, o, SkipWhite(c, o))
    ensures forall p: nat :: WhiteIn(c, o, p) && p < |c| && c[p] > 32 ==> p == SkipWhite(c, o)
    decreases |c| - o
  {
    if o == |c| || c[o] > 32 {
    } else {
      WhiteIs(c, o + 1);
    }
  }
}
