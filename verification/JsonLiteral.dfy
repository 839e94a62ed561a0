/**
 String literals as section 7 of RFC 8259 writes them, what they denote, and the theorem that
 parse_string reads exactly the well-paired ones and yields the UTF-8 encoding of what they denote.
 */
module JsonLiteral {
  import opened Bytes
  import opened Unicode
  import opened JsonString

  /** One `char` of the grammar: an unescaped character, a one-letter escape or a \uXXXX code unit. */
  datatype Piece = Plain(cp: nat) | Short(letter: byte) | Unit(digits: seq<byte>)

  predicate Grammatical(p: Piece) {
    match p
    case Plain(cp) => 0x20 <= cp < CODE_POINTS && cp != 34 && cp != 92 && !HighSurrogate(cp) && !LowSurrogate(cp)
    case Short(l) => l in {34, 92, 47, 98, 102, 110, 114, 116}
    case Unit(h) => FourHexDigits(h)
  }

  predicate AllGrammatical(ps: seq<Piece>) {
    forall i :: 0 <= i < |ps| ==> Grammatical(ps[i])
  }

  /** How a piece is written. */
  function Written(p: Piece): seq<byte>
    requires Grammatical(p)
  {
    match p
    case Plain(cp) => Utf8(cp)
    case Short(l) => [BACKSLASH, l]
    case Unit(h) => [BACKSLASH, LETTER_U] + h
  }

  function Body(ps: seq<Piece>): seq<byte>
    requires AllGrammatical(ps)
  {
    if ps == [] then [] else Written(ps[0]) + Body(ps[1..])
  }

  /** The character a one-letter escape denotes: itself, or the control character named by the letter. */
  function Escaped(letter: byte): (cp: nat)
    ensures cp < 256
  {
    if letter == 98 then 0x08
    else if letter == 116 then 0x09
    else if letter == 110 then 0x0A
    else if letter == 102 then 0x0C
    else if letter == 114 then 0x0D
    else letter
  }

  predicate HasLowUnit(ps: seq<Piece>, i: nat)
    requires AllGrammatical(ps)
  {
    i < |ps| && ps[i].Unit? && LowSurrogate(Hex4(ps[i].digits))
  }

  /** The characters a literal denotes, a surrogate pair denoting one; none when a surrogate stands alone. */
  function Denoted(ps: seq<Piece>): (r: Option<seq<nat>>)
    requires AllGrammatical(ps)
    ensures r.Some? ==> forall i :: 0 <= i < |r.value| ==> r.value[i] < CODE_POINTS
  {
    if ps == [] then Some([])
    else
      match ps[0]
      case Plain(cp) => Cons(cp, Denoted(ps[1..]))
      case Short(l) => Cons(Escaped(l), Denoted(ps[1..]))
      case Unit(h) =>
        var u := Hex4(h);
        if LowSurrogate(u) then None
        else if !HighSurrogate(u) then Cons(u, Denoted(ps[1..]))
        else if HasLowUnit(ps, 1) then Cons(Supplementary(u, Hex4(ps[1].digits)), Denoted(ps[2..]))
        else None
  }

  function Cons(cp: nat, rest: Option<seq<nat>>): Option<seq<nat>> {
    if rest.Some? then Some([cp] + rest.value) else None
  }

  /** Bytes other than a backslash are copied. */
  lemma {:induction false} DecodeCopies(c: seq<byte>, p: nat, s: seq<byte>, e: nat)
    requires At(c, p, s) && p + |s| <= e < |c|
    requires BACKSLASH !in s
    ensures Decode(c, p, e) == Prepend(s, Decode(c, p + |s|, e))
    decreases |s|
  {
    if s == [] {
    } else {
      AtIndex(c, p, s);
      assert s == [s[0]] + s[1..];
      AtConcat(c, p, [s[0]], s[1..]);
      DecodeCopies(c, p + 1, s[1..], e);
      PrependTwice([s[0]], s[1..], Decode(c, p + |s|, e));
    }
  }

  lemma {:induction false} ScanSkips(c: seq<byte>, p: nat, s: seq<byte>)
    requires At(c, p, s)
    requires BACKSLASH !in s && QUOTE !in s
    ensures ScanQuote(c, p) == ScanQuote(c, p + |s|)
    decreases |s|
  {
    if s == [] {
    } else {
      AtIndex(c, p, s);
      assert s == [s[0]] + s[1..];
      AtConcat(c, p, [s[0]], s[1..]);
      ScanSkips(c, p + 1, s[1..]);
    }
  }

  lemma PlainBytes(cp: nat)
    requires Grammatical(Plain(cp))
    ensures BACKSLASH !in Utf8(cp) && QUOTE !in Utf8(cp)
  {
  }

  lemma {:induction false} FirstPiece(c: seq<byte>, p: nat, ps: seq<Piece>)
    requires AllGrammatical(ps) && ps != []
    requires At(c, p, Body(ps))
    ensures At(c, p, Written(ps[0]))
    ensures At(c, p + |Written(ps[0])|, Body(ps[1..]))
    ensures |Body(ps)| == |Written(ps[0])| + |Body(ps[1..])|
  {
    hide Written, At;
    AtConcat(c, p, Written(ps[0]), Body(ps[1..]));
  }

  lemma ScanPasses(c: seq<byte>, p: nat, x: Piece)
    requires Grammatical(x) && At(c, p, Written(x))
    ensures ScanQuote(c, p) == ScanQuote(c, p + |Written(x)|)
  {
    match x {
      case Plain(cp) => PlainBytes(cp); ScanSkips(c, p, Written(x));
      case Short(l) =>
        AtIndex(c, p, [BACKSLASH, l]);
        assert c[p + 0] == BACKSLASH;
      case Unit(h) =>
        UnitBytes(c, p, h);
        ScanSkips(c, p + 2, h);
    }
  }

  /** The size scan finds the closing quote of a literal. */
  lemma {:induction false} ScanFindsQuote(c: seq<byte>, p: nat, ps: seq<Piece>)
    requires AllGrammatical(ps)
    requires At(c, p, Body(ps)) && p + |Body(ps)| < |c| && c[p + |Body(ps)|] == QUOTE
    ensures ScanQuote(c, p) == Some(p + |Body(ps)|)
    decreases |ps|
  {
    hide Written;
    if ps == [] {
    } else {
      FirstPiece(c, p, ps);
      ScanPasses(c, p, ps[0]);
      ScanFindsQuote(c, p + |Written(ps[0])|, ps[1..]);
    }
  }

  /** What the UTF-16 step sees at a \uXXXX piece. */
  lemma {:induction false} UnitStep(c: seq<byte>, p: nat, ps: seq<Piece>, e: nat)
    requires AllGrammatical(ps) && ps != [] && ps[0].Unit?
    requires At(c, p, Body(ps)) && e == p + |Body(ps)| < |c|
    ensures e - p >= 6 && c[p] == BACKSLASH && c[p + 1] == LETTER_U
    ensures c[p + 2..p + 6] == ps[0].digits
    ensures |ps| > 1 && ps[1].Unit? ==>
      e - p >= 12 && c[p + 6] == BACKSLASH && c[p + 7] == LETTER_U && c[p + 8..p + 12] == ps[1].digits
    ensures !(|ps| > 1 && ps[1].Unit?) ==>
      e - p < 12 || c[p + 6] != BACKSLASH || c[p + 7] != LETTER_U
  {
    FirstPiece(c, p, ps);
    UnitBytes(c, p, ps[0].digits);
    var rest := ps[1..];
    if |ps| > 1 {
      FirstPiece(c, p + 6, rest);
      AtIndex(c, p + 6, Written(rest[0]));
      match rest[0] {
        case Unit(h) => UnitBytes(c, p + 6, h);
        case Short(_) => assert Written(rest[0])[1] != LETTER_U;
        case Plain(cp) =>
          PlainBytes(cp);
          assert Utf8(cp)[0] in Utf8(cp);
          assert c[p + 6 + 0] != BACKSLASH;
      }
    }
  }

  lemma UnitBytes(c: seq<byte>, p: nat, h: seq<byte>)
    requires FourHexDigits(h) && At(c, p, Written(Unit(h)))
    ensures c[p] == BACKSLASH && c[p + 1] == LETTER_U && c[p + 2..p + 6] == h
  {
    AtConcat(c, p, [BACKSLASH, LETTER_U], h);
    AtIndex(c, p, [BACKSLASH, LETTER_U]);
    assert c[p + 0] == BACKSLASH && c[p + 1] == LETTER_U;
  }

  lemma DecodeShort(c: seq<byte>, p: nat, l: byte, e: nat)
    requires Grammatical(Short(l)) && At(c, p, [BACKSLASH, l]) && p + 2 <= e < |c|
    ensures Decode(c, p, e) == Prepend(Utf8(Escaped(l)), Decode(c, p + 2, e))
  {
    AtIndex(c, p, [BACKSLASH, l]);
    assert c[p + 0] == BACKSLASH && c[p + 1] == l;
  }

  lemma DecodePlain(c: seq<byte>, p: nat, cp: nat, e: nat)
    requires Grammatical(Plain(cp)) && At(c, p, Utf8(cp)) && p + |Utf8(cp)| <= e < |c|
    ensures Decode(c, p, e) == Prepend(Utf8(cp), Decode(c, p + |Utf8(cp)|, e))
  {
    PlainBytes(cp);
    DecodeCopies(c, p, Utf8(cp), e);
  }

  /** How many pieces the first denoted character takes. */
  function Width(ps: seq<Piece>): nat
    requires AllGrammatical(ps) && ps != []
  {
    if ps[0].Unit? && HighSurrogate(Hex4(ps[0].digits)) && HasLowUnit(ps, 1) then 2 else 1
  }

  lemma DecodeUnit(c: seq<byte>, p: nat, ps: seq<Piece>, e: nat)
    requires AllGrammatical(ps) && ps != [] && ps[0].Unit?
    requires At(c, p, Body(ps)) && e == p + |Body(ps)| < |c|
    ensures
      var u := Hex4(ps[0].digits);
      if LowSurrogate(u) || (HighSurrogate(u) && Width(ps) == 1) then Decode(c, p, e).Stuck?
      else if Width(ps) == 2 then p + 12 <= e &&
        Decode(c, p, e) == Prepend(Utf8(Supplementary(u, Hex4(ps[1].digits))), Decode(c, p + 12, e))
      else p + 6 <= e && Decode(c, p, e) == Prepend(Utf8(u), Decode(c, p + 6, e))
  {
    UnitStep(c, p, ps, e);
  }

  /** The decoding loop agrees with the denotation, piece by piece. */
  lemma {:induction false} DecodeDenotes(c: seq<byte>, p: nat, ps: seq<Piece>, e: nat)
    requires AllGrammatical(ps)
    requires At(c, p, Body(ps)) && e == p + |Body(ps)| < |c|
    ensures Denoted(ps).Some? ==> Decode(c, p, e) == Decoded(Utf8All(Denoted(ps).value))
    ensures Denoted(ps).None? ==> Decode(c, p, e).Stuck?
    decreases |ps|, 1
  {
    hide Utf16Literal, Utf8, ShortEscape, Escaped, At;
    if ps == [] {
    } else {
      FirstPiece(c, p, ps);
      var rest := ps[1..];
      match ps[0] {
        case Plain(cp) =>
          DecodePlain(c, p, cp, e);
          DecodeDenotes(c, p + |Utf8(cp)|, rest, e);
          ConsEncodes(cp, Denoted(rest));
        case Short(l) =>
          DecodeShort(c, p, l, e);
          DecodeDenotes(c, p + 2, rest, e);
          ConsEncodes(Escaped(l), Denoted(rest));
        case Unit(h) =>
          DecodeDenotesUnit(c, p, ps, e);
      }
    }
  }

  lemma {:induction false} DecodeDenotesUnit(c: seq<byte>, p: nat, ps: seq<Piece>, e: nat)
    requires AllGrammatical(ps) && ps != [] && ps[0].Unit?
    requires At(c, p, Body(ps)) && e == p + |Body(ps)| < |c|
    ensures Denoted(ps).Some? ==> Decode(c, p, e) == Decoded(Utf8All(Denoted(ps).value))
    ensures Denoted(ps).None? ==> Decode(c, p, e).Stuck?
    decreases |ps|, 0
  {
    hide Utf16Literal, Utf8, Supplementary;
    DecodeUnit(c, p, ps, e);
    FirstPiece(c, p, ps);
    var u, rest := Hex4(ps[0].digits), ps[1..];
    if Width(ps) == 2 {
      FirstPiece(c, p + 6, rest);
      assert ps[2..] == rest[1..];
      DecodeDenotes(c, p + 12, ps[2..], e);
      ConsEncodes(Supplementary(u, Hex4(ps[1].digits)), Denoted(ps[2..]));
    } else if !HighSurrogate(u) && !LowSurrogate(u) {
      DecodeDenotes(c, p + 6, rest, e);
      ConsEncodes(u, Denoted(rest));
    }
  }

  lemma ConsEncodes(cp: nat, rest: Option<seq<nat>>)
    requires cp < CODE_POINTS
    requires rest.Some? ==> forall i :: 0 <= i < |rest.value| ==> rest.value[i] < CODE_POINTS
    ensures rest.Some? ==> Utf8All(Cons(cp, rest).value) == Utf8(cp) + Utf8All(rest.value)
  {
    if rest.Some? { assert ([cp] + rest.value)[1..] == rest.value; }
  }

  /**
   parse_string on a grammatical literal: it succeeds exactly when every surrogate is paired, and then it
   stores the UTF-8 encoding of the denoted characters (up to a NUL, where a C string ends) and stands
   behind the closing quote.
   */
  lemma {:induction false} ParsesLiteral(c: seq<byte>, o: nat, ps: seq<Piece>)
    requires AllGrammatical(ps)
    requires At(c, o, [QUOTE] + Body(ps) + [QUOTE])
    ensures Denoted(ps).Some? <==> ParseString(c, o).StringParsed?
    ensures Denoted(ps).Some? ==>
      ParseString(c, o) == StringParsed(CStr(Utf8All(Denoted(ps).value)), o + |Body(ps)| + 2)
  {
    hide At, Body, Denoted, Utf8All, Decode, ScanQuote, Grammatical;
    QuotedStands(c, o, Body(ps));
    ScanFindsQuote(c, o + 1, ps);
    DecodeDenotes(c, o + 1, ps, o + 1 + |Body(ps)|);
  }

  /** A text in quotes. */
  lemma QuotedStands(c: seq<byte>, o: nat, body: seq<byte>)
    requires At(c, o, [QUOTE] + body + [QUOTE])
    ensures var e := o + 1 + |body|;
      e < |c| && c[o] == QUOTE && At(c, o + 1, body) && c[e] == QUOTE
  {
    AtConcat(c, o, [QUOTE] + body, [QUOTE]);
    AtConcat(c, o, [QUOTE], body);
    StartsWith(c, o, [QUOTE]);
    StartsWith(c, o + 1 + |body|, [QUOTE]);
  }

  /** The characters in front of the first U+0000. */
  function UpToNul(cps: seq<nat>): (r: seq<nat>)
    ensures r <= cps && 0 !in r
    ensures |r| < |cps| ==> cps[|r|] == 0
    ensures r == cps <==> 0 !in cps
  {
    if cps == [] || cps[0] == 0 then [] else [cps[0]] + UpToNul(cps[1..])
  }

  lemma NulByte(cp: nat)
    requires cp < CODE_POINTS
    ensures 0 in Utf8(cp) <==> cp == 0
  {
    if cp == 0 { assert Utf8(cp)[0] == 0; }
  }

  /** A C string of encoded characters ends between two characters. */
  lemma {:induction false} CStrOfCharacters(cps: seq<nat>)
    requires forall i :: 0 <= i < |cps| ==> cps[i] < CODE_POINTS
    ensures CStr(Utf8All(cps)) == Utf8All(UpToNul(cps))
  {
    hide Utf8;
    if cps == [] {
    } else {
      var first, rest := Utf8(cps[0]), Utf8All(cps[1..]);
      NulByte(cps[0]);
      if cps[0] == 0 {
        NulFirst();
      } else {
        CStrBehind(first, rest);
        CStrOfCharacters(cps[1..]);
        assert ([cps[0]] + UpToNul(cps[1..]))[1..] == UpToNul(cps[1..]);
      }
    }
  }

  lemma NulFirst()
    ensures Utf8(0) == [0]
  {
  }

  /**
   Decoding the stored bytes as UTF-8 gives the denoted characters up to the first U+0000, so all of them
   exactly when none is U+0000.
   */
  lemma {:induction false} ParsedLiteralDecodes(c: seq<byte>, o: nat, ps: seq<Piece>)
    requires AllGrammatical(ps) && Denoted(ps).Some?
    requires At(c, o, [QUOTE] + Body(ps) + [QUOTE])
    ensures ParseString(c, o).StringParsed?
    ensures DecodeUtf8(ParseString(c, o).text) == Some(UpToNul(Denoted(ps).value))
    ensures DecodeUtf8(ParseString(c, o).text) == Denoted(ps) <==> 0 !in Denoted(ps).value
  {
    hide ParseString, Denoted, DecodeUtf8, CStr, Utf8All, Body, UpToNul, At;
    var cps := Denoted(ps).value;
    ParsesLiteral(c, o, ps);
    CStrOfCharacters(cps);
    Utf8RoundTrip(UpToNul(cps));
  }
}
