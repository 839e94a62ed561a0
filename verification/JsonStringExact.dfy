/**
 Which bytes parse_string reads, grammatical or not, and what it makes of them: a description of the accepted
 literals that says nothing about how they are scanned or decoded.
 */
module JsonStringExact {
  import opened Bytes
  import opened Unicode
  import opened JsonString
  import opened JsonText
  import L = JsonLiteral

  /** A copied byte, a one-letter escape, or \u and any four bytes. */
  datatype Piece = Byte(b: byte) | Letter(letter: byte) | Code(digits: seq<byte>)

  /** The letters of the one-letter escapes: quote, slash, backslash, b, f, n, r and t. */
  const LETTERS: set<byte> := {34, 47, 92, 98, 102, 110, 114, 116}

  predicate IsPiece(x: Piece) {
    match x
    case Byte(b) => b != BACKSLASH
    case Letter(l) => l in LETTERS
    case Code(h) => |h| == 4
  }

  predicate ArePieces(xs: seq<Piece>) {
    forall i :: 0 <= i < |xs| ==> IsPiece(xs[i])
  }

  function PieceText(x: Piece): (r: seq<byte>)
    ensures |r| == if x.Byte? then 1 else if x.Letter? then 2 else 2 + |x.digits|
  {
    match x
    case Byte(b) => [b]
    case Letter(l) => [BACKSLASH, l]
    case Code(h) => [BACKSLASH, LETTER_U] + h
  }

  function PiecesText(xs: seq<Piece>): seq<byte> {
    if xs == [] then [] else PieceText(xs[0]) + PiecesText(xs[1..])
  }

  /** What pieces mean: bytes with bad digits count as the code unit 0, and a surrogate has to be paired. */
  function Meant(xs: seq<Piece>): Option<seq<byte>>
    requires ArePieces(xs)
    decreases |xs|
  {
    if xs == [] then Some([])
    else
      match xs[0]
      case Byte(b) => Behind([b], Meant(xs[1..]))
      case Letter(l) => Behind([L.Escaped(l)], Meant(xs[1..]))
      case Code(h) =>
        var u := Hex4(h);
        if LowSurrogate(u) then None
        else if !HighSurrogate(u) then Behind(Utf8(u), Meant(xs[1..]))
        else if HasLow(xs, 1) then Behind(Utf8(Supplementary(u, Hex4(xs[1].digits))), Meant(xs[2..]))
        else None
  }

  function Behind(b: seq<byte>, rest: Option<seq<byte>>): Option<seq<byte>> {
    if rest.Some? then Some(b + rest.value) else None
  }

  predicate HasLow(xs: seq<Piece>, i: nat)
    requires ArePieces(xs)
  {
    i < |xs| && xs[i].Code? && LowSurrogate(Hex4(xs[i].digits))
  }

  /** Text between quotes: pairs of a backslash and any byte, and bytes that are neither quote nor backslash. */
  predicate Quotable(s: seq<byte>)
    decreases |s|
  {
    if s == [] then true
    else if s[0] == BACKSLASH then |s| > 1 && Quotable(s[2..])
    else s[0] != QUOTE && Quotable(s[1..])
  }

  /**
   The pieces stand between `p` and the closing quote at `e`. Bad digits that end in the middle of a pair can
   shift the pieces by one, so that the last of them is a backslash and the closing quote.
   */
  predicate Between(c: seq<byte>, p: nat, e: nat, xs: seq<Piece>) {
    At(c, p, PiecesText(xs)) && Ends(p + |PiecesText(xs)|, e, xs)
  }

  predicate Ends(k: nat, e: nat, xs: seq<Piece>) {
    k == e || (k == e + 1 && (xs != [] ==> xs[|xs| - 1] == Letter(QUOTE)))
  }

  lemma {:induction false} FirstPiece(c: seq<byte>, p: nat, e: nat, xs: seq<Piece>)
    requires Between(c, p, e, xs) && xs != []
    ensures var n := |PieceText(xs[0])|;
      At(c, p, PieceText(xs[0])) && Between(c, p + n, e, xs[1..]) && p + |PiecesText(xs)| == p + n + |PiecesText(xs[1..])|
  {
    hide PieceText, At;
    AtConcat(c, p, PieceText(xs[0]), PiecesText(xs[1..]));
  }

  /** The bytes of a \u piece. */
  lemma CodeBytes(c: seq<byte>, p: nat, h: seq<byte>)
    requires |h| == 4 && At(c, p, PieceText(Code(h)))
    ensures Holds(c, p, BACKSLASH) && Holds(c, p + 1, LETTER_U) && p + 6 <= |c| && c[p + 2..p + 6] == h
  {
    AtConcat(c, p, [BACKSLASH, LETTER_U], h);
    AtIndex(c, p, [BACKSLASH, LETTER_U]);
    assert c[p + 0] == BACKSLASH && c[p + 1] == LETTER_U;
  }

  lemma LetterBytes(c: seq<byte>, p: nat, l: byte)
    requires At(c, p, PieceText(Letter(l)))
    ensures Holds(c, p, BACKSLASH) && Holds(c, p + 1, l)
  {
    AtIndex(c, p, [BACKSLASH, l]);
    assert c[p + 0] == BACKSLASH && c[p + 1] == l;
  }

  /** A \u piece is read in front of the closing quote. */
  lemma CodeStands(c: seq<byte>, p: nat, e: nat, xs: seq<Piece>)
    requires ArePieces(xs) && Between(c, p, e, xs) && xs != [] && xs[0].Code?
    ensures p + 6 <= e && p + 6 <= |c| && c[p + 2..p + 6] == xs[0].digits
    ensures Holds(c, p, BACKSLASH) && Holds(c, p + 1, LETTER_U)
  {
    hide At, PieceText;
    FirstPiece(c, p, e, xs);
    CodeBytes(c, p, xs[0].digits);
  }

  /** What follows a \u piece: another one, or no \u in front of the quote. */
  lemma CodeFollows(c: seq<byte>, p: nat, e: nat, xs: seq<Piece>)
    requires ArePieces(xs) && Between(c, p, e, xs) && xs != [] && xs[0].Code?
    ensures p + 6 <= e && p + 6 <= |c| && c[p + 2..p + 6] == xs[0].digits
    ensures Holds(c, p, BACKSLASH) && Holds(c, p + 1, LETTER_U)
    ensures |xs| > 1 && xs[1].Code? ==>
      && p + 12 <= e && p + 12 <= |c| && c[p + 8..p + 12] == xs[1].digits
      && Holds(c, p + 6, BACKSLASH) && Holds(c, p + 7, LETTER_U)
    ensures !(|xs| > 1 && xs[1].Code?) ==>
      e - p < 12 || !Holds(c, p + 6, BACKSLASH) || !Holds(c, p + 7, LETTER_U)
  {
    hide At, PieceText, PiecesText;
    CodeStands(c, p, e, xs);
    FirstPiece(c, p, e, xs);
    if |xs| == 1 {
      assert xs[1..] == [];
      NoText();
    } else {
      NoCodeStands(c, p + 6, e, xs[1..]);
      if xs[1].Code? { CodeStands(c, p + 6, e, xs[1..]); }
    }
  }

  lemma NoCodeStands(c: seq<byte>, p: nat, e: nat, xs: seq<Piece>)
    requires ArePieces(xs) && Between(c, p, e, xs) && xs != []
    ensures !xs[0].Code? ==> !Holds(c, p, BACKSLASH) || !Holds(c, p + 1, LETTER_U)
  {
    hide At, PieceText, PiecesText;
    FirstPiece(c, p, e, xs);
    match xs[0] {
      case Code(h) =>
      case Letter(l) => LetterBytes(c, p, l);
      case Byte(b) => ByteStands(c, p, b);
    }
  }

  lemma ByteStands(c: seq<byte>, p: nat, b: byte)
    requires At(c, p, PieceText(Byte(b)))
    ensures Holds(c, p, b)
  {
    StartsWith(c, p, [b]);
  }

  lemma NoText()
    ensures PiecesText([]) == []
  {
  }

  /** Pieces are decoded to what they mean. */
  lemma {:induction false} PiecesDecode(c: seq<byte>, p: nat, e: nat, xs: seq<Piece>)
    requires ArePieces(xs) && Between(c, p, e, xs) && e < |c|
    ensures p <= e + 1
    ensures if Meant(xs).Some? then Decode(c, p, e) == Decoded(Meant(xs).value) else Decode(c, p, e).Stuck?
    decreases |xs|, 1
  {
    hide Utf8, Hex4, At;
    if xs == [] {
    } else {
      FirstPiece(c, p, e, xs);
      match xs[0] {
        case Byte(b) =>
          StartsWith(c, p, [b]);
          PiecesDecode(c, p + 1, e, xs[1..]);
        case Letter(l) =>
          LetterBytes(c, p, l);
          PiecesDecode(c, p + 2, e, xs[1..]);
        case Code(h) => CodeDecodes(c, p, e, xs);
      }
    }
  }

  lemma {:induction false} CodeDecodes(c: seq<byte>, p: nat, e: nat, xs: seq<Piece>)
    requires ArePieces(xs) && Between(c, p, e, xs) && e < |c| && xs != [] && xs[0].Code?
    ensures p <= e + 1
    ensures if Meant(xs).Some? then Decode(c, p, e) == Decoded(Meant(xs).value) else Decode(c, p, e).Stuck?
    decreases |xs|, 0
  {
    hide Utf8, Hex4, At, Between, PiecesText, Supplementary;
    FirstPiece(c, p, e, xs);
    CodeFollows(c, p, e, xs);
    var u := Hex4(xs[0].digits);
    if HighSurrogate(u) && HasLow(xs, 1) {
      FirstPiece(c, p + 6, e, xs[1..]);
      assert xs[1..][1..] == xs[2..];
      PiecesDecode(c, p + 12, e, xs[2..]);
    } else if !HighSurrogate(u) && !LowSurrogate(u) {
      PiecesDecode(c, p + 6, e, xs[1..]);
    }
  }

  // ---- the other way round ----

  /** Where the decoding loop cannot go on: no escape letter, or a \u that is cut off or a surrogate without its pair. */
  predicate Unreadable(c: seq<byte>, p: nat, e: nat) {
    && p < e < |c| && c[p] == BACKSLASH && c[p + 1] !in LETTERS
    && (c[p + 1] == LETTER_U ==> e - p < 6 || Unpaired(c, p, e))
  }

  predicate Unpaired(c: seq<byte>, p: nat, e: nat)
    requires p + 6 <= e < |c|
  {
    var first := Hex4(c[p + 2..p + 6]);
    || LowSurrogate(first)
    || (HighSurrogate(first) &&
      (e - p < 12 || c[p + 6] != BACKSLASH || c[p + 7] != LETTER_U || !LowSurrogate(Hex4(c[p + 8..p + 12]))))
  }

  /** What was decoded stands there as pieces; where decoding is stuck, nothing can be read. */
  lemma {:induction false} DecodedPieces(c: seq<byte>, p: nat, e: nat, d: Decoded) returns (xs: seq<Piece>)
    requires p <= e + 1 && Holds(c, e, QUOTE) && d == Decode(c, p, e)
    ensures d.Decoded? ==> ArePieces(xs) && Between(c, p, e, xs) && Meant(xs) == Some(d.bytes)
    ensures d.Stuck? ==> p <= d.at && Unreadable(c, d.at, e)
    decreases e + 1 - p
  {
    hide Utf8, Hex4, At, PieceText, Between;
    xs := [];
    if p >= e {
      NothingStands(c, p, e);
    } else if c[p] != BACKSLASH {
      xs := DecodedPieces(c, p + 1, e, Decode(c, p + 1, e));
      if d.Decoded? {
        PieceStands(c, p, Byte(c[p]));
        xs := PieceInFront(c, p, e, Byte(c[p]), xs);
      }
    } else if c[p + 1] == LETTER_U {
      xs := DecodedCode(c, p, e, d);
    } else if c[p + 1] in LETTERS {
      xs := DecodedPieces(c, p + 2, e, Decode(c, p + 2, e));
      if d.Decoded? {
        PieceStands(c, p, Letter(c[p + 1]));
        xs := PieceInFront(c, p, e, Letter(c[p + 1]), xs);
      }
    }
  }

  lemma {:induction false} DecodedCode(c: seq<byte>, p: nat, e: nat, d: Decoded) returns (xs: seq<Piece>)
    requires p < e && Holds(c, e, QUOTE) && d == Decode(c, p, e) && c[p] == BACKSLASH && c[p + 1] == LETTER_U
    ensures d.Decoded? ==> ArePieces(xs) && Between(c, p, e, xs) && Meant(xs) == Some(d.bytes)
    ensures d.Stuck? ==> p <= d.at && Unreadable(c, d.at, e)
    decreases e + 1 - p, 0
  {
    hide Utf8, Hex4, At, Supplementary, Between, PieceText;
    var l := Utf16Literal(c, p, e);
    xs := [];
    if l.consumed == 0 {
    } else if l.consumed == 6 {
      xs := DecodedPieces(c, p + 6, e, Decode(c, p + 6, e));
      if d.Decoded? {
        PieceStands(c, p, Code(c[p + 2..p + 6]));
        xs := PieceInFront(c, p, e, Code(c[p + 2..p + 6]), xs);
      }
    } else {
      xs := DecodedPieces(c, p + 12, e, Decode(c, p + 12, e));
      if d.Decoded? { xs := PairInFront(c, p, e, xs); }
    }
  }

  /** The text of a piece that stands at `p`. */
  lemma PieceStands(c: seq<byte>, p: nat, x: Piece)
    requires IsPiece(x) && p + |PieceText(x)| <= |c|
    requires x.Byte? ==> c[p] == x.b
    requires x.Letter? ==> c[p] == BACKSLASH && c[p + 1] == x.letter
    requires x.Code? ==> c[p] == BACKSLASH && c[p + 1] == LETTER_U && c[p + 2..p + 6] == x.digits
    ensures c[p..p + |PieceText(x)|] == PieceText(x)
  {
    if x.Code? { assert c[p..p + 6] == c[p..p + 2] + c[p + 2..p + 6]; }
  }

  lemma PairInFront(c: seq<byte>, p: nat, e: nat, rest: seq<Piece>) returns (xs: seq<Piece>)
    requires ArePieces(rest) && p + 12 <= e < |c| && Between(c, p + 12, e, rest)
    requires c[p] == BACKSLASH && c[p + 1] == LETTER_U && c[p + 6] == BACKSLASH && c[p + 7] == LETTER_U
    ensures ArePieces(xs) && Between(c, p, e, xs) && |xs| >= 2 && xs[2..] == rest
    ensures xs[0] == Code(c[p + 2..p + 6]) && xs[1] == Code(c[p + 8..p + 12])
  {
    hide Between, PieceText, ArePieces;
    PieceStands(c, p + 6, Code(c[p + 8..p + 12]));
    PieceStands(c, p, Code(c[p + 2..p + 6]));
    xs := PieceInFront(c, p + 6, e, Code(c[p + 8..p + 12]), rest);
    var ys := xs;
    xs := PieceInFront(c, p, e, Code(c[p + 2..p + 6]), ys);
    assert xs[2..] == ys[1..];
  }

  lemma NothingStands(c: seq<byte>, p: nat, e: nat)
    requires e <= p <= e + 1 && p <= |c|
    ensures Between(c, p, e, [])
  {
  }

  /** The piece in front of others. */
  lemma PieceInFront(c: seq<byte>, p: nat, e: nat, x: Piece, rest: seq<Piece>) returns (xs: seq<Piece>)
    requires IsPiece(x) && ArePieces(rest) && p + |PieceText(x)| <= |c|
    requires c[p..p + |PieceText(x)|] == PieceText(x) && Between(c, p + |PieceText(x)|, e, rest)
    requires rest == [] && p + |PieceText(x)| == e + 1 ==> x == Letter(QUOTE)
    ensures xs == [x] + rest && ArePieces(xs) && Between(c, p, e, xs) && xs[1..] == rest
  {
    hide PieceText;
    xs := [x] + rest;
    assert xs[1..] == rest;
    AtConcat(c, p, PieceText(x), PiecesText(rest));
  }

  // ---- the closing quote ----

  lemma {:induction false} ScanIsQuotable(c: seq<byte>, p: nat, e: nat)
    requires p <= |c|
    ensures ScanQuote(c, p) == Some(e) <==> p <= e && Holds(c, e, QUOTE) && Quotable(c[p..e])
    decreases |c| - p
  {
    if p < |c| && p < e <= |c| {
      var n := if c[p] == BACKSLASH then 2 else 1;
      if p + n <= |c| { ScanIsQuotable(c, p + n, e); }
      if p + n <= e { assert c[p..e][n..] == c[p + n..e]; }
    }
  }

  /** A literal that is accepted, what it leaves as a C string, and where it ends. */
  ghost predicate IsLiteral(c: seq<byte>, o: nat, text: CString, next: nat) {
    && Holds(c, o, QUOTE) && o + 1 < next <= |c|
    && Holds(c, next - 1, QUOTE) && Quotable(c[o + 1..next - 1])
    && exists xs :: ArePieces(xs) && Between(c, o + 1, next - 1, xs) && IsMeaning(xs, text)
  }

  predicate IsMeaning(xs: seq<Piece>, text: CString)
    requires ArePieces(xs)
  {
    Meant(xs).Some? && text == CStr(Meant(xs).value)
  }

  /** parse_string succeeds exactly on these literals, with exactly this result, in a buffer of any bytes. */
  lemma StringIsExact(c: seq<byte>, o: nat, text: CString, next: nat)
    requires o < |c|
    ensures ParseString(c, o) == StringParsed(text, next) <==> IsLiteral(c, o, text, next)
  {
    hide Decode, ScanQuote, Meant, Quotable, Between;
    if c[o] == QUOTE && o + 1 < next {
      ScanIsQuotable(c, o + 1, next - 1);
      if ScanQuote(c, o + 1) == Some(next - 1) { LiteralAt(c, o, text, next - 1); }
    }
  }

  lemma LiteralAt(c: seq<byte>, o: nat, text: CString, e: nat)
    requires o < e && Holds(c, e, QUOTE)
    ensures Decode(c, o + 1, e).Decoded? && text == CStr(Decode(c, o + 1, e).bytes) <==>
      exists xs :: ArePieces(xs) && Between(c, o + 1, e, xs) && IsMeaning(xs, text)
  {
    hide Decode, Meant, Between;
    var xs := DecodedPieces(c, o + 1, e, Decode(c, o + 1, e));
    forall ys | ArePieces(ys) && Between(c, o + 1, e, ys) && IsMeaning(ys, text)
      ensures Decode(c, o + 1, e).Decoded? && text == CStr(Decode(c, o + 1, e).bytes)
    {
      PiecesDecode(c, o + 1, e, ys);
    }
  }

  /** Where a refused string leaves the offset: behind the first byte, or at what cannot be read. */
  lemma {:induction false} RefusedAt(c: seq<byte>, o: nat, at: nat)
    requires o < |c| && ParseString(c, o) == StringFailed(at)
    ensures if c[o] == QUOTE && ScanQuote(c, o + 1).Some? then o < at && Unreadable(c, at, ScanQuote(c, o + 1).value)
      else at == o + 1
  {
    hide Decode, ScanQuote;
    if c[o] == QUOTE && ScanQuote(c, o + 1).Some? {
      var e := ScanQuote(c, o + 1).value;
      var xs := DecodedPieces(c, o + 1, e, Decode(c, o + 1, e));
    }
  }

  /** Unless bad digits hold a quote or a backslash, no copied byte is a quote and the pieces end at the closing one. */
  lemma {:induction false} InStep(c: seq<byte>, p: nat, e: nat, xs: seq<Piece>)
    requires ArePieces(xs) && Between(c, p, e, xs) && p <= e <= |c| && Quotable(c[p..e])
    requires forall i :: 0 <= i < |xs| && xs[i].Code? ==> BACKSLASH !in xs[i].digits && QUOTE !in xs[i].digits
    ensures p + |PiecesText(xs)| == e && Byte(QUOTE) !in xs
    decreases |xs|
  {
    hide At;
    if xs == [] {
    } else {
      FirstPiece(c, p, e, xs);
      var n := |PieceText(xs[0])|;
      match xs[0] {
        case Byte(b) => StartsWith(c, p, [b]);
        case Letter(l) => LetterBytes(c, p, l);
        case Code(h) => CodeInStep(c, p, e, h, xs);
      }
      assert p + n <= e && c[p..e][n..] == c[p + n..e];
      InStep(c, p + n, e, xs[1..]);
    }
  }

  lemma CodeInStep(c: seq<byte>, p: nat, e: nat, h: seq<byte>, xs: seq<Piece>)
    requires ArePieces(xs) && Between(c, p, e, xs) && xs != [] && xs[0] == Code(h) && e <= |c|
    requires Quotable(c[p..e]) && BACKSLASH !in h && QUOTE !in h
    ensures p + 6 <= e && Quotable(c[p + 6..e])
  {
    CodeFollows(c, p, e, xs);
    var s := c[p..e];
    assert s[2..] == h + c[p + 6..e];
    PlainQuotable(h, c[p + 6..e]);
  }

  lemma {:induction false} PlainQuotable(a: seq<byte>, b: seq<byte>)
    requires BACKSLASH !in a && QUOTE !in a
    ensures Quotable(a + b) <==> Quotable(b)
  {
    if a == [] {
      assert a + b == b;
    } else {
      assert (a + b)[1..] == a[1..] + b;
      PlainQuotable(a[1..], b);
    }
  }

  function LowerDigit(b: byte): byte {
    if 65 <= b <= 70 then b + 32 else b
  }

  /** Four digits in either case mean the number that is written with them, the highest digit first. */
  lemma HexDigitsMean(h: seq<byte>)
    requires FourHexDigits(h)
    ensures var n := Hex4(h);
      && n < 0x10000
      && LowerDigit(h[0]) == HexLetter(n / 0x1000) && LowerDigit(h[1]) == HexLetter(n / 0x100 % 0x10)
      && LowerDigit(h[2]) == HexLetter(n / 0x10 % 0x10) && LowerDigit(h[3]) == HexLetter(n % 0x10)
  {
    hide HexValue, HexLetter, LowerDigit;
    DigitMeans(h[0]);
    DigitMeans(h[1]);
    DigitMeans(h[2]);
    DigitMeans(h[3]);
    Places(HexValue(h[0]), HexValue(h[1]), HexValue(h[2]), HexValue(h[3]));
  }

  lemma DigitMeans(b: byte)
    requires HexDigit(b)
    ensures LowerDigit(b) == HexLetter(HexValue(b))
  {
  }

  lemma Places(a: nat, b: nat, c: nat, d: nat)
    requires a < 0x10 && b < 0x10 && c < 0x10 && d < 0x10
    ensures var n := a * 0x1000 + b * 0x100 + c * 0x10 + d;
      n / 0x1000 == a && n / 0x100 % 0x10 == b && n / 0x10 % 0x10 == c && n % 0x10 == d
  {
    var n := a * 0x1000 + b * 0x100 + c * 0x10 + d;
    Quotient(n, 0x1000, a, b * 0x100 + c * 0x10 + d);
    Quotient(n, 0x100, a * 0x10 + b, c * 0x10 + d);
    Quotient(n, 0x10, a * 0x100 + b * 0x10 + c, d);
    Quotient(a * 0x10 + b, 0x10, a, b);
    Quotient(a * 0x100 + b * 0x10 + c, 0x10, a * 0x10 + b, c);
  }

  lemma Quotient(n: nat, m: nat, q: nat, r: nat)
    requires m > 0 && r < m && n == q * m + r
    ensures n / m == q && n % m == r
  {
    var x := n / m - q;
    assert n == n / m * m + n % m;
    assert x * m == r - n % m;
    AtLeastOnce(x, m);
  }

  lemma AtLeastOnce(x: int, m: nat)
    ensures x >= 1 ==> x * m >= m
    ensures x <= -1 ==> x * m <= -(m as int)
  {
  }
}
