/** The lexical layer of the parser: white space, and the token that starts behind it. */
module JsonLex {
  import opened Bytes
  import opened Json
  import opened JsonNumber
  import opened JsonString
  import opened JsonText

  /** A literal, number or string that ends at `end`, or none, with the offset the failed attempt leaves. */
  datatype Reading = Read(value: Scalar, end: nat) | NoLeaf(at: nat)

  /** parse_number: the bytes strtod takes of the number characters from `o` on. */
  function NumberAt(c: seq<byte>, o: nat): (r: Reading)
    requires o < |c|
    ensures r.Read? ==> o < r.end <= |c| && r.value.Number?
    ensures r.NoLeaf? ==> r.at == o
  {
    var e := SpanEnd(c, o, o);
    var t := c[o..e];
    var n := StrtodLength(t);
    if n == 0 then NoLeaf(o) else Read(Number(t[..n]), o + n)
  }

  function StringAt(c: seq<byte>, o: nat): (r: Reading)
    requires o < |c|
    ensures r.Read? ==> o < r.end <= |c| && r.value.String? && r.value.text.Some?
    ensures r.NoLeaf? ==> r.at <= |c|
  {
    match ParseString(c, o)
    case StringParsed(s, next) => Read(String(Some(s)), next)
    case StringFailed(at) => NoLeaf(at)
  }

  function WordAt(c: seq<byte>, o: nat, word: seq<byte>, t: Scalar, otherwise: Reading): (r: Reading)
    requires o < |c| && word != []
    ensures r == otherwise || (r.Read? && r.value == t && o < r.end <= |c|)
  {
    if At(c, o, word) then Read(t, o + |word|) else otherwise
  }

  /** The branches of parse_value that open no container, in its order. */
  function LeafAt(c: seq<byte>, o: nat): (r: Reading)
    requires o < |c|
    ensures r.Read? ==> o < r.end <= |c|
    ensures r.NoLeaf? ==> r.at <= |c|
  {
    WordAt(c, o, NULL_TEXT, Null, WordAt(c, o, FALSE_TEXT, False, WordAt(c, o, TRUE_TEXT, True,
      if c[o] == QUOTE then StringAt(c, o)
      else if c[o] == MINUS || Digit(c[o]) then NumberAt(c, o)
      else NoLeaf(o))))
  }

  /** The first byte from `o` on that is no white space, or the end of the buffer. */
  function WhiteEnd(c: seq<byte>, o: nat): (e: nat)
    requires o <= |c|
    ensures o <= e <= |c|
    ensures e < |c| ==> c[e] > 32
    decreases |c| - o
  {
    if o < |c| && c[o] <= 32 then WhiteEnd(c, o + 1) else o
  }

  /** buffer_skip_whitespace: it stays at the end of the buffer, and steps back onto the last byte when it ran off it. */
  function SkipWhite(c: seq<byte>, o: nat): (e: nat)
    requires o <= |c|
    ensures o <= e <= |c|
    ensures o < |c| ==> e < |c|
  {
    var e := WhiteEnd(c, o);
    if o < e == |c| then e - 1 else e
  }

  /**
   The tokens from an offset on, each with the offsets it stands between. The list stops at `at`, where no
   token starts: reading a value there fails at `badValue`, reading a name at `badName`; or it ends with the
   buffer, behind the last byte.
   */
  datatype Tokens =
    | End(at: nat)
    | Stop(at: nat, badValue: nat, badName: nat)
    | Ahead(token: Token, start: nat, end: nat, rest: Tokens)

  function Punctuation(b: byte): Option<Token> {
    match b
    case 91 => Some(OpenArray)
    case 93 => Some(CloseArray)
    case 123 => Some(OpenObject)
    case 125 => Some(CloseObject)
    case 44 => Some(Comma)
    case 58 => Some(Colon)
    case _ => None
  }

  /** The tokens behind the white space from `o` on. */
  function TokensFrom(c: seq<byte>, o: nat): Tokens
    requires o <= |c|
    decreases |c| - o, 2
  {
    TokensAt(c, SkipWhite(c, o))
  }

  /** The token at `p` and what follows it. */
  function TokensAt(c: seq<byte>, p: nat): Tokens
    requires p <= |c|
    decreases |c| - p, 1
  {
    if p == |c| then End(p)
    else if Punctuation(c[p]).Some? then Ahead(Punctuation(c[p]).value, p, p + 1, TokensFrom(c, p + 1))
    else LeafTokens(c, p)
  }

  function LeafTokens(c: seq<byte>, p: nat): Tokens
    requires p < |c|
    decreases |c| - p, 0
  {
    match LeafAt(c, p)
    case Read(v, end) => Ahead(Leaf(v), p, end, TokensFrom(c, end))
    case NoLeaf(at) => Stop(p, at, if c[p] == QUOTE then at else p + 1)
  }
}
