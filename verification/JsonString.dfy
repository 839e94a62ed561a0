/** The string layer of the parser: hex digits, UTF-16 literals, the size scan and the decoding loop. */
module JsonString {
  import opened Bytes
  import opened Unicode

  const QUOTE: byte := 34
  const BACKSLASH: byte := 92
  const LETTER_U: byte := 117

  predicate HexDigit(b: byte) {
    48 <= b <= 57 || 65 <= b <= 70 || 97 <= b <= 102
  }

  function HexValue(b: byte): (n: nat)
    requires HexDigit(b)
    ensures n < 16
  {
    if b <= 57 then b - 48 else if b <= 70 then b - 55 else b - 87
  }

  predicate FourHexDigits(h: seq<byte>) {
    |h| == 4 && HexDigit(h[0]) && HexDigit(h[1]) && HexDigit(h[2]) && HexDigit(h[3])
  }

  /** What parse_hex4 returns: the value of four digits, 0 as soon as one is no digit. */
  function Hex4(h: seq<byte>): (n: nat)
    requires |h| == 4
    ensures n < 0x10000
  {
    if FourHexDigits(h)
    then HexValue(h[0]) * 0x1000 + HexValue(h[1]) * 0x100 + HexValue(h[2]) * 0x10 + HexValue(h[3])
    else 0
  }

  /** A converted UTF-16 literal: the bytes it consumed (0 for a failure) and the bytes it wrote. */
  datatype Literal = Literal(consumed: nat, bytes: seq<byte>)

  function Utf16Literal(c: seq<byte>, p: nat, e: nat): (r: Literal)
    requires p <= e <= |c|
    ensures r.consumed in {0, 6, 12}
    ensures p + r.consumed <= e
    ensures r.consumed == 0 ==> r.bytes == []
    ensures r.consumed == 6 ==> 1 <= |r.bytes| <= 3
    ensures r.consumed == 12 ==> |r.bytes| == 4
  {
    var fail := Literal(0, []);
    if e - p < 6 then fail
    else
      var first := Hex4(c[p + 2..p + 6]);
      if LowSurrogate(first) then fail
      else if HighSurrogate(first) then
        if e - p < 12 || c[p + 6] != BACKSLASH || c[p + 7] != LETTER_U then fail
        else
          var second := Hex4(c[p + 8..p + 12]);
          if !LowSurrogate(second) then fail
          else Literal(12, Utf8(Supplementary(first, second)))
      else Literal(6, Utf8(first))
  }

  /** The byte a one-letter escape stands for. */
  function ShortEscape(b: byte): Option<byte> {
    match b
    case 98 => Some(8)
    case 102 => Some(12)
    case 110 => Some(10)
    case 114 => Some(13)
    case 116 => Some(9)
    case 34 => Some(34)
    case 92 => Some(92)
    case 47 => Some(47)
    case _ => None
  }

  datatype Decoded = Decoded(bytes: seq<byte>) | Stuck(at: nat)

  function Prepend(b: seq<byte>, d: Decoded): Decoded {
    if d.Decoded? then Decoded(b + d.bytes) else d
  }

  lemma PrependTwice(a: seq<byte>, b: seq<byte>, d: Decoded)
    ensures Prepend(a, Prepend(b, d)) == Prepend(a + b, d)
  {
    if d.Decoded? { assert a + (b + d.bytes) == (a + b) + d.bytes; }
  }

  /** The decoding loop of parse_string from `p` on; it may run one byte past `e`, onto the closing quote. */
  function Decode(c: seq<byte>, p: nat, e: nat): (d: Decoded)
    requires p <= e + 1 && e < |c|
    ensures d.Stuck? ==> d.at < e
    decreases e + 1 - p
  {
    if p >= e then Decoded([])
    else if c[p] != BACKSLASH then Prepend([c[p]], Decode(c, p + 1, e))
    else if c[p + 1] == LETTER_U then
      var l := Utf16Literal(c, p, e);
      if l.consumed == 0 then Stuck(p) else Prepend(l.bytes, Decode(c, p + l.consumed, e))
    else
      match ShortEscape(c[p + 1])
      case None => Stuck(p)
      case Some(b) => Prepend([b], Decode(c, p + 2, e))
  }

  /** The size scan: where the closing quote stands, skipping whatever follows a backslash. */
  function ScanQuote(c: seq<byte>, p: nat): (r: Option<nat>)
    requires p <= |c|
    ensures r.Some? ==> p <= r.value < |c| && c[r.value] == QUOTE
    decreases |c| - p
  {
    if p >= |c| then None
    else if c[p] == QUOTE then Some(p)
    else if c[p] == BACKSLASH then if p + 1 >= |c| then None else ScanQuote(c, p + 2)
    else ScanQuote(c, p + 1)
  }

  datatype StringResult = StringParsed(text: CString, next: nat) | StringFailed(at: nat)

  /** parse_string at offset `o`: the C string it stores and the offset it leaves, on success and on failure. */
  function ParseString(c: seq<byte>, o: nat): (r: StringResult)
    requires o < |c|
    ensures r.StringParsed? ==> o + 1 < r.next <= |c| && c[r.next - 1] == QUOTE
    ensures r.StringFailed? ==> r.at <= |c|
  {
    if c[o] != QUOTE then StringFailed(o + 1)
    else
      match ScanQuote(c, o + 1)
      case None => StringFailed(o + 1)
      case Some(e) =>
        match Decode(c, o + 1, e)
        case Stuck(at) => StringFailed(at)
        case Decoded(bytes) => StringParsed(CStr(bytes), e + 1)
  }
}
