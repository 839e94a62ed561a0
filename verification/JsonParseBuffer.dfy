/**
 The parser as it runs: one buffer, an offset that moves and a depth that counts. Every method is proved
 against the pure function it computes.
 */
module JsonParseBuffer {
  import opened Bytes
  import opened Unicode
  import opened Json
  import opened JsonNumber
  import opened JsonString
  import opened JsonText
  import opened JsonLex
  import opened JsonParse
  import opened JsonParseSteps

  /**
   How many backslash pairs the size scan starts in front of `p` when it goes on from `from`:
   skipped_bytes once it has arrived at `p`.
   */
  function Pairs(c: seq<byte>, from: nat, p: nat): (n: nat)
    requires p <= |c|
    decreases |c| - from
  {
    if from >= p then 0
    else if c[from] == BACKSLASH then 1 + Pairs(c, from + 2, p)
    else Pairs(c, from + 1, p)
  }

  /** A byte that is no backslash starts no pair; at most every other byte starts one. */
  lemma {:induction false} PairsGrow(c: seq<byte>, from: nat, p: nat, n: nat)
    requires p + n <= |c|
    ensures Pairs(c, from, p) <= Pairs(c, from, p + n) <= Pairs(c, from, p) + (n + 1) / 2
    ensures n == 1 && c[p] != BACKSLASH ==> Pairs(c, from, p + 1) == Pairs(c, from, p)
    decreases |c| - from
  {
    if from < p {
      if c[from] == BACKSLASH { PairsGrow(c, from + 2, p, n); } else { PairsGrow(c, from + 1, p, n); }
    } else if from < p + n {
      var step := if c[from] == BACKSLASH then 2 else 1;
      if from + step <= p + n {
        PairsGrow(c, from + step, from + step, p + n - (from + step));
      }
    }
  }

  /**
   Room for one turn of the decoding loop: `w` bytes written for `n` bytes read, at most half as many unless
   the turn copies a byte. What is written stays within the allocation, even when a \u with bad digits has
   put the loop out of step with the scan.
   */
  lemma Room(c: seq<byte>, s: nat, e: nat, p: nat, at: nat, n: nat, w: nat)
    requires s <= p < e < |c| && p + n <= e + 1 && c[e] == QUOTE
    requires at + Pairs(c, s, p) <= p - s
    requires 2 * w <= n || (n == w == 1 && c[p] != BACKSLASH)
    ensures at + w + Pairs(c, s, p + n) <= p + n - s
    ensures at + w + Pairs(c, s, e) <= e + 1 - s
  {
    PairsGrow(c, s, p, n);
    PairsGrow(c, s, p + n, e + 1 - (p + n));
    PairsGrow(c, s, e, 1);
  }

  lemma {:induction false} DecodeFits(c: seq<byte>, s: nat, e: nat, p: nat, at: nat)
    requires s <= p <= e + 1 && e < |c| && c[e] == QUOTE
    requires at + Pairs(c, s, p) <= p - s && Decode(c, p, e).Decoded?
    ensures at + |Decode(c, p, e).bytes| + Pairs(c, s, e) <= e + 1 - s
    decreases e + 1 - p
  {
    hide Utf16Literal;
    if p >= e {
      PairsGrow(c, s, e, 1);
    } else if c[p] != BACKSLASH {
      Room(c, s, e, p, at, 1, 1);
      DecodeFits(c, s, e, p + 1, at + 1);
    } else if c[p + 1] == LETTER_U {
      var l := Utf16Literal(c, p, e);
      Room(c, s, e, p, at, l.consumed, |l.bytes|);
      DecodeFits(c, s, e, p + l.consumed, at + |l.bytes|);
    } else {
      Room(c, s, e, p, at, 2, 1);
      DecodeFits(c, s, e, p + 2, at + 1);
    }
  }

  /**
   For every buffer and every literal in it, well formed or not: what parse_string writes in front of the
   terminator is no longer than the size the scan computed, e - o - skipped_bytes.
   */
  lemma AllocationSuffices(c: seq<byte>, o: nat, e: nat)
    requires o + 1 <= |c| && ScanQuote(c, o + 1) == Some(e) && Decode(c, o + 1, e).Decoded?
    ensures |Decode(c, o + 1, e).bytes| + Pairs(c, o + 1, e) <= e - o
  {
    DecodeFits(c, o + 1, e, o + 1, 0);
  }

  lemma PrependNothing(d: Decoded)
    ensures Prepend([], d) == d
  {
    if d.Decoded? { assert [] + d.bytes == d.bytes; }
  }

  lemma {:induction false} DecodeEnds(c: seq<byte>, p: nat, e: nat)
    requires e <= p <= e + 1 && e < |c|
    ensures forall b :: Prepend(b, Decode(c, p, e)) == Decoded(b)
  {
    forall b: seq<byte> ensures Prepend(b, Decode(c, p, e)) == Decoded(b) { assert b + [] == b; }
  }

  lemma {:induction false} StringIs(c: seq<byte>, o: nat, e: nat, bytes: seq<byte>)
    requires Holds(c, o, QUOTE) && ScanQuote(c, o + 1) == Some(e) && Decode(c, o + 1, e) == Decoded(bytes)
    ensures JsonString.ParseString(c, o) == StringParsed(CStr(bytes), e + 1)
  {
  }

  lemma {:induction false} NumberIs(c: seq<byte>, o: nat, e: nat, t: seq<byte>)
    requires o < |c| && o <= e <= |c| && SpanEnd(c, o, o) == e && t == c[o..e]
    ensures NumberAt(c, o) ==
      if StrtodLength(t) == 0 then NoLeaf(o) else Read(Number(t[..StrtodLength(t)]), o + StrtodLength(t))
  {
    hide StrtodLength;
  }

  // ---- the lists the loops link ----

  function AddElements(items: seq<Json>, r: Outcome<Elements>): Outcome<Elements> {
    match r
    case Failed(at, depth) => Failed(at, depth)
    case Parsed(next, end, rest) => Parsed(ElementList(items, next), end, rest)
  }

  function AddMembers(items: seq<(Option<CString>, Json)>, r: Outcome<Members>): Outcome<Members> {
    match r
    case Failed(at, depth) => Failed(at, depth)
    case Parsed(next, end, rest) => Parsed(MemberList(items, next), end, rest)
  }

  lemma AddNothing(r: Outcome<Elements>)
    ensures AddElements([], r) == r
  {
  }

  lemma ElementAdded(items: seq<Json>, v: Json, r: Outcome<Elements>)
    ensures AddElements(items + [v], r) == AddElements(items, AddElement(v, r))
  {
    if r.Parsed? { ElementLinked(items, v, r.value); }
  }

  lemma AddNoMember(r: Outcome<Members>)
    ensures AddMembers([], r) == r
  {
  }

  lemma MemberAdded(items: seq<(Option<CString>, Json)>, m: (Option<CString>, Json), r: Outcome<Members>)
    ensures AddMembers(items + [m], r) == AddMembers(items, AddMember(m.0, m.1, r))
  {
    if r.Parsed? { MemberLinked(items, m, r.value); }
  }

  /** The low ten bits of each surrogate, put together. */
  lemma PairBits(high: nat, low: nat)
    requires HighSurrogate(high) && LowSurrogate(low)
    ensures 0x10000 + (high % 0x400) * 0x400 + low % 0x400 == Supplementary(high, low)
  {
  }

  /**
   parse_buffer. Every access to `content` is checked against its length, except the one parse_string starts
   with: at the end of the buffer it sees `beyond`, whatever byte memory holds there, and `overran` records it.
   */
  class ParseBuffer {
    const content: seq<byte>
    const beyond: byte
    var offset: nat
    var depth: nat
    var overran: bool

    constructor (content: seq<byte>, beyond: byte)
      ensures this.content == content && this.beyond == beyond
      ensures offset == 0 && depth == 0 && !overran
    {
      this.content, this.beyond := content, beyond;
      offset, depth, overran := 0, 0, false;
    }

    /** parse_hex4 */
    method ParseHex4(p: nat) returns (h: nat)
      requires p + 4 <= |content|
      ensures h == Hex4(content[p..p + 4])
    {
      h := 0;
      var i := 0;
      ghost var s := content[p..p + 4];
      while i < 4
        invariant i <= 4
        invariant forall k :: 0 <= k < i ==> HexDigit(s[k])
        invariant i == 0 ==> h == 0
        invariant i == 1 ==> h == 0x10 * HexValue(s[0])
        invariant i == 2 ==> h == 0x100 * HexValue(s[0]) + 0x10 * HexValue(s[1])
        invariant i == 3 ==> h == 0x1000 * HexValue(s[0]) + 0x100 * HexValue(s[1]) + 0x10 * HexValue(s[2])
        invariant i == 4 ==> h == Hex4(s)
      {
        var b := content[p + i];
        assert b == s[i];
        if 48 <= b <= 57 {
          h := h + (b - 48);
        } else if 65 <= b <= 70 {
          h := h + (10 + b - 65);
        } else if 97 <= b <= 102 {
          h := h + (10 + b - 97);
        } else {
          return 0;
        }
        if i < 3 { h := h * 0x10; }
        i := i + 1;
      }
    }

    /** utf16_literal_to_utf8: writes at `at`, which has room for what the literal denotes. */
    method Utf16LiteralToUtf8(p: nat, e: nat, output: array<byte>, at: nat) returns (consumed: nat, written: nat)
      requires p <= e <= |content|
      requires at + |Utf16Literal(content, p, e).bytes| <= output.Length
      modifies output
      ensures var l := Utf16Literal(content, p, e);
        consumed == l.consumed && written == |l.bytes| && output[at..at + written] == l.bytes
      ensures output[..at] == old(output[..at])
    {
      hide Utf8, Supplementary, Hex4;
      consumed, written := 0, 0;
      if e - p < 6 { return; }
      var first := ParseHex4(p + 2);
      if LowSurrogate(first) { return; }
      var codepoint := first;
      var length := 6;
      if HighSurrogate(first) {
        if e - (p + 6) < 6 { return; }
        if content[p + 6] != BACKSLASH || content[p + 7] != LETTER_U { return; }
        var second := ParseHex4(p + 8);
        if second < 0xDC00 || second > 0xDFFF { return; }
        codepoint := 0x10000 + (first % 0x400) * 0x400 + second % 0x400;
        PairBits(first, second);
        length := 12;
      }
      written := Encode(codepoint, output, at);
      consumed := length;
    }

    /** The encoding loop of utf16_literal_to_utf8, from the last byte to the first. */
    static method Encode(cp: nat, output: array<byte>, at: nat) returns (length: nat)
      requires cp < CODE_POINTS && at + |Utf8(cp)| <= output.Length
      modifies output
      ensures length == |Utf8(cp)| && output[at..at + length] == Utf8(cp)
      ensures output[..at] == old(output[..at])
    {
      var mark := 0;
      if cp < 0x80 {
        length := 1;
      } else if cp < 0x800 {
        length, mark := 2, 0xC0;
      } else if cp < 0x10000 {
        length, mark := 3, 0xE0;
      } else {
        length, mark := 4, 0xF0;
      }
      var rest := cp;
      var position := length - 1;
      while position > 0
        invariant 0 <= position < length
        invariant position == length - 1 ==> rest == cp
        invariant position == length - 2 ==> rest == cp / 0x40
        invariant position == length - 3 ==> rest == cp / 0x40 / 0x40
        invariant position == length - 4 ==> rest == cp / 0x40 / 0x40 / 0x40
        invariant forall k :: position < k < length ==> output[at + k] == Utf8(cp)[k]
        invariant output[..at] == old(output[..at])
      {
        output[at + position] := 0x80 + rest % 0x40;
        rest := rest / 0x40;
        position := position - 1;
      }
      output[at] := mark + rest;
      assert forall k :: 0 <= k < length ==> output[at + k] == Utf8(cp)[k];
    }

    /** The size scan of parse_string: the closing quote and skipped_bytes. */
    method ScanSize(s: nat) returns (e: nat, skipped: nat, found: bool)
      ensures found <==> s <= |content| && ScanQuote(content, s).Some?
      ensures found ==> ScanQuote(content, s) == Some(e) && skipped == Pairs(content, s, e)
    {
      e, skipped := s, 0;
      ghost var r := if s <= |content| then ScanQuote(content, s) else None;
      while e < |content| && content[e] != QUOTE
        invariant s <= e && (s <= |content| ==> e <= |content| && ScanQuote(content, e) == r)
        invariant r.Some? ==> skipped + Pairs(content, e, r.value) == Pairs(content, s, r.value)
        decreases |content| - e
      {
        if content[e] == BACKSLASH {
          if e + 1 >= |content| { return e, skipped, false; }
          skipped := skipped + 1;
          e := e + 1;
        }
        e := e + 1;
      }
      found := e < |content|;
    }

    /**
     The decoding loop of parse_string. It writes no more than the e + 1 - s - skipped bytes the scan
     allowed for, which leaves the last byte of the output to the terminator, and reads no further than `e`.
     */
    method DecodeInto(s: nat, e: nat, output: array<byte>) returns (ok: bool, p: nat, written: nat)
      requires s <= e < |content| && content[e] == QUOTE
      requires output.Length == e + 1 - s - Pairs(content, s, e) + 1
      modifies output
      ensures ok ==> written < output.Length && Decode(content, s, e) == Decoded(output[..written])
      ensures !ok ==> Decode(content, s, e) == Stuck(p)
    {
      hide Decode;
      PairsGrow(content, s, s, e - s);
      p, written := s, 0;
      PrependNothing(Decode(content, s, e));
      while p < e
        invariant s <= p <= e + 1
        invariant written + Pairs(content, s, p) <= p - s && written < output.Length
        invariant Decode(content, s, e) == Prepend(output[..written], Decode(content, p, e))
        decreases e + 1 - p
      {
        ghost var before := output[..written];
        var n, w := DecodeStep(p, s, e, output, written);
        if n == 0 { return false, p, written; }
        assert output[..written + w] == before + output[written..written + w];
        PrependTwice(before, output[written..written + w], Decode(content, p + n, e));
        p, written := p + n, written + w;
      }
      DecodeEnds(content, p, e);
      ok := true;
    }

    /**
     One turn of the loop, a copied byte or an escape sequence: how many bytes it takes, none when it is no
     escape sequence, and how many it writes.
     */
    method DecodeStep(p: nat, ghost s: nat, e: nat, output: array<byte>, at: nat) returns (n: nat, w: nat)
      requires s <= p < e < |content| && content[e] == QUOTE
      requires at + Pairs(content, s, p) <= p - s && at < output.Length
      requires output.Length == e + 1 - s - Pairs(content, s, e) + 1
      modifies output
      ensures output[..at] == old(output[..at])
      ensures n == 0 ==> Decode(content, p, e) == Stuck(p)
      ensures n > 0 ==>
        p + n <= e + 1 && at + w < output.Length
        && Decode(content, p, e) == Prepend(output[at..at + w], Decode(content, p + n, e))
        && at + w + Pairs(content, s, p + n) <= p + n - s
    {
      hide Utf16Literal;
      if content[p] != BACKSLASH {
        Room(content, s, e, p, at, 1, 1);
        output[at] := content[p];
        return 1, 1;
      }
      var b := content[p + 1];
      if b == LETTER_U {
        ghost var l := Utf16Literal(content, p, e);
        if l.consumed > 0 { Room(content, s, e, p, at, l.consumed, |l.bytes|); }
        n, w := Utf16LiteralToUtf8(p, e, output, at);
        return;
      }
      Room(content, s, e, p, at, 2, 1);
      n, w := 2, 1;
      match b {
        case 98 => output[at] := 8;
        case 102 => output[at] := 12;
        case 110 => output[at] := 10;
        case 114 => output[at] := 13;
        case 116 => output[at] := 9;
        case 34 => output[at] := b;
        case 92 => output[at] := b;
        case 47 => output[at] := b;
        case _ => n, w := 0, 0;
      }
    }

    /**
     parse_string: what a string literal at the offset denotes, as the C string the output holds. At the end of
     the buffer it fails, whatever byte stands there.
     */
    method ParseString() returns (ok: bool, text: CString)
      requires offset <= |content| && !overran
      modifies this`offset, this`overran
      ensures ok ==>
        old(offset) < |content| && JsonString.ParseString(content, old(offset)) == StringParsed(text, offset)
      ensures !ok && old(offset) < |content| ==> JsonString.ParseString(content, old(offset)) == StringFailed(offset)
      ensures old(offset) == |content| ==> !ok && offset == |content| + 1
      ensures overran <==> offset > |content|
    {
      hide Decode, ScanQuote;
      text := [];
      var first := beyond;
      if offset < |content| { first := content[offset]; } else { overran := true; }
      if first != QUOTE {
        offset := offset + 1;
        return false, text;
      }
      var e, skipped, found := ScanSize(offset + 1);
      if !found {
        offset := offset + 1;
        return false, text;
      }
      PairsGrow(content, offset + 1, offset + 1, e - (offset + 1));
      var allocationLength := e - offset - skipped;
      var output := new byte[allocationLength + 1];
      var p, written;
      ok, p, written := DecodeInto(offset + 1, e, output);
      if !ok {
        offset := p;
        return;
      }
      ghost var bytes := output[..written];
      output[written] := 0;
      assert output[..][..written] == bytes;
      StringIs(content, offset, e, output[..][..written]);
      CStrTerminated(output[..], written);
      text := CStr(output[..]);
      offset := e + 1;
    }

    /** parse_number: copies the number characters, at most 63, and takes what strtod converts of them. */
    method ParseNumber() returns (ok: bool, item: Scalar)
      requires offset < |content|
      modifies this`offset
      ensures ok ==> NumberAt(content, old(offset)) == Read(item, offset)
      ensures !ok ==> NumberAt(content, old(offset)) == NoLeaf(offset)
    {
      hide StrtodLength, NumberAt;
      var number := new byte[MAX_PARSED + 1];
      var i := 0;
      while i < MAX_PARSED && offset + i < |content| && NumberByte(content[offset + i])
        invariant offset == old(offset) && i <= MAX_PARSED && offset + i <= |content|
        invariant number[..i] == content[offset..offset + i]
        invariant SpanEnd(content, offset, offset + i) == SpanEnd(content, offset, offset)
        decreases MAX_PARSED - i
      {
        number[i] := content[offset + i];
        i := i + 1;
      }
      assert SpanEnd(content, offset, offset) == offset + i;
      number[i] := 0;
      NumberIs(content, offset, offset + i, number[..i]);
      var n := StrtodLength(number[..i]);
      ok, item := n != 0, Null;
      if !ok { return; }
      item := Number(number[..n]);
      assert number[..n] == number[..i][..n];
      offset := offset + n;
    }

    /** buffer_skip_whitespace */
    method SkipWhitespace()
      requires offset <= |content|
      modifies this`offset
      ensures offset == SkipWhite(content, old(offset))
    {
      if offset >= |content| { return; }
      while offset < |content| && content[offset] <= 32
        invariant old(offset) <= offset <= |content|
        invariant WhiteEnd(content, offset) == WhiteEnd(content, old(offset))
        decreases |content| - offset
      {
        offset := offset + 1;
      }
      if offset == |content| { offset := offset - 1; }
    }

    /** parse_value: the branches in their order. */
    method ParseValue() returns (ok: bool, item: Json)
      requires offset <= |content| && !overran
      modifies this
      ensures ok ==> old(offset) < offset <= |content| && depth == old(depth)
      ensures JsonParse.ParseValue(TokensAt(content, old(offset)), old(depth)) ==
        if ok then Parsed(item, offset, TokensFrom(content, offset)) else Failed(offset, depth)
      ensures overran <==> offset > |content|
      decreases |content| - offset, 1
    {
      hide JsonParse.ParseValue, TokensAt, TokensFrom, SkipWhite, JsonString.ParseString, SpanEnd, StrtodLength;
      ghost var p := offset;
      if p < |content| && Punctuation(content[p]).None? {
        LeafValue(content, p, depth);
      } else if p == |content| || content[p] !in {OPEN_ARRAY, OPEN_OBJECT} {
        NoValue(content, p, depth);
      }
      if At(content, offset, NULL_TEXT) {
        StartsWith(content, p, NULL_TEXT);
        offset := offset + 4;
        return true, Null;
      }
      if At(content, offset, FALSE_TEXT) {
        StartsWith(content, p, FALSE_TEXT);
        offset := offset + 5;
        return true, False;
      }
      if At(content, offset, TRUE_TEXT) {
        StartsWith(content, p, TRUE_TEXT);
        offset := offset + 4;
        return true, True;
      }
      if offset < |content| && content[offset] == QUOTE {
        var text;
        ok, text := ParseString();
        item := String(Some(text));
      } else if offset < |content| && (content[offset] == MINUS || Digit(content[offset])) {
        ok, item := ParseNumber();
      } else if offset < |content| && content[offset] == OPEN_ARRAY {
        ok, item := ParseArray();
      } else if offset < |content| && content[offset] == OPEN_OBJECT {
        ok, item := ParseObject();
      } else {
        ok, item := false, Null;
      }
    }

    /** parse_array */
    method ParseArray() returns (ok: bool, item: Json)
      requires Holds(content, offset, OPEN_ARRAY) && !overran
      modifies this
      ensures ok ==> old(offset) < offset <= |content| && depth == old(depth)
      ensures JsonParse.ParseValue(TokensAt(content, old(offset)), old(depth)) ==
        if ok then Parsed(item, offset, TokensFrom(content, offset)) else Failed(offset, depth)
      ensures overran <==> offset > |content|
      decreases |content| - offset, 0
    {
      hide JsonParse.ParseValue, ParseElements, TokensAt, SkipWhite;
      TokenAt(content, offset);
      ok, item := false, Null;
      if depth >= NESTING_LIMIT {
        TooDeep(content, offset, depth);
        return;
      }
      ArrayAt(content, offset, depth);
      depth := depth + 1;
      offset := offset + 1;
      SkipWhitespace();
      var head: seq<Json> := [];
      if !(offset < |content| && content[offset] == CLOSE_ARRAY) {
        SkipAgain(content, old(offset) + 1);
        offset := offset - 1;
        if offset + 1 == |content| { return; }
        ghost var end;
        ok, head, end := ElementLoop();
        if !ok { return; }
        CloseArrayIs(content, offset, ElementList(head, NoElement), end, depth);
        if offset >= |content| || content[offset] != CLOSE_ARRAY { return false, Null; }
      }
      depth := depth - 1;
      item := Array(ElementList(head, NoElement));
      offset := offset + 1;
      ok := true;
    }

    /** The loop of parse_array, which starts on the byte in front of the first element. */
    method ElementLoop() returns (ok: bool, head: seq<Json>, ghost end: nat)
      requires offset < |content| && !overran
      modifies this
      ensures ok ==> old(offset) + 1 < offset <= |content| && depth == old(depth)
      ensures ParseElements(TokensFrom(content, old(offset) + 1), old(depth)) ==
        if ok then Parsed(ElementList(head, NoElement), end, TokensAt(content, offset)) else Failed(offset, depth)
      ensures overran <==> offset > |content|
      decreases |content| - offset - 1, 2
    {
      hide JsonParse.ParseValue, ParseElements, TokensAt, SkipWhite;
      ghost var first, d := TokensFrom(content, offset + 1), depth;
      ok, head, end := true, [], 0;
      var more := true;
      AddNothing(ParseElements(first, d));
      while more
        invariant old(offset) <= offset <= |content| && depth == d && ok && !overran
        invariant more ==>
          offset < |content|
          && ParseElements(first, d) == AddElements(head, ParseElements(TokensFrom(content, offset + 1), d))
        invariant !more ==>
          old(offset) + 1 < offset
          && ParseElements(first, d) == Parsed(ElementList(head, NoElement), end, TokensAt(content, offset))
        decreases |content| - offset, more
      {
        offset := offset + 1;
        SkipWhitespace();
        ghost var p := offset;
        var v;
        ok, v := ParseValue();
        ElementAt(content, p, d, JsonParse.ParseValue(TokensAt(content, p), d));
        if !ok { return; }
        ElementLinked(head, v, NoElement);
        end := offset;
        SkipWhitespace();
        more := offset < |content| && content[offset] == COMMA;
        if more {
          TokenAt(content, offset);
          ElementAdded(head, v, ParseElements(TokensFrom(content, offset + 1), d));
        }
        head := head + [v];
      }
    }

    /** parse_object */
    method ParseObject() returns (ok: bool, item: Json)
      requires Holds(content, offset, OPEN_OBJECT) && !overran
      modifies this
      ensures ok ==> old(offset) < offset <= |content| && depth == old(depth)
      ensures JsonParse.ParseValue(TokensAt(content, old(offset)), old(depth)) ==
        if ok then Parsed(item, offset, TokensFrom(content, offset)) else Failed(offset, depth)
      ensures overran <==> offset > |content|
      decreases |content| - offset, 0
    {
      hide JsonParse.ParseValue, ParseMembers, TokensAt, SkipWhite;
      TokenAt(content, offset);
      ok, item := false, Null;
      if depth >= NESTING_LIMIT {
        TooDeep(content, offset, depth);
        return;
      }
      ObjectAt(content, offset, depth);
      depth := depth + 1;
      offset := offset + 1;
      SkipWhitespace();
      var head: seq<(Option<CString>, Json)> := [];
      if !(offset < |content| && content[offset] == CLOSE_OBJECT) {
        SkipAgain(content, old(offset) + 1);
        offset := offset - 1;
        if offset + 1 == |content| { return; }
        ghost var end;
        ok, head, end := MemberLoop();
        if !ok { return; }
        CloseObjectIs(content, offset, MemberList(head, NoMember), end, depth);
        if offset >= |content| || content[offset] != CLOSE_OBJECT { return false, Null; }
      }
      depth := depth - 1;
      item := Object(MemberList(head, NoMember));
      offset := offset + 1;
      ok := true;
    }

    /** The name of a member, which starts behind the offset, and the way to the colon. */
    method MemberName() returns (ok: bool, text: CString)
      requires offset < |content| && !overran
      modifies this`offset, this`overran
      ensures ok ==> old(offset) + 1 < offset < |content|
      ensures ParseMembers(TokensFrom(content, old(offset) + 1), depth) ==
        if ok then MemberAt(Some(text), TokensFrom(content, offset + 1), depth) else Failed(offset, depth)
      ensures overran <==> offset > |content|
    {
      hide ParseMembers, MemberAt, TokensAt, JsonString.ParseString;
      offset := offset + 1;
      SkipWhitespace();
      ghost var name := offset;
      NameAt(content, name, depth);
      ok, text := ParseString();
      if !ok { return; }
      ColonAt(content, name, depth, text, offset);
      SkipWhitespace();
      TokenAt(content, offset);
      ok := offset < |content| && content[offset] == COLON;
    }

    /** The loop of parse_object, which starts on the byte in front of the first name. */
    method MemberLoop() returns (ok: bool, head: seq<(Option<CString>, Json)>, ghost end: nat)
      requires offset < |content| && !overran
      modifies this
      ensures ok ==> old(offset) + 1 < offset <= |content| && depth == old(depth)
      ensures ParseMembers(TokensFrom(content, old(offset) + 1), old(depth)) ==
        if ok then Parsed(MemberList(head, NoMember), end, TokensAt(content, offset)) else Failed(offset, depth)
      ensures overran <==> offset > |content|
      decreases |content| - offset - 1, 2
    {
      hide JsonParse.ParseValue, ParseMembers, MemberAt, TokensAt, SkipWhite;
      ghost var first, d := TokensFrom(content, offset + 1), depth;
      ok, head, end := true, [], 0;
      var more := true;
      AddNoMember(ParseMembers(first, d));
      while more
        invariant old(offset) <= offset <= |content| && depth == d && ok && !overran
        invariant more ==>
          offset < |content|
          && ParseMembers(first, d) == AddMembers(head, ParseMembers(TokensFrom(content, offset + 1), d))
        invariant !more ==>
          old(offset) + 1 < offset
          && ParseMembers(first, d) == Parsed(MemberList(head, NoMember), end, TokensAt(content, offset))
        decreases |content| - offset, more
      {
        var text;
        ok, text := MemberName();
        if !ok { return; }
        offset := offset + 1;
        SkipWhitespace();
        ghost var p := offset;
        var v;
        ok, v := ParseValue();
        MemberValue(content, text, p, d, JsonParse.ParseValue(TokensAt(content, p), d));
        if !ok { return; }
        MemberLinked(head, (Some(text), v), NoMember);
        end := offset;
        SkipWhitespace();
        more := offset < |content| && content[offset] == COMMA;
        if more {
          TokenAt(content, offset);
          MemberAdded(head, (Some(text), v), ParseMembers(TokensFrom(content, offset + 1), d));
        }
        head := head + [(Some(text), v)];
      }
    }

    /** skip_utf8_bom */
    method SkipUtf8Bom()
      requires offset == 0
      modifies this`offset
      ensures offset == SkipBom(content)
    {
      if 4 < |content| && At(content, offset, BOM) { offset := offset + 3; }
    }

    /**
     cJSON_ParseWithLengthOpts on a fresh buffer: the item and the end it reports, or nothing and the position
     of the error. It reads past the buffer exactly when it fails with the offset behind the end.
     */
    method Parse(requireNul: bool) returns (item: Option<Json>, end: nat)
      requires offset == 0 && depth == 0 && !overran
      modifies this
      ensures (item, end) == ParseWithLengthOpts(content, requireNul)
      ensures overran <==> Overruns(content)
    {
      hide JsonParse.ParseValue, LeafAt;
      if content == [] { return None, 0; }
      SkipUtf8Bom();
      SkipWhitespace();
      var ok, v := ParseValue();
      if ok && requireNul {
        SkipWhitespace();
        TokenAt(content, offset);
        ok := offset < |content| && content[offset] == 0;
      }
      if ok { return Some(v), offset; }
      return None, ErrorAt(content, offset);
    }
  }
}
