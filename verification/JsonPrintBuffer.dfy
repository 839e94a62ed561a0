/**
 The printer as it runs: it reserves room, writes and moves an offset, and the buffer may be replaced by a
 larger one at every step. What stands in front of the offset is always a prefix of the pure text.
 */
module JsonPrintBuffer {
  import opened Bytes
  import opened Json
  import opened JsonNumber
  import opened JsonString
  import opened JsonText
  import opened JsonTextLaws

  const SIZE_MAX: nat := 0xFFFF_FFFF_FFFF_FFFF

  class PrintBuffer {
    var buffer: array?<byte>
    var length: nat
    var offset: nat
    var depth: nat
    const noalloc: bool
    const format: bool

    /** Set when a larger buffer was asked for and could not be had. */
    var refused: bool

    ghost predicate Valid()
      reads this, buffer
    {
      && buffer != null
      && length == buffer.Length <= SIZE_MAX
      && (if length == 0 then offset == 0 else offset < length)
    }

    /** The text in front of the offset. */
    ghost function Written(): seq<byte>
      requires Valid()
      reads this, buffer
    {
      buffer[..offset]
    }

    constructor (buffer: array<byte>, noalloc: bool, format: bool)
      requires buffer.Length <= SIZE_MAX
      ensures Valid() && this.buffer == buffer && offset == 0 && depth == 0 && !refused
      ensures this.noalloc == noalloc && this.format == format
    {
      this.buffer, this.length, this.offset, this.depth := buffer, buffer.Length, 0, 0;
      this.noalloc, this.format, this.refused := noalloc, format, false;
    }

    /** ensure: `needed` more bytes and one to spare, in a buffer twice as large if need be. */
    method Ensure(needed: nat) returns (ok: bool)
      requires Valid()
      modifies this`buffer, this`length, this`refused
      ensures ok ==> Valid() && offset + needed + 1 <= length && Written() == old(Written())
      ensures ok ==> refused == old(refused)
      ensures !ok && !noalloc ==> refused
      ensures noalloc ==> buffer == old(buffer) && Valid() && refused == old(refused)
      ensures noalloc ==> (ok <==> offset + needed + 1 <= length)
      ensures buffer == old(buffer) || buffer == null || fresh(buffer)
      ensures !ok && buffer != null ==> Valid() && Written() == old(Written())
    {
      ok := false;
      if length > 0 && offset >= length { return; }
      if needed > SIZE_MAX {
        refused := refused || !noalloc;
        return;
      }
      var total := needed + offset + 1;
      if total <= length { return true; }
      if noalloc { return; }
      var newsize := total * 2;
      if total > SIZE_MAX / 2 {
        if total > SIZE_MAX {
          refused := true;
          return;
        }
        newsize := SIZE_MAX;
      }
      var granted: bool := *;
      if !granted {
        buffer, length, refused := null, 0, true;
        return;
      }
      var newbuffer := new byte[newsize];
      forall i | 0 <= i < length { newbuffer[i] := buffer[i]; }
      assert newbuffer[..offset] == buffer[..offset];
      buffer, length := newbuffer, newsize;
      ok := true;
    }

    /** strcpy and memcpy to the place `at`. */
    method Copy(at: nat, s: seq<byte>)
      requires buffer != null && at + |s| <= buffer.Length
      modifies buffer
      ensures buffer[..at + |s|] == old(buffer[..at]) + s
    {
      var i := 0;
      while i < |s|
        invariant i <= |s|
        invariant buffer[..at] == old(buffer[..at])
        invariant buffer[at..at + i] == s[..i]
      {
        buffer[at + i] := s[i];
        i := i + 1;
      }
      assert buffer[..at + |s|] == buffer[..at] + buffer[at..at + |s|];
    }

    /** Reserves `needed` bytes, writes `s` behind the offset and moves over the first `n` bytes of it. */
    method Put(needed: nat, s: seq<byte>, n: nat) returns (ok: bool)
      requires Valid() && n <= |s| <= needed
      modifies this`buffer, this`length, this`refused, this`offset, buffer
      ensures ok ==> Valid() && offset == old(offset) + n && old(offset) + needed + 1 <= length
      ensures ok ==> buffer[..old(offset) + |s|] == old(Written()) + s && refused == old(refused)
      ensures !ok ==> refused || (noalloc && length < old(offset) + needed + 1)
      ensures noalloc ==> buffer == old(buffer) && Valid() && refused == old(refused)
      ensures buffer == old(buffer) || buffer == null || fresh(buffer)
      ensures !ok && buffer != null ==> Valid() && Written() == old(Written())
    {
      ok := Ensure(needed);
      if ok {
        Copy(offset, s);
        offset := offset + n;
      }
    }

    /** `total` stands in the buffer, terminated and with a byte to spare; the offset may be short of its end. */
    ghost predicate Done(total: seq<byte>)
      reads this, buffer
    {
      Valid() && offset <= |total| && |total| + 2 <= length && buffer[..|total|] == total && buffer[|total|] == 0
    }

    /** update_offset: the offset moves to the terminator. */
    method UpdateOffset(ghost total: seq<byte>)
      requires Done(total) && 0 !in total[offset..]
      modifies this`offset
      ensures Done(total) && offset == |total| && Written() == total
    {
      ghost var n := |total| - offset;
      CStrTerminated(buffer[offset..], n);
      assert buffer[offset..][..n] == total[offset..];
      offset := offset + |CStr(buffer[offset..])|;
    }

    /**
     What a method that prints `text` leaves behind. On success the text stands in the buffer with a byte to
     spare. It fails only for an item that cannot be printed, when memory is refused, or when a buffer that
     may not be replaced is too short for the text, the terminator and one more byte. Either way what stands
     in front of the offset is a prefix of the text.
     */
    twostate predicate Printed(ok: bool, text: seq<byte>, printable: bool)
      requires old(Valid())
      reads this, buffer
    {
      && (buffer == old(buffer) || buffer == null || fresh(buffer))
      && (buffer != null ==> Valid() && Written() <= old(Written()) + text)
      && (noalloc ==> buffer == old(buffer) && refused == old(refused))
      && (ok ==> Done(old(Written()) + text) && old(offset) <= offset && refused == old(refused) && printable)
      && (!ok ==> refused || !printable || (noalloc && length < old(offset) + |text| + 2))
    }

    /** print_number, behind the conversion to digits. */
    method PrintNumber(token: CString) returns (ok: bool)
      requires Valid()
      modifies this`buffer, this`length, this`refused, this`offset, buffer
      ensures Printed(ok, token, |token| <= MAX_PRINTED)
    {
      if |token| > MAX_PRINTED { return false; }
      ok := Put(|token| + 1, token + [0], |token|);
    }

    /** A text with its terminator, the offset left in front of it. */
    method Word(text: CString) returns (ok: bool)
      requires Valid()
      modifies this`buffer, this`length, this`refused, this`offset, buffer
      ensures Printed(ok, text, true)
    {
      ok := Put(|text| + 1, text + [0], 0);
    }

    /** print_string_ptr */
    method PrintStringPtr(input: Option<CString>) returns (ok: bool)
      requires Valid()
      modifies this`buffer, this`length, this`refused, this`offset, buffer
      ensures Printed(ok, StringText(input), true)
    {
      hide EscapeByte;
      if input.None? {
        assert StringText(input) == [QUOTE, QUOTE];
        ok := Put(3, [QUOTE, QUOTE] + [0], 0);
      } else {
        ok := PrintQuoted(input.value, StringText(input));
      }
    }

    method PrintQuoted(s: CString, ghost text: seq<byte>) returns (ok: bool)
      requires Valid() && text == [QUOTE] + Escape(s) + [QUOTE]
      modifies this`buffer, this`length, this`refused, buffer
      ensures Printed(ok, text, true)
    {
      hide Escape;
      var escapeCharacters := CountEscapes(s);
      ok := Ensure(|s| + escapeCharacters + 3);
      if ok { WriteQuoted(s, escapeCharacters, text); }
    }

    /** The text between its quotes, the closing one put where the count says. */
    method WriteQuoted(s: CString, escapeCharacters: nat, ghost text: seq<byte>)
      requires Valid() && |s| + escapeCharacters == |Escape(s)| && offset + |Escape(s)| + 4 <= length
      requires text == [QUOTE] + Escape(s) + [QUOTE]
      modifies buffer
      ensures Done(old(Written()) + text)
    {
      hide EscapeByte, Escape;
      buffer[offset] := QUOTE;
      assert buffer[..offset + 1] == old(Written()) + [QUOTE];
      if escapeCharacters == 0 {
        NothingEscaped(s);
        Copy(offset + 1, s);
      } else {
        CopyEscaped(offset + 1, s);
      }
      var end := offset + |s| + escapeCharacters;
      ghost var t := buffer[..end + 1];
      buffer[end + 1] := QUOTE;
      buffer[end + 2] := 0;
      assert buffer[..end + 1] == t;
      assert buffer[..end + 2] == t + [QUOTE];
      assert t + [QUOTE] == old(Written()) + text;
    }

    /** The first loop of print_string_ptr. */
    static method CountEscapes(s: CString) returns (escapeCharacters: nat)
      ensures |s| + escapeCharacters == |Escape(s)|
    {
      hide Escape, EscapeByte;
      escapeCharacters := 0;
      var i := 0;
      EscapeNothing(s);
      while i < |s|
        invariant i <= |s| && i + escapeCharacters == |Escape(s[..i])|
      {
        EscapeLength(s, i);
        if EscapeLetter(s[i]).Some? {
          escapeCharacters := escapeCharacters + 1;
        } else if s[i] < 32 {
          escapeCharacters := escapeCharacters + 5;
        }
        i := i + 1;
      }
      assert s[..i] == s;
    }

    /** The second loop of print_string_ptr. */
    method CopyEscaped(at: nat, s: CString)
      requires buffer != null && at + |Escape(s)| + 2 <= buffer.Length
      modifies buffer
      ensures buffer[..at + |Escape(s)|] == old(buffer[..at]) + Escape(s)
    {
      hide Escape, EscapeByte;
      var i, output := 0, at;
      EscapeNothing(s);
      while i < |s|
        invariant i <= |s| && output == at + |Escape(s[..i])| <= at + |Escape(s)|
        invariant buffer[..output] == old(buffer[..at]) + Escape(s[..i])
      {
        EscapeLength(s, i);
        EscapeGrows(s, i + 1);
        output := CopyEscape(output, s[i]);
        i := i + 1;
      }
      assert s[..i] == s;
    }

    /** One turn of it. sprintf terminates what it writes, one byte further on. */
    method CopyEscape(at: nat, b: byte) returns (output: nat)
      requires buffer != null && at + |EscapeByte(b)| + 1 <= buffer.Length
      modifies buffer
      ensures output == at + |EscapeByte(b)| && buffer[..output] == old(buffer[..at]) + EscapeByte(b)
    {
      hide UnicodeEscape;
      output := at;
      if b > 31 && b != QUOTE && b != BACKSLASH {
        buffer[output] := b;
      } else {
        buffer[output] := BACKSLASH;
        output := output + 1;
        assert buffer[..output] == old(buffer[..at]) + [BACKSLASH];
        match EscapeLetter(b) {
          case Some(letter) => buffer[output] := letter;
          case None =>
            Copy(output, UnicodeEscape(b) + [0]);
            assert buffer[..output + 5] == buffer[..output + 6][..output + 5] == old(buffer[..at]) + EscapeByte(b);
            output := output + 4;
        }
      }
      output := output + 1;
    }

    /** On the way to `total`, with `rest` still to be written. */
    twostate predicate Progress(ok: bool, total: seq<byte>, rest: seq<byte>, printable: bool)
      requires old(Valid())
      reads this, buffer
    {
      && (buffer == old(buffer) || buffer == null || fresh(buffer))
      && (buffer != null ==> Valid() && Written() <= total)
      && (noalloc ==> buffer == old(buffer) && refused == old(refused))
      && (ok ==> Valid() && Written() + rest == total && old(offset) <= offset && refused == old(refused) && printable)
      && (!ok ==> refused || !printable || (noalloc && length < |total| + 2))
    }

    /** Put, as one step towards `total`. */
    method Piece(needed: nat, s: seq<byte>, n: nat, ghost rest: seq<byte>, ghost total: seq<byte>) returns (ok: bool)
      requires Valid() && n <= |s| <= needed <= n + |rest| + 1
      requires total == Written() + (s[..n] + rest)
      modifies this`buffer, this`length, this`refused, this`offset, buffer
      ensures Progress(ok, total, rest, true)
    {
      ok := Put(needed, s, n);
      if ok {
        assert buffer[..offset] == buffer[..old(offset) + |s|][..offset] == old(Written()) + s[..n];
        assert Written() + rest == total;
      }
    }

    /** print_string_ptr and update_offset. */
    method Name(key: Option<CString>, ghost rest: seq<byte>, ghost total: seq<byte>) returns (ok: bool)
      requires Valid() && total == Written() + (StringText(key) + rest)
      modifies this`buffer, this`length, this`refused, this`offset, buffer
      ensures Progress(ok, total, rest, true)
    {
      ghost var before, text := Written(), StringText(key);
      LeafNoNul(String(key));
      hide StringText;
      ok := PrintStringPtr(key);
      assert (before + text) + rest == total;
      if ok { UpdateOffset(before + text); }
    }

    /** print_value and update_offset. */
    method Child(item: Json, ghost rest: seq<byte>, ghost total: seq<byte>) returns (ok: bool)
      requires Valid() && total == Written() + (Text(item, format, depth) + rest)
      modifies this, buffer
      ensures Progress(ok, total, rest, Printable(item))
      ensures ok ==> depth == old(depth)
      decreases item, 2
    {
      hide Text, Printable;
      ghost var before, text := Written(), Text(item, format, depth);
      TextNoNul(item, format, depth);
      ok := PrintValue(item);
      assert (before + text) + rest == total;
      if ok { UpdateOffset(before + text); }
    }

    /** print_value */
    method PrintValue(item: Json) returns (ok: bool)
      requires Valid()
      modifies this, buffer
      ensures Printed(ok, Text(item, format, old(depth)), Printable(item))
      ensures ok ==> depth == old(depth)
      decreases item, 1
    {
      LeafIsText(item, format, depth);
      hide Text;
      match item {
        case Null => ok := Word(NULL_TEXT);
        case False => ok := Word(FALSE_TEXT);
        case True => ok := Word(TRUE_TEXT);
        case Number(token) => ok := PrintNumber(token);
        case Raw(raw) =>
          if raw.None? { return false; }
          ok := Word(raw.value);
        case String(text) => ok := PrintStringPtr(text);
        case Array(child) => ok := PrintArray(child);
        case Object(members) => ok := PrintObject(members);
      }
    }

    /** The closing bracket or brace with what stands in front of it; the offset stays behind. */
    method Close(text: seq<byte>, ghost total: seq<byte>) returns (ok: bool)
      requires Valid() && total == Written() + text
      modifies this`buffer, this`length, this`refused, this`offset, buffer
      ensures Progress(ok, total, text, true)
      ensures ok ==> Done(total) && offset == old(offset)
    {
      ok := Put(|text| + 1, text + [0], 0);
    }

    /** One turn of the loop of print_array. */
    method Element(current: Elements, ghost total: seq<byte>, ghost close: Chunks) returns (ok: bool)
      requires Valid() && current.Element?
      requires total == Written() + Flatten(PrintElements(current, format, depth, close))
      modifies this, buffer
      ensures Progress(ok, total, Flatten(PrintElements(current.next, format, old(depth), close)), Printable(current.value))
      ensures ok ==> depth == old(depth)
      decreases current, 0
    {
      hide Text, PrintElements, Flatten, Printable;
      NoMoreText(format, depth, close);
      ElementText(current, format, depth, close);
      ok := Child(current.value, Flatten(PrintMore(current.next, format, depth, close)), total);
      if ok && current.next.Element? {
        MoreText(current.next, format, depth, close);
        var separator := [COMMA] + Pad(format, [SPACE]);
        ok := Piece(|separator| + 1, separator + [0], |separator|,
          Flatten(PrintElements(current.next, format, depth, close)), total);
      }
    }

    /** The loop of print_array. */
    method ElementLoop(child: Elements, ghost total: seq<byte>, ghost close: Chunks) returns (ok: bool)
      requires Valid() && total == Written() + Flatten(PrintElements(child, format, depth, close))
      modifies this, buffer
      ensures Progress(ok, total, Flatten(close), PrintableElements(child))
      ensures ok ==> depth == old(depth)
      decreases child, 1
    {
      hide Text, PrintElements, Flatten, Printable;
      ok := true;
      var current := child;
      while current.Element?
        invariant current == child || current < child
        invariant ok && depth == old(depth) && PrintableElements(child) == PrintableElements(current)
        invariant Progress(true, total, Flatten(PrintElements(current, format, depth, close)), true)
        decreases current
      {
        ok := Element(current, total, close);
        if !ok { return; }
        current := current.next;
      }
      NoMoreText(format, depth, close);
    }

    /** print_array */
    method PrintArray(child: Elements) returns (ok: bool)
      requires Valid()
      modifies this, buffer
      ensures Printed(ok, Text(Array(child), format, old(depth)), PrintableElements(child))
      ensures ok ==> depth == old(depth)
      decreases child, 2
    {
      hide Text, PrintElements, Flatten, PrintableElements;
      ghost var close := Lexeme(CloseArray, Nil);
      ghost var total := Written() + Text(Array(child), format, depth);
      ok := OpenBracket(child, total, close);
      if !ok { return; }
      ok := ElementLoop(child, total, close);
      if !ok { return; }
      NoMoreText(format, depth, close);
      CloseText(format, depth);
      ok := Close([CLOSE_ARRAY], total);
      if ok { depth := depth - 1; }
    }

    method OpenBracket(child: Elements, ghost total: seq<byte>, ghost close: Chunks) returns (ok: bool)
      requires Valid() && total == Written() + Text(Array(child), format, depth) && close == Lexeme(CloseArray, Nil)
      modifies this, buffer
      ensures Progress(ok, total, Flatten(PrintElements(child, format, old(depth) + 1, close)), true)
      ensures ok ==> depth == old(depth) + 1
    {
      hide Text, PrintElements, Flatten;
      ArrayText(child, format, depth);
      ok := Piece(1, [OPEN_ARRAY], 1, Flatten(PrintElements(child, format, depth + 1, close)), total);
      if ok { depth := depth + 1; }
    }

    /** A member's indentation. */
    method Indent(ghost rest: seq<byte>, ghost total: seq<byte>) returns (ok: bool)
      requires Valid() && total == Written() + (Pad(format, Tabs(depth)) + rest)
      modifies this`buffer, this`length, this`refused, this`offset, buffer
      ensures Progress(ok, total, rest, true)
    {
      ok := true;
      if format { ok := Piece(depth, Tabs(depth), depth, rest, total); }
    }

    /** The colon behind a name. */
    method ColonPiece(ghost rest: seq<byte>, ghost total: seq<byte>) returns (ok: bool)
      requires Valid() && total == Written() + (([COLON] + Pad(format, [TAB])) + rest)
      modifies this`buffer, this`length, this`refused, this`offset, buffer
      ensures Progress(ok, total, rest, true)
    {
      var text := [COLON] + Pad(format, [TAB]);
      ok := Piece(|text|, text, |text|, rest, total);
    }

    /** The end of a member's line. */
    method LineEndPiece(last: bool, ghost rest: seq<byte>, ghost total: seq<byte>) returns (ok: bool)
      requires Valid() && total == Written() + (LineEnd(last, format) + rest)
      modifies this`buffer, this`length, this`refused, this`offset, buffer
      ensures Progress(ok, total, rest, true)
    {
      var text := LineEnd(last, format);
      ok := Piece(|text| + 1, text + [0], |text|, rest, total);
    }

    /** A member's line up to its value. */
    method LineStart(key: Option<CString>, ghost colon: seq<byte>, ghost value: seq<byte>, ghost total: seq<byte>)
      returns (ok: bool)
      requires Valid() && total == Written() + (Pad(format, Tabs(depth)) + (StringText(key) + colon))
      requires colon == ([COLON] + Pad(format, [TAB])) + value
      modifies this`buffer, this`length, this`refused, this`offset, buffer
      ensures Progress(ok, total, value, true)
    {
      hide StringText, Pad;
      ok := Indent(StringText(key) + colon, total);
      if !ok { return; }
      ok := Name(key, colon, total);
      if !ok { return; }
      ok := ColonPiece(value, total);
    }

    /** One turn of the loop of print_object. */
    method MemberTurn(current: Members, ghost total: seq<byte>, ghost close: Chunks) returns (ok: bool)
      requires Valid() && current.Member?
      requires total == Written() + Flatten(PrintMembers(current, format, depth, close))
      modifies this, buffer
      ensures Progress(ok, total, Flatten(PrintMembers(current.rest, format, old(depth), close)), Printable(current.val))
      ensures ok ==> depth == old(depth)
      decreases current, 0
    {
      hide Text, PrintMembers, EndLine, LineEnd, Flatten, Printable, StringText, Pad;
      ghost var end := Flatten(EndLine(current.rest, format, depth, close));
      ghost var value := Text(current.val, format, depth) + end;
      ghost var colon := ([COLON] + Pad(format, [TAB])) + value;
      MemberText(current, format, depth, close);
      ok := LineStart(current.key, colon, value, total);
      if !ok { return; }
      ok := Child(current.val, end, total);
      if !ok { return; }
      EndLineText(current.rest, format, depth, close);
      ok := LineEndPiece(current.rest.NoMember?, Flatten(PrintMembers(current.rest, format, depth, close)), total);
    }

    /** The loop of print_object. */
    method MemberLoop(members: Members, ghost total: seq<byte>, ghost close: Chunks) returns (ok: bool)
      requires Valid() && total == Written() + Flatten(PrintMembers(members, format, depth, close))
      modifies this, buffer
      ensures Progress(ok, total, Flatten(close), PrintableMembers(members))
      ensures ok ==> depth == old(depth)
      decreases members, 1
    {
      hide Text, PrintMembers, Flatten, Printable;
      ok := true;
      var current := members;
      while current.Member?
        invariant current == members || current < members
        invariant ok && depth == old(depth) && PrintableMembers(members) == PrintableMembers(current)
        invariant Progress(true, total, Flatten(PrintMembers(current, format, depth, close)), true)
        decreases current
      {
        ok := MemberTurn(current, total, close);
        if !ok { return; }
        current := current.rest;
      }
      NoMoreText(format, depth, close);
    }

    method OpenBrace(members: Members, ghost total: seq<byte>) returns (ok: bool)
      requires Valid() && total == Written() + Text(Object(members), format, depth)
      modifies this, buffer
      ensures Progress(ok, total,
        Flatten(PrintMembers(members, format, old(depth) + 1, CloseBrace(format, old(depth)))), true)
      ensures ok ==> depth == old(depth) + 1
    {
      hide Text, PrintMembers, Flatten;
      ObjectText(members, format, depth);
      var text := [OPEN_OBJECT] + Pad(format, [NEWLINE]);
      ghost var rest := Flatten(PrintMembers(members, format, depth + 1, CloseBrace(format, depth)));
      ok := Piece(|text| + 1, text, |text|, rest, total);
      if ok { depth := depth + 1; }
    }

    /** print_object */
    method PrintObject(members: Members) returns (ok: bool)
      requires Valid()
      modifies this, buffer
      ensures Printed(ok, Text(Object(members), format, old(depth)), PrintableMembers(members))
      ensures ok ==> depth == old(depth)
      decreases members, 2
    {
      hide Text, PrintMembers, Flatten, PrintableMembers, CloseBrace, Tabs;
      ghost var close := CloseBrace(format, depth);
      ghost var total := Written() + Text(Object(members), format, depth);
      ok := OpenBrace(members, total);
      if !ok { return; }
      ok := MemberLoop(members, total, close);
      if !ok { return; }
      CloseText(format, depth - 1);
      ok := Close(Pad(format, Tabs(depth - 1)) + [CLOSE_OBJECT], total);
      if ok { depth := depth - 1; }
    }
  }

  // ---- the entry points ----

  /**
   cJSON_PrintPreallocated: it succeeds exactly when the tree can be printed and the buffer is at least two
   bytes longer than the text, and then the text stands in the buffer with its terminator.
   */
  method PrintPreallocated(item: Json, buffer: array?<byte>, format: bool) returns (ok: bool)
    requires buffer != null ==> buffer.Length <= SIZE_MAX
    modifies buffer
    ensures ok <==> buffer != null && Printable(item) && |Text(item, format, 0)| + 2 <= buffer.Length
    ensures ok ==> buffer[..|Text(item, format, 0)|] == Text(item, format, 0) && buffer[|Text(item, format, 0)|] == 0
  {
    hide Text, Printable;
    if buffer == null { return false; }
    var p := new PrintBuffer(buffer, true, format);
    ghost var text := Text(item, format, 0);
    ok := p.PrintValue(item);
    assert [] + text == text;
  }

  /**
   cJSON_Print and cJSON_PrintUnformatted, which start with 256 bytes, and cJSON_PrintBuffered, which starts with
   `prebuffer`.
   */
  method Print(item: Json, prebuffer: int, format: bool) returns (printed: Option<CString>, ghost refused: bool)
    requires prebuffer <= SIZE_MAX
    ensures printed.Some? ==> prebuffer >= 0 && Printable(item) && printed.value == Text(item, format, 0)
    ensures printed.None? ==> prebuffer < 0 || refused || !Printable(item)
  {
    hide Text, Printable;
    if prebuffer < 0 { return None, false; }
    var buffer := new byte[prebuffer];
    var p := new PrintBuffer(buffer, false, format);
    ghost var text := Text(item, format, 0);
    var ok := p.PrintValue(item);
    assert [] + text == text;
    refused := p.refused;
    if !ok { return None, refused; }
    TextNoNul(item, format, 0);
    p.UpdateOffset(text);
    printed := Some(p.buffer[..p.offset]);
  }
}
