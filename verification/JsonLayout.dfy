/**
 What printed text looks like: the compact and the formatted layout as plain recursions over the tree, and
 the spelling of every byte of a string.
 */
module JsonLayout {
  import opened Bytes
  import opened Json
  import opened JsonString
  import opened JsonText
  import opened JsonTextLaws
  import L = JsonLiteral

  /** Without format: brackets, commas, colons and the texts of the leaves, and nothing between them. */
  function Compact(t: Json): seq<byte> {
    match t
    case Null => [110, 117, 108, 108]
    case False => [102, 97, 108, 115, 101]
    case True => [116, 114, 117, 101]
    case Array(child) => [91] + CompactElements(child) + [93]
    case Object(members) => [123] + CompactMembers(members) + [125]
    case Number(token) => token
    case String(text) => Quoted(text)
    case Raw(raw) => if raw.Some? then raw.value else []
  }

  function CompactElements(e: Elements): seq<byte> {
    match e
    case NoElement => []
    case Element(v, next) => Compact(v) + (if next.NoElement? then [] else [44] + CompactElements(next))
  }

  function CompactMembers(m: Members): seq<byte> {
    match m
    case NoMember => []
    case Member(key, v, rest) =>
      Quoted(key) + [58] + Compact(v) + (if rest.NoMember? then [] else [44] + CompactMembers(rest))
  }

  /** A string that is missing is written like an empty one. */
  function Quoted(text: Option<CString>): seq<byte> {
    match text
    case None => [34, 34]
    case Some(s) => [34] + Escape(s) + [34]
  }

  /**
   With format, `d` containers around the value: a space behind the comma of an array; every member of an
   object on a line of its own behind `d + 1` tabs, with a tab behind its colon; `d` tabs in front of the
   closing brace, which stands on a line of its own even in an empty object.
   */
  function Formatted(t: Json, d: nat): seq<byte> {
    match t
    case Array(child) => [91] + FormattedElements(child, d + 1) + [93]
    case Object(members) => [123, 10] + FormattedMembers(members, d + 1) + Indentation(d) + [125]
    case _ => Compact(t)
  }

  function FormattedElements(e: Elements, d: nat): seq<byte> {
    match e
    case NoElement => []
    case Element(v, next) => Formatted(v, d) + (if next.NoElement? then [] else [44, 32] + FormattedElements(next, d))
  }

  function FormattedMembers(m: Members, d: nat): seq<byte> {
    match m
    case NoMember => []
    case Member(key, v, rest) =>
      Indentation(d) + Quoted(key) + [58, 9] + Formatted(v, d) + (if rest.NoMember? then [10] else [44, 10])
        + FormattedMembers(rest, d)
  }

  function Indentation(d: nat): seq<byte> {
    if d == 0 then [] else [9] + Indentation(d - 1)
  }

  function Laid(t: Json, format: bool, d: nat): seq<byte> {
    if format then Formatted(t, d) else Compact(t)
  }

  function LaidElements(e: Elements, format: bool, d: nat): seq<byte> {
    if format then FormattedElements(e, d) else CompactElements(e)
  }

  function LaidMembers(m: Members, format: bool, d: nat): seq<byte> {
    if format then FormattedMembers(m, d) else CompactMembers(m)
  }

  lemma {:induction false} TabsIndent(d: nat)
    ensures Tabs(d) == Indentation(d)
  {
    if d == 0 {
    } else {
      TabsIndent(d - 1);
      assert Tabs(d) == [TAB] + Tabs(d - 1);
    }
  }

  lemma QuotedIs(text: Option<CString>)
    ensures Quoted(text) == StringText(text)
  {
  }

  lemma {:induction false} IsLaidOut(t: Json, format: bool, d: nat)
    ensures Text(t, format, d) == Laid(t, format, d)
    decreases t, 1
  {
    hide Text, StringText, Quoted, Tabs;
    match t {
      case Array(child) =>
        ArrayText(child, format, d);
        CloseText(format, d);
        ElementsAreLaidOut(child, format, d + 1, Lexeme(CloseArray, Nil));
        Associative([91], LaidElements(child, format, d + 1), [93]);
      case Object(members) => ObjectIsLaidOut(members, format, d);
      case String(text) =>
        LeafIsText(t, format, d);
        QuotedIs(text);
      case _ => LeafIsText(t, format, d);
    }
  }

  lemma {:induction false} ObjectIsLaidOut(m: Members, format: bool, d: nat)
    ensures Text(Object(m), format, d) == Laid(Object(m), format, d)
    decreases m, 1
  {
    hide Text, Tabs, PrintMembers, Flatten, Laid, LaidMembers, Pad;
    ObjectText(m, format, d);
    CloseText(format, d);
    TabsIndent(d);
    MembersAreLaidOut(m, format, d + 1, CloseBrace(format, d));
    BracesAreLaidOut(m, format, d);
  }

  /** The braces around the members. */
  lemma {:induction false} BracesAreLaidOut(m: Members, format: bool, d: nat)
    ensures Laid(Object(m), format, d) ==
      ([OPEN_OBJECT] + Pad(format, [NEWLINE]))
      + (LaidMembers(m, format, d + 1) + (Pad(format, Indentation(d)) + [CLOSE_OBJECT]))
  {
    hide FormattedMembers, CompactMembers, Indentation;
    var open, members := [OPEN_OBJECT] + Pad(format, [NEWLINE]), LaidMembers(m, format, d + 1);
    if format {
      Associative(open + members, Indentation(d), [CLOSE_OBJECT]);
      Associative(open, members, Indentation(d) + [CLOSE_OBJECT]);
    } else {
      assert open == [OPEN_OBJECT] && Pad(format, Indentation(d)) + [CLOSE_OBJECT] == [CLOSE_OBJECT];
      Associative(open, members, [CLOSE_OBJECT]);
    }
  }

  lemma {:induction false} ElementsAreLaidOut(e: Elements, format: bool, d: nat, k: Chunks)
    ensures Flatten(PrintElements(e, format, d, k)) == LaidElements(e, format, d) + Flatten(k)
    decreases e, 0
  {
    hide Text, Flatten, PrintElements, PrintMore;
    if e.NoElement? {
      NoMoreText(format, d, k);
      assert [] + Flatten(k) == Flatten(k);
    } else {
      ElementText(e, format, d, k);
      IsLaidOut(e.value, format, d);
      var v := Laid(e.value, format, d);
      if e.next.NoElement? {
        NoMoreText(format, d, k);
        assert v + [] == v;
      } else {
        MoreText(e.next, format, d, k);
        ElementsAreLaidOut(e.next, format, d, k);
        var comma, more := [COMMA] + Pad(format, [SPACE]), LaidElements(e.next, format, d);
        Associative(comma, more, Flatten(k));
        Associative(v, comma + more, Flatten(k));
      }
    }
  }

  lemma {:induction false} MembersAreLaidOut(m: Members, format: bool, d: nat, k: Chunks)
    ensures Flatten(PrintMembers(m, format, d, k)) == LaidMembers(m, format, d) + Flatten(k)
    decreases m, 0
  {
    hide Text, Flatten, PrintMembers, EndLine, StringText, Tabs;
    if m.NoMember? {
      NoMoreText(format, d, k);
      assert [] + Flatten(k) == Flatten(k);
    } else {
      MemberText(m, format, d, k);
      EndLineText(m.rest, format, d, k);
      IsLaidOut(m.val, format, d);
      MembersAreLaidOut(m.rest, format, d, k);
      TabsIndent(d);
      LineIsLaidOut(m, format, d, Flatten(k));
    }
  }

  /** A member's line and those behind it. */
  lemma {:induction false} LineOf(m: Members, format: bool, d: nat)
    requires m.Member?
    ensures LaidMembers(m, format, d) ==
      Pad(format, Indentation(d)) + StringText(m.key) + ([COLON] + Pad(format, [TAB])) + Laid(m.val, format, d)
        + LineEnd(m.rest.NoMember?, format) + LaidMembers(m.rest, format, d)
  {
    hide Formatted, Compact, Indentation, StringText, Quoted;
    QuotedIs(m.key);
    if !format {
      var a, b, v := StringText(m.key), StringText(m.key) + [COLON], Compact(m.val);
      assert [] + a == a;
      assert m.rest.NoMember? ==> b + v + [] + [] == b + v + [];
      assert !m.rest.NoMember? ==> b + v + [COMMA] + CompactMembers(m.rest) == b + v + ([COMMA] + CompactMembers(m.rest));
    }
  }

  /** The pieces of a member's line, put together from the left. */
  lemma {:induction false} LineIsLaidOut(m: Members, format: bool, d: nat, behind: seq<byte>)
    requires m.Member?
    ensures LaidMembers(m, format, d) + behind ==
      Pad(format, Indentation(d)) + (StringText(m.key) + (([COLON] + Pad(format, [TAB])) +
      (Laid(m.val, format, d) + (LineEnd(m.rest.NoMember?, format) + (LaidMembers(m.rest, format, d) + behind)))))
  {
    hide StringText, Laid, Indentation, LineEnd, Pad;
    var a, b, c := Pad(format, Indentation(d)), StringText(m.key), [COLON] + Pad(format, [TAB]);
    var v, e, r := Laid(m.val, format, d), LineEnd(m.rest.NoMember?, format), LaidMembers(m.rest, format, d);
    LineOf(m, format, d);
    Regroup(a, b, c, v, e, r, behind);
  }

  lemma Regroup(a: seq<byte>, b: seq<byte>, c: seq<byte>, v: seq<byte>, e: seq<byte>, r: seq<byte>, k: seq<byte>)
    ensures a + b + c + v + e + r + k == a + (b + (c + (v + (e + (r + k)))))
  {
    Associative(a + b + c + v + e, r, k);
    Associative(a + b + c + v, e, r + k);
    Associative(a + b + c, v, e + (r + k));
    Associative(a + b, c, v + (e + (r + k)));
    Associative(a, b, c + (v + (e + (r + k))));
  }

  /** cJSON_PrintUnformatted writes the compact text, at any depth. */
  lemma {:induction false} TextIsCompact(t: Json, d: nat)
    ensures Text(t, false, d) == Compact(t)
  {
    IsLaidOut(t, false, d);
  }

  /** cJSON_Print writes the formatted one. */
  lemma {:induction false} TextIsFormatted(t: Json, d: nat)
    ensures Text(t, true, d) == Formatted(t, d)
  {
    IsLaidOut(t, true, d);
  }

  // ---- what can be printed ----

  /** The leaves of a tree, from left to right. */
  function Leaves(t: Json): seq<Json> {
    match t
    case Array(child) => ElementLeaves(child)
    case Object(members) => MemberLeaves(members)
    case _ => [t]
  }

  function ElementLeaves(e: Elements): seq<Json> {
    if e.NoElement? then [] else Leaves(e.value) + ElementLeaves(e.next)
  }

  function MemberLeaves(m: Members): seq<Json> {
    if m.NoMember? then [] else Leaves(m.val) + MemberLeaves(m.rest)
  }

  /** A leaf that print_value refuses: a number of more than 25 digits, or raw text that is not there. */
  predicate Refused(x: Json) {
    (x.Number? && |x.token| > 25) || (x.Raw? && x.raw.None?)
  }

  /** A tree cannot be printed exactly when one of its leaves is refused. */
  lemma {:induction false} PrintableIs(t: Json)
    ensures Printable(t) <==> forall x :: x in Leaves(t) ==> !Refused(x)
    decreases t, 0
  {
    match t {
      case Array(child) => ElementsArePrintable(child);
      case Object(members) => MembersArePrintable(members);
      case _ => assert t in Leaves(t);
    }
  }

  lemma {:induction false} ElementsArePrintable(e: Elements)
    ensures PrintableElements(e) <==> forall x :: x in ElementLeaves(e) ==> !Refused(x)
    decreases e, 1
  {
    if e.NoElement? {
    } else {
      PrintableIs(e.value);
      ElementsArePrintable(e.next);
    }
  }

  lemma {:induction false} MembersArePrintable(m: Members)
    ensures PrintableMembers(m) <==> forall x :: x in MemberLeaves(m) ==> !Refused(x)
    decreases m, 1
  {
    if m.NoMember? {
    } else {
      PrintableIs(m.val);
      MembersArePrintable(m.rest);
    }
  }

  // ---- the bytes of a string ----

  /** A way to write one byte of ASCII in a string. */
  predicate Writes(x: L.Piece, b: byte) {
    L.Grammatical(x) && L.Denoted([x]) == Some([b])
  }

  /** Digits in lower case, as "%04x" prints them. */
  predicate LowerCase(x: L.Piece) {
    x.Unit? ==> forall i :: 0 <= i < |x.digits| ==> 48 <= x.digits[i] <= 57 || 97 <= x.digits[i] <= 102
  }

  /**
   A byte of ASCII is written in the shortest of all ways the grammar has for it, with digits in lower case;
   any other byte is copied.
   */
  lemma EscapeIsShortest(b: byte) returns (x: L.Piece)
    ensures b < 128 ==> Writes(x, b) && LowerCase(x) && EscapeByte(b) == L.Written(x)
    ensures b < 128 ==> forall y :: Writes(y, b) ==> |EscapeByte(b)| <= |L.Written(y)|
    ensures b >= 128 ==> EscapeByte(b) == [b]
  {
    x := if EscapeLetter(b).Some? then L.Short(EscapeLetter(b).value)
      else if b < 32 then L.Unit(UnicodeEscape(b)[1..]) else L.Plain(b);
    if b < 128 {
      EscapeDenotes(b, x);
      forall y | Writes(y, b) ensures |EscapeByte(b)| <= |L.Written(y)| { NoShorter(b, y); }
    }
  }

  lemma EscapeDenotes(b: byte, x: L.Piece)
    requires b < 128
    requires x == if EscapeLetter(b).Some? then L.Short(EscapeLetter(b).value)
      else if b < 32 then L.Unit(UnicodeEscape(b)[1..]) else L.Plain(b)
    ensures Writes(x, b) && LowerCase(x) && EscapeByte(b) == L.Written(x)
  {
    assert [x][1..] == [];
    assert [b] + [] == [b];
    if x.Unit? {
      assert Hex4(x.digits) == b;
      assert UnicodeEscape(b) == [LETTER_U] + x.digits;
    }
  }

  lemma NoShorter(b: byte, y: L.Piece)
    requires b < 128 && Writes(y, b)
    ensures |EscapeByte(b)| <= |L.Written(y)|
  {
    assert [y][1..] == [];
    match y {
      case Plain(cp) => assert L.Denoted([y]).value[0] == cp == b;
      case Short(l) => assert L.Denoted([y]).value[0] == L.Escaped(l) == b;
      case Unit(h) =>
    }
  }
}
