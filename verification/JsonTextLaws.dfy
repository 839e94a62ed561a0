/** How the text of a tree is put together from the texts of its parts. */
module JsonTextLaws {
  import opened Bytes
  import opened Json
  import opened JsonString
  import opened JsonText

  function Append(k: Chunks, l: Chunks): Chunks {
    match k
    case Nil => l
    case Lexeme(token, next) => Lexeme(token, Append(next, l))
    case White(w, next) => White(w, Append(next, l))
  }

  lemma {:induction false} FlattenAppend(k: Chunks, l: Chunks)
    ensures Flatten(Append(k, l)) == Flatten(k) + Flatten(l)
  {
    hide TokenText;
    match k {
      case Nil => assert [] + Flatten(l) == Flatten(l);
      case Lexeme(token, next) =>
        FlattenAppend(next, l);
        Associative(TokenText(token), Flatten(next), Flatten(l));
      case White(w, next) =>
        FlattenAppend(next, l);
        Associative(w, Flatten(next), Flatten(l));
    }
  }

  lemma Associative(a: seq<byte>, b: seq<byte>, c: seq<byte>)
    ensures a + (b + c) == (a + b) + c
  {
  }

  /** What is printed behind a tree has no influence on the tree's text. */
  lemma {:induction false} PrintAppends(t: Json, format: bool, d: nat, k: Chunks, l: Chunks)
    ensures Print(t, format, d, Append(k, l)) == Append(Print(t, format, d, k), l)
    decreases t, 1
  {
    match t {
      case Array(child) => ElementsAppend(child, format, d + 1, Lexeme(CloseArray, k), l);
      case Object(members) =>
        MembersAppend(members, format, d + 1, White(Pad(format, Tabs(d)), Lexeme(CloseObject, k)), l);
      case _ =>
    }
  }

  lemma {:induction false} ElementsAppend(e: Elements, format: bool, d: nat, k: Chunks, l: Chunks)
    ensures PrintElements(e, format, d, Append(k, l)) == Append(PrintElements(e, format, d, k), l)
    decreases e, 0
  {
    if e.NoElement? {
    } else {
      ElementsAppend(e.next, format, d, k, l);
      PrintAppends(e.value, format, d, PrintMore(e.next, format, d, k), l);
    }
  }

  lemma {:induction false} MembersAppend(m: Members, format: bool, d: nat, k: Chunks, l: Chunks)
    ensures PrintMembers(m, format, d, Append(k, l)) == Append(PrintMembers(m, format, d, k), l)
    decreases m, 0
  {
    if m.NoMember? {
    } else {
      MembersAppend(m.rest, format, d, k, l);
      PrintAppends(m.val, format, d, EndLine(m.rest, format, d, k), l);
      var value := White(Pad(format, [TAB]), Print(m.val, format, d, EndLine(m.rest, format, d, k)));
      assert Append(EndLine(m.rest, format, d, k), l) == EndLine(m.rest, format, d, Append(k, l));
      assert Append(Lexeme(Colon, value), l) == Lexeme(Colon, Append(value, l));
    }
  }

  lemma {:induction false} TextIsPrefix(t: Json, format: bool, d: nat, k: Chunks)
    ensures Flatten(Print(t, format, d, k)) == Text(t, format, d) + Flatten(k)
  {
    PrintAppends(t, format, d, Nil, k);
    FlattenAppend(Print(t, format, d, Nil), k);
  }

  // ---- the text piece by piece, as the printer writes it ----

  lemma LeafIsText(t: Json, format: bool, d: nat)
    ensures !t.Array? && !t.Object? ==> Text(t, format, d) == LeafText(t)
  {
    if !t.Array? && !t.Object? {
      hide LeafText;
      assert Print(t, format, d, Nil) == Lexeme(Leaf(t), Nil);
      assert Flatten(Lexeme(Leaf(t), Nil)) == LeafText(t) + Flatten(Nil);
      assert LeafText(t) + [] == LeafText(t);
    }
  }

  lemma {:induction false} ArrayText(e: Elements, format: bool, d: nat)
    ensures Text(Array(e), format, d) == [OPEN_ARRAY] + Flatten(PrintElements(e, format, d + 1, Lexeme(CloseArray, Nil)))
  {
  }

  lemma CloseText(format: bool, d: nat)
    ensures Flatten(Lexeme(CloseArray, Nil)) == [CLOSE_ARRAY]
    ensures Flatten(CloseBrace(format, d)) == Pad(format, Tabs(d)) + [CLOSE_OBJECT]
  {
    hide Pad;
    assert Flatten(Lexeme(CloseObject, Nil)) == [CLOSE_OBJECT];
  }

  lemma {:induction false} ElementText(e: Elements, format: bool, d: nat, k: Chunks)
    requires e.Element?
    ensures Flatten(PrintElements(e, format, d, k)) == Text(e.value, format, d) + Flatten(PrintMore(e.next, format, d, k))
  {
    TextIsPrefix(e.value, format, d, PrintMore(e.next, format, d, k));
  }

  lemma {:induction false} NoMoreText(format: bool, d: nat, k: Chunks)
    ensures PrintElements(NoElement, format, d, k) == k == PrintMore(NoElement, format, d, k)
    ensures PrintMembers(NoMember, format, d, k) == k
  {
  }

  lemma {:induction false} MoreText(e: Elements, format: bool, d: nat, k: Chunks)
    requires e.Element?
    ensures Flatten(PrintMore(e, format, d, k)) ==
      ([COMMA] + Pad(format, [SPACE])) + Flatten(PrintElements(e, format, d, k))
  {
    hide PrintElements, Pad;
    Associative([COMMA], Pad(format, [SPACE]), Flatten(PrintElements(e, format, d, k)));
  }

  /** The closing brace with the white space in front of it. */
  function CloseBrace(format: bool, d: nat): Chunks {
    White(Pad(format, Tabs(d)), Lexeme(CloseObject, Nil))
  }

  lemma {:induction false} ObjectText(m: Members, format: bool, d: nat)
    ensures Text(Object(m), format, d) ==
      ([OPEN_OBJECT] + Pad(format, [NEWLINE])) + Flatten(PrintMembers(m, format, d + 1, CloseBrace(format, d)))
  {
    hide PrintMembers, Pad;
    var rest := PrintMembers(m, format, d + 1, CloseBrace(format, d));
    assert Print(Object(m), format, d, Nil) == Lexeme(OpenObject, White(Pad(format, [NEWLINE]), rest));
    Associative([OPEN_OBJECT], Pad(format, [NEWLINE]), Flatten(rest));
    assert Flatten(White(Pad(format, [NEWLINE]), rest)) == Pad(format, [NEWLINE]) + Flatten(rest);
  }

  /** A member's line: the indentation, the name, the colon, the value and the end of the line. */
  lemma {:induction false} MemberText(m: Members, format: bool, d: nat, k: Chunks)
    requires m.Member?
    ensures Flatten(PrintMembers(m, format, d, k)) ==
      Pad(format, Tabs(d)) + (StringText(m.key) + (([COLON] + Pad(format, [TAB])) +
      (Text(m.val, format, d) + Flatten(EndLine(m.rest, format, d, k)))))
  {
    hide EndLine, Pad, Print, StringText, Tabs;
    var value := Print(m.val, format, d, EndLine(m.rest, format, d, k));
    var colon := Lexeme(Colon, White(Pad(format, [TAB]), value));
    TextIsPrefix(m.val, format, d, EndLine(m.rest, format, d, k));
    Associative([COLON], Pad(format, [TAB]), Flatten(value));
    assert Flatten(White(Pad(format, [TAB]), value)) == Pad(format, [TAB]) + Flatten(value);
    assert Flatten(Lexeme(Leaf(String(m.key)), colon)) == StringText(m.key) + Flatten(colon);
  }

  /** What ends a member's line. */
  function LineEnd(last: bool, format: bool): seq<byte> {
    (if last then [] else [COMMA]) + Pad(format, [NEWLINE])
  }

  lemma {:induction false} EndLineText(rest: Members, format: bool, d: nat, k: Chunks)
    ensures Flatten(EndLine(rest, format, d, k)) ==
      LineEnd(rest.NoMember?, format) + Flatten(PrintMembers(rest, format, d, k))
  {
    hide Pad, PrintMembers;
    var newline, more := Pad(format, [NEWLINE]), PrintMembers(rest, format, d, k);
    assert Flatten(White(newline, more)) == newline + Flatten(more);
    if rest.Member? { Associative([COMMA], newline, Flatten(more)); } else { assert [] + newline == newline; }
  }

  // ---- no text of a printable tree holds a NUL ----

  predicate NoNul(k: Chunks) {
    match k
    case Nil => true
    case Lexeme(token, next) => 0 !in TokenText(token) && NoNul(next)
    case White(w, next) => 0 !in w && NoNul(next)
  }

  lemma {:induction false} FlattenNoNul(k: Chunks)
    requires NoNul(k)
    ensures 0 !in Flatten(k)
  {
    match k {
      case Nil =>
      case Lexeme(_, next) => FlattenNoNul(next);
      case White(_, next) => FlattenNoNul(next);
    }
  }

  lemma {:induction false} EscapeNoNul(s: CString)
    ensures 0 !in Escape(s)
  {
    if s == [] {
    } else {
      EscapeNoNul(s[1..]);
    }
  }

  lemma LeafNoNul(t: Scalar)
    ensures 0 !in LeafText(t)
  {
    if t.String? && t.text.Some? { EscapeNoNul(t.text.value); }
  }

  lemma {:induction false} PrintNoNul(t: Json, format: bool, d: nat, k: Chunks)
    requires NoNul(k)
    ensures NoNul(Print(t, format, d, k))
    decreases t, 1
  {
    hide LeafText;
    match t {
      case Array(child) => ElementsNoNul(child, format, d + 1, Lexeme(CloseArray, k));
      case Object(members) =>
        MembersNoNul(members, format, d + 1, White(Pad(format, Tabs(d)), Lexeme(CloseObject, k)));
      case _ => LeafNoNul(t);
    }
  }

  lemma {:induction false} ElementsNoNul(e: Elements, format: bool, d: nat, k: Chunks)
    requires NoNul(k)
    ensures NoNul(PrintElements(e, format, d, k))
    decreases e, 0
  {
    hide LeafText;
    if e.NoElement? {
    } else {
      ElementsNoNul(e.next, format, d, k);
      PrintNoNul(e.value, format, d, PrintMore(e.next, format, d, k));
    }
  }

  lemma {:induction false} MembersNoNul(m: Members, format: bool, d: nat, k: Chunks)
    requires NoNul(k)
    ensures NoNul(PrintMembers(m, format, d, k))
    decreases m, 0
  {
    hide LeafText;
    if m.NoMember? {
    } else {
      MembersNoNul(m.rest, format, d, k);
      PrintNoNul(m.val, format, d, EndLine(m.rest, format, d, k));
      LeafNoNul(String(m.key));
      var value := Print(m.val, format, d, EndLine(m.rest, format, d, k));
      assert NoNul(Lexeme(Colon, White(Pad(format, [TAB]), value)));
    }
  }

  lemma TextNoNul(t: Json, format: bool, d: nat)
    ensures 0 !in Text(t, format, d)
  {
    PrintNoNul(t, format, d, Nil);
    FlattenNoNul(Print(t, format, d, Nil));
  }

  // ---- escaping byte by byte ----

  lemma {:induction false} EscapeSnoc(s: seq<byte>, b: byte)
    ensures Escape(s + [b]) == Escape(s) + EscapeByte(b)
  {
    if s == [] {
      assert [b][1..] == [];
      assert Escape([b]) == EscapeByte(b) + [];
    } else {
      hide EscapeByte;
      assert (s + [b])[1..] == s[1..] + [b];
      EscapeSnoc(s[1..], b);
      Associative(EscapeByte(s[0]), Escape(s[1..]), EscapeByte(b));
    }
  }

  /** How many bytes escaping adds for one byte: print_string_ptr counts them up front. */
  function Extra(b: byte): nat {
    if EscapeLetter(b).Some? then 1 else if b < 32 then 5 else 0
  }

  lemma EscapeLength(s: seq<byte>, i: nat)
    requires i < |s|
    ensures Escape(s[..i + 1]) == Escape(s[..i]) + EscapeByte(s[i])
    ensures |Escape(s[..i + 1])| == |Escape(s[..i])| + 1 + Extra(s[i])
  {
    assert s[..i + 1] == s[..i] + [s[i]];
    EscapeSnoc(s[..i], s[i]);
  }

  lemma EscapeNothing(s: seq<byte>)
    ensures Escape(s[..0]) == []
  {
  }

  /** An escaped text is at least as long as the part of it that is written first. */
  lemma {:induction false} EscapeGrows(s: seq<byte>, i: nat)
    requires i <= |s|
    ensures |Escape(s[..i])| <= |Escape(s)|
    decreases |s| - i
  {
    if i < |s| {
      EscapeLength(s, i);
      EscapeGrows(s, i + 1);
    } else {
      assert s[..i] == s;
    }
  }

  /** When nothing was counted the text is its own escape. */
  lemma {:induction false} NothingEscaped(s: seq<byte>)
    requires |Escape(s)| == |s|
    ensures Escape(s) == s
  {
    if s == [] {
    } else {
      assert |EscapeByte(s[0])| == 1;
      NothingEscaped(s[1..]);
    }
  }
}
