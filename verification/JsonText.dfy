/** The text of a tree: what the printer writes, as a list of tokens and the white space between them. */
module JsonText {
  import opened Bytes
  import opened Json
  import opened JsonNumber
  import opened JsonString

  const COMMA: byte := 44
  const COLON: byte := 58
  const SPACE: byte := 32
  const TAB: byte := 9
  const NEWLINE: byte := 10
  const OPEN_ARRAY: byte := 91
  const CLOSE_ARRAY: byte := 93
  const OPEN_OBJECT: byte := 123
  const CLOSE_OBJECT: byte := 125

  const NULL_TEXT: seq<byte> := [110, 117, 108, 108]
  const TRUE_TEXT: seq<byte> := [116, 114, 117, 101]
  const FALSE_TEXT: seq<byte> := [102, 97, 108, 115, 101]

  /** The letter a one-character escape is written with. */
  function EscapeLetter(b: byte): Option<byte> {
    match b
    case 34 => Some(34)
    case 92 => Some(92)
    case 8 => Some(98)
    case 12 => Some(102)
    case 10 => Some(110)
    case 13 => Some(114)
    case 9 => Some(116)
    case _ => None
  }

  function HexLetter(n: nat): byte
    requires n < 16
  {
    if n < 10 then 48 + n else 87 + n
  }

  /** sprintf's "u%04x", for the control characters it is used on. */
  function UnicodeEscape(b: byte): (r: seq<byte>)
    requires b < 32
    ensures |r| == 5
  {
    if b < 16 then [LETTER_U, 48, 48, 48, HexLetter(b)] else [LETTER_U, 48, 48, 49, HexLetter(b - 16)]
  }

  function EscapeByte(b: byte): (r: seq<byte>)
    ensures 1 <= |r| <= 6
  {
    if EscapeLetter(b).Some? then [BACKSLASH, EscapeLetter(b).value]
    else if b < 32 then [BACKSLASH] + UnicodeEscape(b)
    else [b]
  }

  function Escape(s: seq<byte>): (r: seq<byte>)
    ensures |r| >= |s|
  {
    if s == [] then [] else EscapeByte(s[0]) + Escape(s[1..])
  }

  /** A NULL string prints as an empty one. */
  function StringText(s: Option<CString>): seq<byte> {
    [QUOTE] + Escape(if s.Some? then s.value else []) + [QUOTE]
  }

  function Tabs(n: nat): (r: seq<byte>)
    ensures |r| == n
  {
    seq(n, _ => TAB)
  }

  /** The text of an item that is no container. */
  function LeafText(t: Scalar): seq<byte> {
    match t
    case Null => NULL_TEXT
    case False => FALSE_TEXT
    case True => TRUE_TEXT
    case Number(token) => token
    case String(s) => StringText(s)
    case Raw(r) => if r.Some? then r.value else []
  }

  /** One piece of text after the other: a token, or white space. */
  datatype Chunks = Nil | Lexeme(token: Token, next: Chunks) | White(white: seq<byte>, next: Chunks)

  datatype Token = OpenArray | CloseArray | OpenObject | CloseObject | Comma | Colon | Leaf(item: Scalar)

  function TokenText(token: Token): seq<byte> {
    match token
    case OpenArray => [OPEN_ARRAY]
    case CloseArray => [CLOSE_ARRAY]
    case OpenObject => [OPEN_OBJECT]
    case CloseObject => [CLOSE_OBJECT]
    case Comma => [COMMA]
    case Colon => [COLON]
    case Leaf(item) => LeafText(item)
  }

  function Flatten(k: Chunks): seq<byte> {
    match k
    case Nil => []
    case Lexeme(token, next) => TokenText(token) + Flatten(next)
    case White(w, next) => w + Flatten(next)
  }

  function Length(k: Chunks): (n: nat)
    ensures n == |Flatten(k)|
  {
    match k
    case Nil => 0
    case Lexeme(token, next) => |TokenText(token)| + Length(next)
    case White(w, next) => |w| + Length(next)
  }

  /** The white space a formatted text adds. */
  function Pad(format: bool, w: seq<byte>): seq<byte> {
    if format then w else []
  }

  /**
   What the printer writes for `t`, in front of `k`. `depth` is the number of containers around the value;
   formatted objects put every member on a line of its own, indented by the depth.
   */
  function Print(t: Json, format: bool, depth: nat, k: Chunks): Chunks
    decreases t, 1
  {
    match t
    case Array(child) =>
      Lexeme(OpenArray, PrintElements(child, format, depth + 1, Lexeme(CloseArray, k)))
    case Object(members) =>
      Lexeme(OpenObject, White(Pad(format, [NEWLINE]),
        PrintMembers(members, format, depth + 1, White(Pad(format, Tabs(depth)), Lexeme(CloseObject, k)))))
    case _ => Lexeme(Leaf(t), k)
  }

  function PrintElements(e: Elements, format: bool, depth: nat, k: Chunks): Chunks
    decreases e, 0
  {
    match e
    case NoElement => k
    case Element(v, next) => Print(v, format, depth, PrintMore(next, format, depth, k))
  }

  /** The elements behind another one. */
  function PrintMore(e: Elements, format: bool, depth: nat, k: Chunks): Chunks
    decreases e, 1
  {
    if e.NoElement? then k
    else Lexeme(Comma, White(Pad(format, [SPACE]), PrintElements(e, format, depth, k)))
  }

  function PrintMembers(m: Members, format: bool, depth: nat, k: Chunks): Chunks
    decreases m, 0
  {
    match m
    case NoMember => k
    case Member(key, v, rest) =>
      White(Pad(format, Tabs(depth)), Lexeme(Leaf(String(key)), Lexeme(Colon, White(Pad(format, [TAB]),
        Print(v, format, depth, EndLine(rest, format, depth, k))))))
  }

  /** The end of a member's line and the members behind it. */
  function EndLine(rest: Members, format: bool, depth: nat, k: Chunks): Chunks
    decreases rest, 1
  {
    var more := White(Pad(format, [NEWLINE]), PrintMembers(rest, format, depth, k));
    if rest.NoMember? then more else Lexeme(Comma, more)
  }

  /** The text itself. */
  function Text(t: Json, format: bool, depth: nat): seq<byte> {
    Flatten(Print(t, format, depth, Nil))
  }

  /** The trees print_value accepts: a raw item has text, a number fits number_buffer. */
  predicate Printable(t: Json) {
    match t
    case Number(token) => |token| <= MAX_PRINTED
    case Raw(r) => r.Some?
    case Array(child) => PrintableElements(child)
    case Object(members) => PrintableMembers(members)
    case _ => true
  }

  predicate PrintableElements(e: Elements) {
    match e
    case NoElement => true
    case Element(v, next) => Printable(v) && PrintableElements(next)
  }

  predicate PrintableMembers(m: Members) {
    match m
    case NoMember => true
    case Member(_, v, rest) => Printable(v) && PrintableMembers(rest)
  }

  /** The trees JSON text can stand for: tokens are numbers, strings and keys are present, nothing is raw. */
  predicate Canonical(t: Json) {
    match t
    case Number(token) => IsToken(token)
    case String(s) => s.Some?
    case Raw(_) => false
    case Array(child) => CanonicalElements(child)
    case Object(members) => CanonicalMembers(members)
    case _ => true
  }

  predicate CanonicalElements(e: Elements) {
    match e
    case NoElement => true
    case Element(v, next) => Canonical(v) && CanonicalElements(next)
  }

  predicate CanonicalMembers(m: Members) {
    match m
    case NoMember => true
    case Member(key, v, rest) => key.Some? && Canonical(v) && CanonicalMembers(rest)
  }
}
