/** The recursive-descent parser as a pure function of the tokens ahead and the depth. */
module JsonParse {
  import opened Bytes
  import opened Json
  import opened JsonText
  import opened JsonLex

  /** The item, the offset behind it and the tokens from there on; or the offset and depth a failure leaves. */
  datatype Outcome<+T> = Parsed(value: T, end: nat, rest: Tokens) | Failed(at: nat, depth: nat)

  /** Where the next token starts. */
  function Start(ts: Tokens): nat {
    if ts.Ahead? then ts.start else ts.at
  }

  predicate Next(ts: Tokens, token: Token) {
    ts.Ahead? && ts.token == token
  }

  function ParseValue(ts: Tokens, d: nat): (r: Outcome<Json>)
    ensures r.Parsed? ==> r.rest < ts
    decreases ts, 0
  {
    match ts
    case End(at) => Failed(at, d)
    case Stop(_, badValue, _) => Failed(badValue, d)
    case Ahead(Leaf(v), _, end, rest) => Parsed(v, end, rest)
    case Ahead(OpenArray, start, _, rest) =>
      if d >= NESTING_LIMIT then Failed(start, d)
      else if rest.End? then Failed(start, d + 1)
      else if Next(rest, CloseArray) then Parsed(Array(NoElement), rest.end, rest.rest)
      else CloseArrayAt(ParseElements(rest, d + 1), d + 1)
    case Ahead(OpenObject, start, _, rest) =>
      if d >= NESTING_LIMIT then Failed(start, d)
      else if rest.End? then Failed(start, d + 1)
      else if Next(rest, CloseObject) then Parsed(Object(NoMember), rest.end, rest.rest)
      else CloseObjectAt(ParseMembers(rest, d + 1), d + 1)
    case Ahead(_, start, _, _) => Failed(start, d)
  }

  /** The end of parse_array: what the loop read must be followed by the bracket. */
  function CloseArrayAt(r: Outcome<Elements>, d: nat): Outcome<Json> {
    match r
    case Failed(at, depth) => Failed(at, depth)
    case Parsed(child, _, rest) =>
      if Next(rest, CloseArray) then Parsed(Array(child), rest.end, rest.rest) else Failed(Start(rest), d)
  }

  /** The do-while loop of parse_array. */
  function ParseElements(ts: Tokens, d: nat): (r: Outcome<Elements>)
    ensures r.Parsed? ==> r.rest < ts
    decreases ts, 1
  {
    match ParseValue(ts, d)
    case Failed(at, depth) => Failed(at, depth)
    case Parsed(v, end, rest) =>
      if Next(rest, Comma) then AddElement(v, ParseElements(rest.rest, d))
      else Parsed(Element(v, NoElement), end, rest)
  }

  function AddElement(v: Json, r: Outcome<Elements>): Outcome<Elements> {
    match r
    case Failed(at, depth) => Failed(at, depth)
    case Parsed(next, end, rest) => Parsed(Element(v, next), end, rest)
  }

  function CloseObjectAt(r: Outcome<Members>, d: nat): Outcome<Json> {
    match r
    case Failed(at, depth) => Failed(at, depth)
    case Parsed(members, _, rest) =>
      if Next(rest, CloseObject) then Parsed(Object(members), rest.end, rest.rest) else Failed(Start(rest), d)
  }

  /** The do-while loop of parse_object. At the end of the buffer the attempt to read a name still moves the offset. */
  function ParseMembers(ts: Tokens, d: nat): (r: Outcome<Members>)
    ensures r.Parsed? ==> r.rest < ts
    decreases ts, 1
  {
    if ts.End? then Failed(ts.at + 1, d)
    else if ts.Stop? then Failed(ts.badName, d)
    else if !ts.token.Leaf? || !ts.token.item.String? then Failed(ts.start + 1, d)
    else if !Next(ts.rest, Colon) then Failed(Start(ts.rest), d)
    else MemberAt(ts.token.item.text, ts.rest.rest, d)
  }

  /** The rest of a turn of the loop: the value behind a name and a colon. */
  function MemberAt(key: Option<CString>, ts: Tokens, d: nat): (r: Outcome<Members>)
    ensures r.Parsed? ==> r.rest < ts
    decreases ts, 2
  {
    match ParseValue(ts, d)
    case Failed(at, depth) => Failed(at, depth)
    case Parsed(v, end, rest) =>
      if Next(rest, Comma) then AddMember(key, v, ParseMembers(rest.rest, d))
      else Parsed(Member(key, v, NoMember), end, rest)
  }

  function AddMember(key: Option<CString>, v: Json, r: Outcome<Members>): Outcome<Members> {
    match r
    case Failed(at, depth) => Failed(at, depth)
    case Parsed(members, end, rest) => Parsed(Member(key, v, members), end, rest)
  }

  const BOM: seq<byte> := [0xEF, 0xBB, 0xBF]

  /** skip_utf8_bom, called at offset 0. */
  function SkipBom(c: seq<byte>): (o: nat)
    ensures o <= |c| && (c != [] ==> o < |c|)
  {
    if 4 < |c| && At(c, 0, BOM) then 3 else 0
  }

  /** The position reported for a failure that left the offset at `at`. */
  function ErrorAt(c: seq<byte>, at: nat): nat {
    if at < |c| then at else if |c| > 0 then |c| - 1 else 0
  }

  /** The item at the start of a buffer. */
  function ParseItem(c: seq<byte>): Outcome<Json> {
    ParseValue(TokensFrom(c, SkipBom(c)), 0)
  }

  /** Whether the attempt to read an item leaves the offset behind the end of the buffer. */
  predicate Overruns(c: seq<byte>) {
    c != [] && ParseItem(c).Failed? && ParseItem(c).at > |c|
  }

  /**
   cJSON_ParseWithLengthOpts on a buffer of any bytes: the item and *return_parse_end, or nothing and the
   position of the error.
   */
  function ParseWithLengthOpts(c: seq<byte>, requireNul: bool): (Option<Json>, nat) {
    if c == [] then (None, 0)
    else
      match ParseItem(c)
      case Failed(at, _) => (None, ErrorAt(c, at))
      case Parsed(v, end, rest) =>
        if !requireNul then (Some(v), end)
        else if Holds(c, Start(rest), 0) then (Some(v), Start(rest))
        else (None, ErrorAt(c, Start(rest)))
  }

  /** cJSON_ParseWithOpts: the buffer is a C string and its terminator. */
  function ParseWithOpts(value: CString, requireNul: bool): (Option<Json>, nat) {
    ParseWithLengthOpts(value + [0], requireNul)
  }
}
