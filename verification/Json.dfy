/** The cJSON tree: one constructor per item type, children linked through `next` as in the C struct. */
module Json {
  import opened Bytes

  datatype Json =
    | Null
    | False
    | True
    | Number(token: CString)         // the digits sprintf would print; the double itself is foreign
    | String(text: Option<CString>)  // None is a NULL valuestring
    | Raw(raw: Option<CString>)
    | Array(child: Elements)
    | Object(members: Members)

  datatype Elements = NoElement | Element(value: Json, next: Elements)

  datatype Members = NoMember | Member(key: Option<CString>, val: Json, rest: Members)

  /** The items that are written and read as one token. */
  type Scalar = t: Json | !t.Array? && !t.Object? witness Null

  /** CJSON_NESTING_LIMIT. */
  const NESTING_LIMIT: nat := 1000

  /** How many containers enclose the deepest position of a tree. */
  function Depth(t: Json): nat {
    match t
    case Array(child) => 1 + ElementsDepth(child)
    case Object(members) => 1 + MembersDepth(members)
    case _ => 0
  }

  function ElementsDepth(e: Elements): nat {
    match e
    case NoElement => 0
    case Element(v, next) => Max(Depth(v), ElementsDepth(next))
  }

  function MembersDepth(m: Members): nat {
    match m
    case NoMember => 0
    case Member(_, v, rest) => Max(Depth(v), MembersDepth(rest))
  }

  /** Items linked in front of `tail`, in their order. */
  function ElementList(items: seq<Json>, tail: Elements): Elements {
    if items == [] then tail else Element(items[0], ElementList(items[1..], tail))
  }

  function MemberList(items: seq<(Option<CString>, Json)>, tail: Members): Members {
    if items == [] then tail else Member(items[0].0, items[0].1, MemberList(items[1..], tail))
  }

  lemma {:induction false} ElementLinked(items: seq<Json>, v: Json, tail: Elements)
    ensures ElementList(items + [v], tail) == ElementList(items, Element(v, tail))
  {
    if items == [] {
      assert [v][1..] == [];
    } else {
      assert (items + [v])[1..] == items[1..] + [v];
      ElementLinked(items[1..], v, tail);
    }
  }

  lemma {:induction false} MemberLinked(items: seq<(Option<CString>, Json)>, m: (Option<CString>, Json), tail: Members)
    ensures MemberList(items + [m], tail) == MemberList(items, Member(m.0, m.1, tail))
  {
    if items == [] {
      assert [m][1..] == [];
    } else {
      assert (items + [m])[1..] == items[1..] + [m];
      MemberLinked(items[1..], m, tail);
    }
  }
}
