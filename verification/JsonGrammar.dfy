/**
 Which tokens spell which tree: a reference with no depth to count, no errors to report and no choice of
 what to read. The parser accepts exactly these token lists, up to the nesting limit.
 */
module JsonGrammar {
  import opened Bytes
  import opened Json
  import opened JsonText
  import opened JsonLex
  import opened JsonParse

  /** Where a tree's last token ends and what is left of the list behind it. */
  datatype Left = Left(end: nat, rest: Tokens) | Other

  function Take(ts: Tokens, token: Token): Left {
    if Next(ts, token) then Left(ts.end, ts.rest) else Other
  }

  function Spell(t: Json, ts: Tokens): (r: Left)
    decreases t, 1
  {
    match t
    case Array(child) =>
      if !Next(ts, OpenArray) then Other
      else if child.NoElement? then Take(ts.rest, CloseArray)
      else TakeBehind(SpellElements(child, ts.rest), CloseArray)
    case Object(members) =>
      if !Next(ts, OpenObject) then Other
      else if members.NoMember? then Take(ts.rest, CloseObject)
      else TakeBehind(SpellMembers(members, ts.rest), CloseObject)
    case _ => Take(ts, Leaf(t))
  }

  function TakeBehind(r: Left, token: Token): Left {
    if r.Left? then Take(r.rest, token) else Other
  }

  /** Values with commas between them. */
  function SpellElements(e: Elements, ts: Tokens): (r: Left)
    requires e.Element?
    decreases e, 0
  {
    var v := Spell(e.value, ts);
    if v.Other? || e.next.NoElement? then v
    else if Next(v.rest, Comma) then SpellElements(e.next, v.rest.rest)
    else Other
  }

  /** A name and a colon. */
  predicate NameAhead(key: Option<CString>, ts: Tokens) {
    Next(ts, Leaf(String(key))) && Next(ts.rest, Colon)
  }

  /** Names, colons and values with commas between them. */
  function SpellMembers(m: Members, ts: Tokens): (r: Left)
    requires m.Member?
    decreases m, 0
  {
    if !NameAhead(m.key, ts) then Other
    else
      var v := Spell(m.val, ts.rest.rest);
      if v.Other? || m.rest.NoMember? then v
      else if Next(v.rest, Comma) then SpellMembers(m.rest, v.rest.rest)
      else Other
  }
}
