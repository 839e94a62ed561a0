/** UTF-8 as section 3 of RFC 3629 lays it out, with the decoder that inverts it. */
module Unicode {
  import opened Bytes

  const CODE_POINTS: nat := 0x110000

  predicate HighSurrogate(u: nat) { 0xD800 <= u <= 0xDBFF }

  predicate LowSurrogate(u: nat) { 0xDC00 <= u <= 0xDFFF }

  /** The character a surrogate pair stands for (section 2.2 of RFC 2781). */
  function Supplementary(high: nat, low: nat): (cp: nat)
    requires HighSurrogate(high) && LowSurrogate(low)
    ensures 0x10000 <= cp < CODE_POINTS
  {
    0x10000 + (high - 0xD800) * 0x400 + (low - 0xDC00)
  }

  /** Six bits per continuation byte, the last six in the last byte. */
  function Utf8(cp: nat): (r: seq<byte>)
    requires cp < CODE_POINTS
    ensures 1 <= |r| <= 4
  {
    var q := cp / 0x40;
    var last := 0x80 + cp % 0x40;
    if cp < 0x80 then [cp]
    else if cp < 0x800 then [0xC0 + q, last]
    else if cp < 0x10000 then [0xE0 + q / 0x40, 0x80 + q % 0x40, last]
    else [0xF0 + q / 0x40 / 0x40, 0x80 + q / 0x40 % 0x40, 0x80 + q % 0x40, last]
  }

  function Utf8All(cps: seq<nat>): seq<byte>
    requires forall i :: 0 <= i < |cps| ==> cps[i] < CODE_POINTS
  {
    if cps == [] then [] else Utf8(cps[0]) + Utf8All(cps[1..])
  }

  predicate Continuation(b: byte) { 0x80 <= b < 0xC0 }

  /** The first character of a UTF-8 text, and how many bytes it takes. */
  function FirstChar(s: seq<byte>): (r: Option<(nat, nat)>)
    ensures r.Some? ==> 0 < r.value.1 <= |s|
  {
    if s == [] then None
    else if s[0] < 0x80 then Some((s[0], 1))
    else if 0xC0 <= s[0] < 0xE0 && |s| >= 2 && Continuation(s[1]) then
      Some((Two(s[0], s[1]), 2))
    else if 0xE0 <= s[0] < 0xF0 && |s| >= 3 && Continuation(s[1]) && Continuation(s[2]) then
      Some((Three(s[0], s[1], s[2]), 3))
    else if 0xF0 <= s[0] < 0xF8 && |s| >= 4 && Continuation(s[1]) && Continuation(s[2]) && Continuation(s[3]) then
      Some((Four(s[0], s[1], s[2], s[3]), 4))
    else None
  }

  function Two(a: int, b: int): nat
    requires 0xC0 <= a && 0x80 <= b
  {
    (a - 0xC0) * 0x40 + (b - 0x80)
  }

  function Three(a: int, b: int, c: int): nat
    requires 0xE0 <= a && 0x80 <= b && 0x80 <= c
  {
    (a - 0xE0) * 0x1000 + (b - 0x80) * 0x40 + (c - 0x80)
  }

  function Four(a: int, b: int, c: int, d: int): nat
    requires 0xF0 <= a && 0x80 <= b && 0x80 <= c && 0x80 <= d
  {
    (a - 0xF0) * 0x40000 + (b - 0x80) * 0x1000 + (c - 0x80) * 0x40 + (d - 0x80)
  }

  /** All characters of a UTF-8 text, when it is one. */
  function DecodeUtf8(s: seq<byte>): Option<seq<nat>>
  {
    if s == [] then Some([])
    else
      match FirstChar(s)
      case None => None
      case Some((cp, n)) =>
        match DecodeUtf8(s[n..])
        case None => None
        case Some(cps) => Some([cp] + cps)
  }

  lemma FirstCharOfUtf8(cp: nat, rest: seq<byte>)
    requires cp < CODE_POINTS
    ensures FirstChar(Utf8(cp) + rest) == Some((cp, |Utf8(cp)|))
  {
    var u, s := Utf8(cp), Utf8(cp) + rest;
    assert forall i :: 0 <= i < |u| ==> s[i] == u[i];
    if cp < 0x80 {
    } else if cp < 0x800 {
      assert Two(u[0], u[1]) == cp;
    } else if cp < 0x10000 {
      assert Three(u[0], u[1], u[2]) == cp;
    } else {
      assert Four(u[0], u[1], u[2], u[3]) == cp;
    }
  }

  /** Encoding loses nothing. */
  lemma {:induction false} Utf8RoundTrip(cps: seq<nat>)
    requires forall i :: 0 <= i < |cps| ==> cps[i] < CODE_POINTS
    ensures DecodeUtf8(Utf8All(cps)) == Some(cps)
  {
    if cps == [] {
    } else {
      var rest := Utf8All(cps[1..]);
      FirstCharOfUtf8(cps[0], rest);
      Utf8RoundTrip(cps[1..]);
      assert Utf8All(cps)[|Utf8(cps[0])|..] == rest;
      assert [cps[0]] + cps[1..] == cps;
    }
  }

  /** Each character beyond the first plane has one surrogate pair, that of section 2.1 of RFC 2781. */
  lemma SupplementaryIsPaired(cp: nat)
    requires 0x10000 <= cp < CODE_POINTS
    ensures var high, low := 0xD800 + (cp - 0x10000) / 0x400, 0xDC00 + (cp - 0x10000) % 0x400;
      HighSurrogate(high) && LowSurrogate(low) && Supplementary(high, low) == cp
  {
  }

  /** ASCII is itself; otherwise a leading byte is followed by one continuation byte per further six bits. */
  lemma Utf8Shape(cp: nat)
    requires cp < CODE_POINTS
    ensures var u := Utf8(cp);
      && (cp < 0x80 ==> u == [cp]) && !Continuation(u[0])
      && (forall i :: 0 < i < |u| ==> Continuation(u[i]))
      && |u| == if cp < 0x80 then 1 else if cp < 0x800 then 2 else if cp < 0x10000 then 3 else 4
  {
  }

  /** The order of the encodings is that of the characters. */
  lemma Utf8Order(a: nat, b: nat)
    requires a < b < CODE_POINTS
    ensures Before(Utf8(a), Utf8(b))
  {
    var u, v := Utf8(a), Utf8(b);
    Utf8Shape(a);
    Utf8Shape(b);
    if |u| != |v| || |u| == 1 {
      assert PartAt(u, v, 0);
    } else {
      var i := Utf8Parts(a, b);
      assert PartAt(u, v, i);
    }
  }

  /** Six bits at a time, the highest first: where the encodings of two characters of one length part. */
  lemma Utf8Parts(a: nat, b: nat) returns (i: nat)
    requires 0x80 <= a < b < CODE_POINTS && |Utf8(a)| == |Utf8(b)|
    ensures PartAt(Utf8(a), Utf8(b), i)
  {
    var a1, b1 := a / 0x40, b / 0x40;
    var a2, b2 := a1 / 0x40, b1 / 0x40;
    var n := |Utf8(a)|;
    if a1 == b1 {
      i := n - 1;
    } else if n == 2 || a2 == b2 {
      i := n - 2;
    } else if n == 3 || a2 / 0x40 == b2 / 0x40 {
      i := n - 3;
    } else {
      i := 0;
    }
  }
}
