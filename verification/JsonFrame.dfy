/** JSON over the control connection: JSON_write's frame read back by JSON_read. */
module JsonFrame {
  import opened Bytes
  import opened Json
  import opened JsonText
  import opened JsonTextLaws
  import opened JsonLex
  import opened JsonParse
  import opened JsonRoundTrip
  import C = ControlProtocol

  /** What JSON_write puts on the wire: the length in network byte order and the unformatted text. */
  function Written(t: Json): seq<byte>
    requires |Text(t, false, 0)| < C.UINT32
  {
    C.Header(|Text(t, false, 0)|) + Text(t, false, 0)
  }

  /** What JSON_read takes off the wire: nothing while the frame is incomplete, else the item and what follows. */
  datatype Received = Incomplete | Received(item: Option<Json>, rest: seq<byte>)

  function Read(wire: seq<byte>): Received {
    if |wire| < 4 then Incomplete
    else
      var n := C.HeaderValue(wire[..4]);
      if |wire| < 4 + n then Incomplete
      else
        Received(ParseWithOpts(CStr(wire[4..4 + n]), false).0, wire[4 + n..])
  }

  /**
   A tree JSON can express arrives as it was sent, whatever follows on the wire, when it nests at most 1000
   deep; a deeper one is refused, but its frame is still taken off the wire.
   */
  lemma {:induction false} FrameRoundTrip(t: Json, rest: seq<byte>)
    requires Canonical(t) && |Text(t, false, 0)| < C.UINT32
    ensures Read(Written(t) + rest) == Received(if Depth(t) <= NESTING_LIMIT then Some(t) else None, rest)
  {
    hide Text, Canonical, ParseWithLengthOpts, Depth, C.HeaderValue, C.Header;
    var s := Text(t, false, 0);
    var wire := Written(t) + rest;
    C.HeaderRoundTrip(|s|);
    assert wire[..4] == C.Header(|s|);
    assert wire[4..4 + |s|] == s && wire[4 + |s|..] == rest;
    TextNoNul(t, false, 0);
    RoundTrip(t, false, false);
  }

  /** As long as a part of the frame is missing nothing is taken for an item. */
  lemma PartIsIncomplete(t: Json, n: nat)
    requires |Text(t, false, 0)| < C.UINT32 && n < |Written(t)|
    ensures Read(Written(t)[..n]) == Incomplete
  {
    hide Text, C.HeaderValue, C.Header;
    var s := Text(t, false, 0);
    C.HeaderRoundTrip(|s|);
    if n >= 4 { assert Written(t)[..n][..4] == C.Header(|s|); }
  }
}
