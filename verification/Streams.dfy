/**
 The data streams of a test: how the two sides number them, which side of each sends, and how the results
 one side reports find their stream on the other.
 */
module Streams {
  import opened Bytes

  /**
   The counters a stream keeps or is told by its peer. `duration` is the time from its start to its end by
   its own clock, the other two times are those its peer reports.
   */
  datatype Stream = Stream(
    id: nat, sender: bool,
    bytesSent: int, bytesSentOmit: int, bytesReceived: int,
    jitter: real, cntError: int, packetCount: int, peerPacketCount: int, streamRetrans: int,
    duration: real, senderTime: real, receiverTime: real)

  /** test->mode; the client's, and the server's after it has read the parameters. */
  datatype Mode = Sender | Receiver | Bidirectional

  function Opposite(mode: Mode): Mode {
    match mode
    case Sender => Receiver
    case Receiver => Sender
    case Bidirectional => Bidirectional
  }

  /** The identifier of the k-th stream: the first is 1, and 2 is never given out. */
  function IdOf(k: nat): nat { if k == 0 then 1 else k + 2 }

  function Added(streams: seq<Stream>, s: Stream): seq<Stream> {
    streams + [s.(id := IdOf(|streams|))]
  }

  /** Streams added one after the other, each with its direction. */
  function AddedAll(streams: seq<Stream>, senders: seq<bool>): seq<Stream>
    decreases |senders|
  {
    if senders == [] then streams else AddedAll(Added(streams, Fresh(senders[0])), senders[1..])
  }

  function Fresh(sender: bool): Stream {
    Stream(0, sender, 0, 0, 0, 0.0, 0, 0, 0, 0, 0.0, 0.0, 0.0)
  }

  function Times(n: nat, b: bool): (r: seq<bool>)
    ensures |r| == n && forall i :: 0 <= i < n ==> r[i] == b
  {
    seq(n, _ => b)
  }

  /** The order in which the client creates its streams. */
  function ClientSenders(mode: Mode, n: nat): seq<bool> {
    match mode
    case Sender => Times(n, true)
    case Receiver => Times(n, false)
    case Bidirectional => Times(n, true) + Times(n, false)
  }

  /** The order in which the server accepts them: those it receives on first, then those it sends on. */
  function ServerSenders(mode: Mode, n: nat): seq<bool> {
    var toRec := if mode == Sender then 0 else n;
    var toSend := if mode == Receiver then 0 else n;
    Times(toRec, false) + Times(toSend, true)
  }

  // ---- numbering ----

  ghost predicate Numbered(streams: seq<Stream>) {
    forall k :: 0 <= k < |streams| ==> streams[k].id == IdOf(k)
  }

  lemma {:induction false} AddedAllIs(streams: seq<Stream>, senders: seq<bool>)
    requires Numbered(streams)
    ensures var r := AddedAll(streams, senders);
      && |r| == |streams| + |senders| && Numbered(r) && r[..|streams|] == streams
      && forall k :: 0 <= k < |senders| ==> r[|streams| + k].sender == senders[k]
    decreases |senders|
  {
    if senders == [] {
    } else {
      var next := Added(streams, Fresh(senders[0]));
      AddedAllIs(next, senders[1..]);
      var r := AddedAll(next, senders[1..]);
      assert r[..|streams|] == r[..|next|][..|streams|];
      assert r[|streams|] == r[..|next|][|streams|] == next[|streams|];
      forall k | 0 <= k < |senders| ensures r[|streams| + k].sender == senders[k] {
        if k > 0 { assert r[|streams| + k] == r[|next| + (k - 1)]; }
      }
    }
  }

  /**
   Whatever the direction of the test, the k-th streams of the two sides have the same unique number and
   opposite directions: the client sends in a normal test, receives in a reverse one, and in a bidirectional
   one sends on the first half of its streams.
   */
  lemma StreamsArePaired(mode: Mode, n: nat)
    ensures var client := AddedAll([], ClientSenders(mode, n));
      var server := AddedAll([], ServerSenders(Opposite(mode), n));
      && |client| == |server| == (if mode == Bidirectional then 2 * n else n)
      && (forall k :: 0 <= k < |client| ==> client[k].id == server[k].id == (if k == 0 then 1 else k + 2))
      && (forall k :: 0 <= k < |client| ==> client[k].sender != server[k].sender)
      && (forall k :: 0 <= k < |client| ==>
        (client[k].sender <==> mode == Sender || (mode == Bidirectional && k < n)))
      && (forall j, k :: 0 <= j < k < |client| ==> client[j].id != client[k].id)
  {
    hide AddedAll;
    AddedAllIs([], ClientSenders(mode, n));
    AddedAllIs([], ServerSenders(Opposite(mode), n));
    var client, server := AddedAll([], ClientSenders(mode, n)), AddedAll([], ServerSenders(Opposite(mode), n));
    var a, b := ClientSenders(mode, n), ServerSenders(Opposite(mode), n);
    forall k | 0 <= k < |client|
      ensures client[k].sender != server[k].sender
      ensures client[k].sender <==> mode == Sender || (mode == Bidirectional && k < n)
    {
      assert a[k] != b[k];
      assert client[0 + k].sender == a[k] && server[0 + k].sender == b[k];
    }
  }

  /** A report without times, as old servers send it, leaves a time of zero. */
  lemma WithoutTimes(s: Stream, r: Report)
    requires r.startTime.None? || r.endTime.None?
    ensures if s.sender then Stored(s, r).receiverTime == 0.0 else Stored(s, r).senderTime == 0.0
  {
  }

  // ---- results ----

  /** What send_results says about a stream; old servers do not send the times. */
  datatype Report = Report(
    id: nat, bytes: int, retransmits: int, jitter: real, errors: int, packets: int,
    startTime: Option<real>, endTime: Option<real>)

  function ReportOf(s: Stream, hasRetransmits: bool): Report {
    Report(s.id, if s.sender then s.bytesSent - s.bytesSentOmit else s.bytesReceived,
      if s.sender && hasRetransmits then s.streamRetrans else -1, s.jitter, s.cntError, s.packetCount,
      Some(0.0), Some(s.duration))
  }

  function ReportsOf(streams: seq<Stream>, hasRetransmits: bool): (r: seq<Report>)
    ensures |r| == |streams| && forall k :: 0 <= k < |streams| ==> r[k] == ReportOf(streams[k], hasRetransmits)
  {
    if streams == [] then [] else [ReportOf(streams[0], hasRetransmits)] + ReportsOf(streams[1..], hasRetransmits)
  }

  /** What get_results does with a report once it has found its stream. */
  function Stored(s: Stream, r: Report): Stream {
    if s.sender then
      s.(jitter := r.jitter, cntError := r.errors, peerPacketCount := r.packets, bytesReceived := r.bytes,
        receiverTime := TimeOf(r))
    else
      s.(peerPacketCount := r.packets, bytesSent := r.bytes, streamRetrans := r.retransmits, senderTime := TimeOf(r))
  }

  function TimeOf(r: Report): real {
    if r.startTime.Some? && r.endTime.Some? then r.endTime.value - r.startTime.value else 0.0
  }

  /** The first stream with that number. */
  function Position(streams: seq<Stream>, id: nat): (k: nat)
    ensures k <= |streams| && (k < |streams| ==> streams[k].id == id)
    ensures forall i :: 0 <= i < k ==> streams[i].id != id
  {
    if streams == [] || streams[0].id == id then 0 else 1 + Position(streams[1..], id)
  }

  function StoredOne(streams: seq<Stream>, r: Report): (seq<Stream>, bool) {
    var k := Position(streams, r.id);
    if k < |streams| then (streams[k := Stored(streams[k], r)], true) else (streams, false)
  }

  /** get_results: every report goes to the stream with its number; one without a stream makes it fail. */
  function StoredAll(streams: seq<Stream>, reports: seq<Report>): (seq<Stream>, bool)
    decreases |reports|
  {
    if reports == [] then (streams, true)
    else
      var (s, ok) := StoredOne(streams, reports[0]);
      var (t, rest) := StoredAll(s, reports[1..]);
      (t, ok && rest)
  }

  /** The number of a stream gives its place. */
  lemma {:induction false} PositionIs(streams: seq<Stream>, k: nat)
    requires Numbered(streams) && k < |streams|
    ensures Position(streams, IdOf(k)) == k
  {
  }

  lemma StoredKeepsId(s: Stream, r: Report)
    ensures Stored(s, r).id == s.id
  {
  }

  /** Reports for the streams from `from` on, in order, each go to their stream. */
  lemma {:induction false} ReportsFindStreams(streams: seq<Stream>, reports: seq<Report>, from: nat)
    requires Numbered(streams) && from + |reports| == |streams|
    requires forall k :: 0 <= k < |reports| ==> reports[k].id == IdOf(from + k)
    ensures var (t, ok) := StoredAll(streams, reports);
      && ok && |t| == |streams| && Numbered(t)
      && (forall k :: 0 <= k < from ==> t[k] == streams[k])
      && (forall k :: from <= k < |streams| ==> t[k] == Stored(streams[k], reports[k - from]))
    decreases |reports|
  {
    hide Stored;
    if reports == [] {
    } else {
      PositionIs(streams, from);
      StoredKeepsId(streams[from], reports[0]);
      var s := StoredOne(streams, reports[0]).0;
      assert s == streams[from := Stored(streams[from], reports[0])];
      ReportsFindStreams(s, reports[1..], from + 1);
    }
  }

  /**
   What a stream holds once it was told about its peer: a sender what was received, how long, with what loss
   and jitter; a receiver what was sent, how long and with how many retransmissions. Nothing else changes.
   */
  predicate Told(after: Stream, before: Stream, peer: Stream, hasRetransmits: bool) {
    after ==
      if before.sender then
        before.(peerPacketCount := peer.packetCount, bytesReceived := peer.bytesReceived, receiverTime := peer.duration,
          jitter := peer.jitter, cntError := peer.cntError)
      else
        before.(peerPacketCount := peer.packetCount, bytesSent := peer.bytesSent - peer.bytesSentOmit,
          senderTime := peer.duration, streamRetrans := if hasRetransmits then peer.streamRetrans else -1)
  }

  lemma {:induction false} ResultsArePaired(mine: seq<Stream>, peers: seq<Stream>, hasRetransmits: bool)
    requires Numbered(mine) && Numbered(peers) && |mine| == |peers|
    requires forall k :: 0 <= k < |mine| ==> mine[k].sender != peers[k].sender
    ensures var (t, ok) := StoredAll(mine, ReportsOf(peers, hasRetransmits));
      && ok && |t| == |mine| && Numbered(t)
      && forall k :: 0 <= k < |t| ==> Told(t[k], mine[k], peers[k], hasRetransmits)
  {
    hide StoredAll, Stored, Told, Numbered, IdOf, ReportOf;
    ReportsAreNumbered(peers, hasRetransmits);
    var reports := ReportsOf(peers, hasRetransmits);
    var t := StoredAll(mine, reports).0;
    ReportsFindStreams(mine, reports, 0);
    forall k | 0 <= k < |t| ensures Told(t[k], mine[k], peers[k], hasRetransmits) {
      assert t[k] == Stored(mine[k], reports[k]);
      ReportTells(mine[k], peers[k], hasRetransmits);
    }
  }

  lemma ReportsAreNumbered(peers: seq<Stream>, hasRetransmits: bool)
    requires Numbered(peers)
    ensures forall k :: 0 <= k < |peers| ==> ReportsOf(peers, hasRetransmits)[k].id == IdOf(k)
  {
  }

  lemma ReportTells(s: Stream, peer: Stream, hasRetransmits: bool)
    requires s.sender != peer.sender
    ensures Told(Stored(s, ReportOf(peer, hasRetransmits)), s, peer, hasRetransmits)
  {
  }

  /**
   The whole exchange: the server takes in the client's results before it reports its own. Still every stream
   of either side ends up with what the paired stream of the other side had counted before the exchange.
   */
  lemma ExchangeIsPaired(client: seq<Stream>, server: seq<Stream>, clientRetransmits: bool, serverRetransmits: bool)
    requires Numbered(client) && Numbered(server) && |client| == |server|
    requires forall k :: 0 <= k < |client| ==> client[k].sender != server[k].sender
    ensures var (server', ok) := StoredAll(server, ReportsOf(client, clientRetransmits));
      var (client', ok') := StoredAll(client, ReportsOf(server', serverRetransmits));
      && ok && ok' && |client'| == |client| && |server'| == |server|
      && (forall k :: 0 <= k < |client| ==>
        && Told(server'[k], server[k], client[k], clientRetransmits)
        && Told(client'[k], client[k], server[k], serverRetransmits))
  {
    hide StoredAll, ReportsOf;
    ResultsArePaired(server, client, clientRetransmits);
    ResultsArePaired(client, StoredAll(server, ReportsOf(client, clientRetransmits)).0, serverRetransmits);
  }

  // ---- the two sides as they run ----

  class TestSide {
    var streams: seq<Stream>

    constructor ()
      ensures streams == []
    {
      streams := [];
    }

    /** iperf_add_stream: the walk to the end of the list counts from 2. */
    method AddStream(sp: Stream)
      modifies this
      ensures streams == Added(old(streams), sp)
    {
      if |streams| == 0 {
        streams := [sp.(id := 1)];
      } else {
        var i, n := 2, 0;
        while n < |streams|
          invariant n <= |streams| && i == n + 2 && streams == old(streams)
        {
          n := n + 1;
          i := i + 1;
        }
        streams := streams + [sp.(id := i)];
      }
    }

    /** iperf_create_streams, for one direction. */
    method CreateStreams(n: nat, sender: bool)
      modifies this
      ensures streams == AddedAll(old(streams), Times(n, sender))
    {
      var i := 0;
      while i < n
        invariant i <= n
        invariant AddedAll(streams, Times(n - i, sender)) == AddedAll(old(streams), Times(n, sender))
      {
        AddStream(Fresh(sender));
        assert Times(n - i, sender)[1..] == Times(n - (i + 1), sender);
        i := i + 1;
      }
    }

    /** The client's answer to CREATE_STREAMS. */
    method CreateClientStreams(mode: Mode, n: nat)
      modifies this
      ensures streams == AddedAll(old(streams), ClientSenders(mode, n))
    {
      if mode == Bidirectional {
        CreateStreams(n, true);
        CreateStreams(n, false);
        AddedInParts(old(streams), Times(n, true), Times(n, false));
      } else {
        CreateStreams(n, mode == Sender);
      }
    }

    /** The loop of get_results over the peer's reports. */
    method GetResults(reports: seq<Report>) returns (ok: bool)
      modifies this
      ensures (streams, ok) == StoredAll(old(streams), reports)
    {
      ok := true;
      var i := 0;
      while i < |reports|
        invariant i <= |reports|
        invariant StoredAll(old(streams), reports) ==
          (StoredAll(streams, reports[i..]).0, ok && StoredAll(streams, reports[i..]).1)
      {
        assert reports[i..][1..] == reports[i + 1..];
        var found := GetResult(reports[i]);
        ok := ok && found;
        i := i + 1;
      }
    }

    /** One turn of it: the walk to the stream with that number. */
    method GetResult(r: Report) returns (found: bool)
      modifies this
      ensures (streams, found) == StoredOne(old(streams), r)
    {
      var k := 0;
      while k < |streams| && streams[k].id != r.id
        invariant k <= |streams| && streams == old(streams)
        invariant forall i :: 0 <= i < k ==> streams[i].id != r.id
      {
        k := k + 1;
      }
      found := k < |streams|;
      if found { streams := streams[k := Stored(streams[k], r)]; }
    }
  }

  lemma {:induction false} AddedInParts(streams: seq<Stream>, a: seq<bool>, b: seq<bool>)
    ensures AddedAll(AddedAll(streams, a), b) == AddedAll(streams, a + b)
    decreases |a|
  {
    if a == [] {
      assert a + b == b;
    } else {
      assert (a + b)[1..] == a[1..] + b;
      AddedInParts(Added(streams, Fresh(a[0])), a[1..], b);
    }
  }

  lemma {:induction false} AddedCount(streams: seq<Stream>, senders: seq<bool>)
    ensures |AddedAll(streams, senders)| == |streams| + |senders|
    decreases |senders|
  {
    if senders == [] {
    } else {
      AddedCount(Added(streams, Fresh(senders[0])), senders[1..]);
    }
  }

  /** One more stream behind those of the first `k` directions. */
  lemma AddedNext(senders: seq<bool>, k: nat)
    requires k < |senders|
    ensures Added(AddedAll([], senders[..k]), Fresh(senders[k])) == AddedAll([], senders[..k + 1])
  {
    AddedInParts([], senders[..k], [senders[k]]);
    assert senders[..k] + [senders[k]] == senders[..k + 1];
  }
}
