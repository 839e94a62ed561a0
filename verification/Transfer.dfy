/** The file transfer: packets, the sender's and the receiver's state, and what one event does to them. */
module Transfer {
  import opened Bytes

  const PKT_DT_SIZE: nat := 1355

  datatype Packet = Packet(seqNo: int, data: seq<byte>, isEnd: bool, wSize: nat)

  datatype Ack = Ack(cumSeq: int, isNack: bool)

  /** 'u' and 's' in umap: to be sent on the next timeout, and sent on demand since the last one. */
  datatype Mark = Unsent | Sent

  // ---- the sender ----

  /** `position` is where the file is read next; `closed` once fetch_next has closed it. */
  datatype Sender = Sender(window: seq<Packet>, umap: map<int, Mark>, lastPkt: int, pktCnt: int, position: nat, closed: bool)

  const NO_LAST: int := -1

  function InitialSender(): Sender {
    Sender([], map[], NO_LAST, 1, 0, false)
  }

  function FetchSize(file: seq<byte>, position: nat): (n: nat)
    requires position <= |file|
    ensures position + n <= |file|
  {
    if |file| - position < PKT_DT_SIZE then |file| - position else PKT_DT_SIZE
  }

  /** fetch_next and the fields fill_win adds. */
  function Fetch(file: seq<byte>, w: nat, position: nat, seqNo: int): Packet
    requires position <= |file|
  {
    var n := FetchSize(file, position);
    Packet(seqNo, file[position..position + n], position + n >= |file|, w)
  }

  /** One turn of the loop of fill_win: the end packet gets no mark. */
  function Filled(file: seq<byte>, w: nat, s: Sender): (r: Sender)
    requires s.position <= |file|
    ensures r.position <= |file|
  {
    var p := Fetch(file, w, s.position, s.pktCnt);
    Sender(s.window + [p], if p.isEnd then s.umap else s.umap[p.seqNo := Unsent], s.lastPkt, s.pktCnt + 1,
      s.position + |p.data|, p.isEnd)
  }

  function Fill(file: seq<byte>, w: nat, s: Sender, n: nat): (r: Sender)
    requires s.position <= |file|
    ensures r.position <= |file|
    decreases n
  {
    if n == 0 then s
    else
      var r := Filled(file, w, s);
      if r.closed then r else Fill(file, w, r, n - 1)
  }

  function FillWindow(file: seq<byte>, w: nat, s: Sender): (r: Sender)
    requires s.position <= |file|
    ensures r.position <= |file|
  {
    if |s.window| < w && s.lastPkt == NO_LAST then Fill(file, w, s, w - |s.window|) else s
  }

  /** The packets a timeout sends, with the marks and last_pkt it leaves. */
  datatype Sweep = Sweep(umap: map<int, Mark>, lastPkt: int, sent: seq<Packet>)

  predicate IsUnsent(umap: map<int, Mark>, seqNo: int) {
    seqNo in umap && umap[seqNo] == Unsent
  }

  function SweepOne(p: Packet, r: Sweep): Sweep {
    var send := IsUnsent(r.umap, p.seqNo);
    Sweep(if send then r.umap else r.umap[p.seqNo := Unsent], if p.isEnd then p.seqNo else r.lastPkt,
      if send then r.sent + [p] else r.sent)
  }

  function SweepFrom(window: seq<Packet>, i: nat, r: Sweep): Sweep
    requires i <= |window|
    decreases |window| - i
  {
    if i == |window| then r else SweepFrom(window, i + 1, SweepOne(window[i], r))
  }

  /** The timeout branch. */
  function Timeout(file: seq<byte>, w: nat, s: Sender): (r: (Sender, seq<Packet>))
    requires s.position <= |file|
    ensures r.0.position <= |file|
  {
    var f := FillWindow(file, w, s);
    var r := SweepFrom(f.window, 0, Sweep(f.umap, f.lastPkt, []));
    (f.(umap := r.umap, lastPkt := r.lastPkt), r.sent)
  }

  /** When filling the window closes the file, the packet put in last is the end packet. */
  lemma {:induction false} FillEnds(file: seq<byte>, w: nat, s: Sender, n: nat)
    requires s.position <= |file| && !s.closed && s.pktCnt > 0
    requires forall i :: 0 <= i < |s.window| ==> s.window[i].seqNo > 0
    ensures var r := Fill(file, w, s, n);
      && r.pktCnt > 0 && (forall i :: 0 <= i < |r.window| ==> r.window[i].seqNo > 0)
      && (r.closed ==> r.window != [] && r.window[|r.window| - 1].isEnd)
    decreases n
  {
    if n == 0 || Filled(file, w, s).closed {
    } else {
      FillEnds(file, w, Filled(file, w, s), n - 1);
    }
  }

  /** A sweep that passes the end packet leaves its number in last_pkt. */
  lemma {:induction false} SweepEnds(window: seq<Packet>, i: nat, r: Sweep)
    requires i <= |window| && forall k :: 0 <= k < |window| ==> window[k].seqNo > 0
    requires r.lastPkt != NO_LAST || exists k :: i <= k < |window| && window[k].isEnd
    ensures SweepFrom(window, i, r).lastPkt != NO_LAST
    decreases |window| - i
  {
    if i == |window| {
    } else {
      SweepEnds(window, i + 1, SweepOne(window[i], r));
    }
  }

  /** A cumulative acknowledgement: the acknowledged packets leave the window. */
  function Acked(s: Sender, cum: int): Sender
    decreases |s.window|
  {
    if s.window != [] && s.window[0].seqNo <= cum
    then Acked(s.(window := s.window[1..], umap := s.umap - {cum}), cum)
    else s
  }

  /** When an acknowledgement ends the transfer. */
  predicate Finishes(s: Sender, cum: int) {
    s.lastPkt != NO_LAST && cum >= s.lastPkt
  }

  predicate InWindow(window: seq<Packet>, seqNo: int) {
    exists i :: 0 <= i < |window| && window[i].seqNo == seqNo
  }

  /** A demand for one packet of the window. */
  function Demanded(s: Sender, seqNo: int): Sender {
    s.(umap := s.umap[seqNo := Sent])
  }

  // ---- the receiver ----

  /**
   Every element of the receiver's window is the one message buffer, so all there is to know about the
   window is how many elements it has.
   */
  datatype Receiver = Receiver(cumSeq: int, held: nat, written: seq<byte>, done: bool)

  function InitialReceiver(): Receiver {
    Receiver(0, 0, [], false)
  }

  /** Demands for the packets between two sequence numbers. */
  function Nacks(lo: int, hi: int): (r: seq<Ack>)
    decreases hi - lo
  {
    if lo + 1 >= hi then [] else [Ack(lo + 1, true)] + Nacks(lo + 1, hi)
  }

  /** The receive branch: old, sequential and future packets. */
  function Receive(r: Receiver, p: Packet): (Receiver, seq<Ack>) {
    if p.seqNo <= r.cumSeq then (r, [Ack(r.cumSeq, false)])
    else if p.seqNo == r.cumSeq + 1 then
      (Receiver(p.seqNo, r.held, r.written + p.data, r.done || p.isEnd), [Ack(p.seqNo, false)])
    else if r.held == 0 && 0 < p.wSize then (r.(held := 1), Nacks(r.cumSeq, p.seqNo))
    else (r, [])
  }
}
