/**
 Sender and receiver over a network that loses, duplicates and reorders: what was sent once may be
 delivered at any later time, any number of times or never.
 */
module TransferProtocol {
  import opened Bytes
  import opened Transfer

  /** Everything ever sent, in each direction. */
  datatype State = State(sender: Sender, receiver: Receiver, packets: set<Packet>, acks: set<Ack>, exited: bool)

  function Initial(): State {
    State(InitialSender(), InitialReceiver(), {}, {}, false)
  }

  datatype Event =
    | SenderTimeout
    | AckArrives(ack: Ack)
    | PacketArrives(packet: Packet)

  /** A demand is delivered only while the packet it names is in the sender's window. */
  ghost predicate Enabled(file: seq<byte>, st: State, e: Event) {
    match e
    case SenderTimeout => !st.exited && st.sender.position <= |file|
    case AckArrives(a) => !st.exited && a in st.acks && (a.isNack ==> InWindow(st.sender.window, a.cumSeq))
    case PacketArrives(p) => p in st.packets
  }

  function Elements<T>(s: seq<T>): set<T> {
    set x | x in s
  }

  ghost function Next(file: seq<byte>, w: nat, st: State, e: Event): State
    requires Enabled(file, st, e)
  {
    match e
    case SenderTimeout =>
      var (s, sent) := Timeout(file, w, st.sender);
      st.(sender := s, packets := st.packets + Elements(sent))
    case AckArrives(a) =>
      if a.isNack then
        var i :| 0 <= i < |st.sender.window| && st.sender.window[i].seqNo == a.cumSeq;
        st.(sender := Demanded(st.sender, a.cumSeq), packets := st.packets + {st.sender.window[i]})
      else
        var s := Acked(st.sender, a.cumSeq);
        st.(sender := s, exited := Finishes(s, a.cumSeq))
    case PacketArrives(p) =>
      var (r, out) := Receive(st.receiver, p);
      st.(receiver := r, acks := st.acks + Elements(out))
  }

  ghost predicate IsRun(file: seq<byte>, w: nat, run: seq<State>, events: seq<Event>) {
    && |run| == |events| + 1 && run[0] == Initial()
    && forall i :: 0 <= i < |events| ==> Enabled(file, run[i], events[i]) && run[i + 1] == Next(file, w, run[i], events[i])
  }

  // ---- the file cut into packets ----

  function End(file: seq<byte>, k: nat): nat {
    if k * PKT_DT_SIZE <= |file| then k * PKT_DT_SIZE else |file|
  }

  function PacketAt(file: seq<byte>, w: nat, k: nat): Packet
    requires k > 0
  {
    Packet(k, file[End(file, k - 1)..End(file, k)], k * PKT_DT_SIZE >= |file|, w)
  }

  /** How many packets a file takes; an empty one takes one. */
  function PacketCount(file: seq<byte>): (n: nat)
    ensures n > 0
    ensures (n - 1) * PKT_DT_SIZE < |file| <= n * PKT_DT_SIZE || (file == [] && n == 1)
  {
    if file == [] then 1 else (|file| + PKT_DT_SIZE - 1) / PKT_DT_SIZE
  }

  /** The payloads of packets 1 to k. */
  function Payloads(file: seq<byte>, w: nat, k: nat): seq<byte> {
    if k == 0 then [] else Payloads(file, w, k - 1) + PacketAt(file, w, k).data
  }

  /** Put together, the payloads are a prefix of the file, and the whole of it with the last packet. */
  lemma {:induction false} PayloadsArePrefix(file: seq<byte>, w: nat, k: nat)
    ensures Payloads(file, w, k) == file[..End(file, k)]
    ensures k >= PacketCount(file) <==> k > 0 && End(file, k) == |file|
  {
    if k == 0 {
    } else {
      PayloadsArePrefix(file, w, k - 1);
      assert file[..End(file, k)] == file[..End(file, k - 1)] + file[End(file, k - 1)..End(file, k)];
    }
  }

  /** The last packet, and no other, is marked as the end. */
  lemma EndIsLast(file: seq<byte>, w: nat, k: nat)
    requires 0 < k <= PacketCount(file)
    ensures PacketAt(file, w, k).isEnd <==> k == PacketCount(file)
  {
  }

  // ---- what every step keeps ----

  /** The sender has fetched packets 1 to pktCnt - 1 and its window holds the last of them, in order. */
  ghost predicate SenderInv(file: seq<byte>, w: nat, s: Sender) {
    && 0 < s.pktCnt <= PacketCount(file) + 1
    && s.position == End(file, s.pktCnt - 1)
    && (s.closed <==> s.pktCnt == PacketCount(file) + 1)
    && |s.window| <= w && |s.window| < s.pktCnt
    && (forall i :: 0 <= i < |s.window| ==> s.window[i] == PacketAt(file, w, s.pktCnt - |s.window| + i))
    && (s.lastPkt == NO_LAST || s.lastPkt == PacketCount(file))
  }

  ghost predicate ReceiverInv(file: seq<byte>, w: nat, r: Receiver) {
    && 0 <= r.cumSeq <= PacketCount(file)
    && r.held <= 1
    && r.written == Payloads(file, w, r.cumSeq)
    && (r.done <==> r.cumSeq == PacketCount(file))
  }

  ghost predicate Inv(file: seq<byte>, w: nat, st: State) {
    && SenderInv(file, w, st.sender) && ReceiverInv(file, w, st.receiver)
    && (st.sender.closed <==> st.sender.lastPkt != NO_LAST)
    && (forall p :: p in st.packets ==> 0 < p.seqNo < st.sender.pktCnt && p == PacketAt(file, w, p.seqNo))
    && (forall a :: a in st.acks && !a.isNack ==> a.cumSeq <= st.receiver.cumSeq)
    && First(st.sender) <= st.receiver.cumSeq + 1
    && (st.exited ==> st.receiver.cumSeq == PacketCount(file))
  }

  /** The number of the first packet in the window, or of the next one to be fetched when it is empty. */
  function First(s: Sender): int { s.pktCnt - |s.window| }

  lemma FetchIsPacket(file: seq<byte>, w: nat, s: Sender)
    requires SenderInv(file, w, s) && !s.closed
    ensures Fetch(file, w, s.position, s.pktCnt) == PacketAt(file, w, s.pktCnt)
    ensures s.position + |PacketAt(file, w, s.pktCnt).data| == End(file, s.pktCnt)
  {
  }

  lemma FilledKeeps(file: seq<byte>, w: nat, s: Sender)
    requires SenderInv(file, w, s) && !s.closed && |s.window| < w
    ensures SenderInv(file, w, Filled(file, w, s))
    ensures Filled(file, w, s).window == s.window + [PacketAt(file, w, s.pktCnt)]
  {
    FetchIsPacket(file, w, s);
    EndIsLast(file, w, s.pktCnt);
  }

  lemma {:induction false} FillKeeps(file: seq<byte>, w: nat, s: Sender, n: nat)
    requires SenderInv(file, w, s) && !s.closed && n == w - |s.window|
    ensures var r := Fill(file, w, s, n);
      SenderInv(file, w, r) && s.pktCnt <= r.pktCnt && s.window <= r.window && r.lastPkt == s.lastPkt
      && First(r) == First(s) && (|r.window| == w || r.closed)
      && (!s.closed && r.closed ==> r.window != [] && r.window[|r.window| - 1].isEnd)
    decreases n
  {
    if n == 0 {
    } else {
      hide PacketAt, Filled, PacketCount;
      FilledKeeps(file, w, s);
      var r := Filled(file, w, s);
      if r.closed { ClosedAtEnd(file, w, s); } else { FillKeeps(file, w, r, n - 1); }
    }
  }

  lemma ClosedAtEnd(file: seq<byte>, w: nat, s: Sender)
    requires SenderInv(file, w, s) && !s.closed && Filled(file, w, s).closed
    ensures var r := Filled(file, w, s); r.window != [] && r.window[|r.window| - 1].isEnd
    ensures Filled(file, w, s).pktCnt == s.pktCnt + 1 && Filled(file, w, s).lastPkt == s.lastPkt
  {
  }

  /** A sweep ends with every packet of the window marked, and has sent those that were marked before. */
  lemma {:induction false} SweepSends(window: seq<Packet>, i: nat, r: Sweep)
    requires i <= |window|
    ensures var q := SweepFrom(window, i, r);
      && (forall p :: p in q.sent ==> p in r.sent || p in window)
      && (forall p :: p in r.sent ==> p in q.sent)
      && (forall n :: IsUnsent(r.umap, n) ==> IsUnsent(q.umap, n))
      && (forall j :: i <= j < |window| ==> IsUnsent(q.umap, window[j].seqNo))
      && (forall j :: i <= j < |window| && IsUnsent(r.umap, window[j].seqNo) ==> window[j] in q.sent)
    decreases |window| - i
  {
    if i == |window| {
    } else {
      var r1 := SweepOne(window[i], r);
      SweepSends(window, i + 1, r1);
    }
  }

  /** last_pkt is the number of the last end packet in the window. */
  lemma {:induction false} SweepFindsEnd(window: seq<Packet>, i: nat, r: Sweep, last: int)
    requires i <= |window|
    requires forall j :: i <= j < |window| && window[j].isEnd ==> window[j].seqNo == last
    ensures var q := SweepFrom(window, i, r);
      q.lastPkt == if exists j :: i <= j < |window| && window[j].isEnd then last else r.lastPkt
    decreases |window| - i
  {
    if i == |window| {
    } else {
      SweepFindsEnd(window, i + 1, SweepOne(window[i], r), last);
    }
  }

  lemma WindowIsFile(file: seq<byte>, w: nat, s: Sender)
    requires SenderInv(file, w, s)
    ensures forall i :: 0 <= i < |s.window| ==>
      && 0 < s.window[i].seqNo < s.pktCnt && s.window[i] == PacketAt(file, w, s.window[i].seqNo)
      && (s.window[i].isEnd <==> s.window[i].seqNo == PacketCount(file))
  {
    forall i | 0 <= i < |s.window|
      ensures 0 < s.window[i].seqNo < s.pktCnt && s.window[i] == PacketAt(file, w, s.window[i].seqNo)
      ensures s.window[i].isEnd <==> s.window[i].seqNo == PacketCount(file)
    {
      EndIsLast(file, w, s.pktCnt - |s.window| + i);
    }
  }

  lemma FillWindowKeeps(file: seq<byte>, w: nat, s: Sender)
    requires SenderInv(file, w, s) && (s.closed <==> s.lastPkt != NO_LAST)
    ensures var f := FillWindow(file, w, s);
      && SenderInv(file, w, f) && s.pktCnt <= f.pktCnt && f.lastPkt == s.lastPkt && (s.closed ==> f.closed)
      && First(f) == First(s) && (|f.window| == w || f.closed)
      && (f.closed && !s.closed ==> f.window != [] && f.window[|f.window| - 1].isEnd)
  {
    hide PacketAt, PacketCount, Fill;
    if |s.window| < w && s.lastPkt == NO_LAST { FillKeeps(file, w, s, w - |s.window|); }
  }

  lemma TimeoutKeeps(file: seq<byte>, w: nat, s: Sender)
    requires SenderInv(file, w, s) && (s.closed <==> s.lastPkt != NO_LAST)
    ensures var (t, sent) := Timeout(file, w, s);
      && SenderInv(file, w, t) && (t.closed <==> t.lastPkt != NO_LAST) && s.pktCnt <= t.pktCnt
      && First(t) == First(s) && (|t.window| == w || t.closed)
      && (forall p :: p in sent ==> p in t.window)
  {
    hide PacketAt, PacketCount, FillWindow;
    var f := FillWindow(file, w, s);
    FillWindowKeeps(file, w, s);
    WindowIsFile(file, w, f);
    SweepSends(f.window, 0, Sweep(f.umap, f.lastPkt, []));
    SweepFindsEnd(f.window, 0, Sweep(f.umap, f.lastPkt, []), PacketCount(file));
    if f.closed && !s.closed { assert f.window[|f.window| - 1].isEnd; }
  }

  /** Exactly the acknowledged packets leave, at the front; what stays keeps its mark. */
  lemma {:induction false} AckKeeps(file: seq<byte>, w: nat, s: Sender, cum: int)
    requires SenderInv(file, w, s)
    ensures var r := Acked(s, cum);
      && SenderInv(file, w, r) && r.pktCnt == s.pktCnt && r.closed == s.closed && r.lastPkt == s.lastPkt
      && (forall p :: p in r.window <==> p in s.window && p.seqNo > cum)
      && (First(r) == First(s) || First(r) <= cum + 1)
      && (forall n :: n != cum && IsUnsent(s.umap, n) ==> IsUnsent(r.umap, n))
      && r.umap == if r.window == s.window then s.umap else s.umap - {cum}
    decreases |s.window|
  {
    hide PacketAt;
    WindowGrows(file, w, s);
    if s.window == [] || s.window[0].seqNo > cum {
    } else {
      var t := s.(window := s.window[1..], umap := s.umap - {cum});
      AckKeeps(file, w, t, cum);
    }
  }

  lemma WindowGrows(file: seq<byte>, w: nat, s: Sender)
    requires SenderInv(file, w, s)
    ensures forall i :: 0 <= i < |s.window| ==> s.window[i].seqNo == s.pktCnt - |s.window| + i
  {
  }

  lemma ReceiveKeeps(file: seq<byte>, w: nat, r: Receiver, p: Packet)
    requires ReceiverInv(file, w, r)
    requires 0 < p.seqNo <= PacketCount(file) && p == PacketAt(file, w, p.seqNo)
    ensures var (r', out) := Receive(r, p);
      && ReceiverInv(file, w, r') && r.cumSeq <= r'.cumSeq
      && (forall a :: a in out && !a.isNack ==> a.cumSeq == r'.cumSeq)
  {
    EndIsLast(file, w, p.seqNo);
    hide PacketAt, PacketCount;
    NacksAreNacks(r.cumSeq, p.seqNo);
  }

  /** The demands between two numbers: each number between them once, in order. */
  lemma {:induction false} NacksAreNacks(lo: int, hi: int)
    ensures |Nacks(lo, hi)| == if lo + 1 < hi then hi - lo - 1 else 0
    ensures forall i :: 0 <= i < |Nacks(lo, hi)| ==> Nacks(lo, hi)[i] == Ack(lo + 1 + i, true)
    decreases hi - lo
  {
    if lo + 1 >= hi {
    } else {
      NacksAreNacks(lo + 1, hi);
    }
  }

  /**
   What the receiver answers. An old packet and the next one are acknowledged by the number that is then the
   last in sequence; the first packet behind a gap makes it demand every number of the gap; no other is answered.
   */
  lemma RepliesAre(r: Receiver, p: Packet)
    requires r.cumSeq >= 0
    ensures var (r', out) := Receive(r, p);
      if p.seqNo <= r.cumSeq + 1 then
        out == [Ack(r'.cumSeq, false)] && r'.cumSeq == (if p.seqNo == r.cumSeq + 1 then p.seqNo else r.cumSeq)
      else if r.held == 0 && p.wSize > 0 then
        && r'.held == 1 && r'.cumSeq == r.cumSeq && |out| == p.seqNo - r.cumSeq - 1
        && forall i :: 0 <= i < |out| ==> out[i] == Ack(r.cumSeq + 1 + i, true)
      else r' == r && out == []
  {
    NacksAreNacks(r.cumSeq, p.seqNo);
  }

  lemma InitialInv(file: seq<byte>, w: nat)
    ensures Inv(file, w, Initial())
  {
  }

  lemma NextKeeps(file: seq<byte>, w: nat, st: State, e: Event)
    requires Inv(file, w, st) && Enabled(file, st, e)
    ensures Inv(file, w, Next(file, w, st, e))
  {
    hide PacketAt, PacketCount, Payloads, Timeout;
    match e {
      case SenderTimeout =>
        TimeoutKeeps(file, w, st.sender);
        WindowIsFile(file, w, Timeout(file, w, st.sender).0);
      case AckArrives(a) => ReplyKeeps(file, w, st, a);
      case PacketArrives(p) => PacketKeeps(file, w, st, p);
    }
  }

  lemma ReplyKeeps(file: seq<byte>, w: nat, st: State, a: Ack)
    requires Inv(file, w, st) && Enabled(file, st, AckArrives(a))
    ensures Inv(file, w, Next(file, w, st, AckArrives(a)))
  {
    hide PacketAt, PacketCount, Payloads, Acked;
    WindowIsFile(file, w, st.sender);
    AckKeeps(file, w, st.sender, a.cumSeq);
  }

  lemma PacketKeeps(file: seq<byte>, w: nat, st: State, p: Packet)
    requires Inv(file, w, st) && Enabled(file, st, PacketArrives(p))
    ensures Inv(file, w, Next(file, w, st, PacketArrives(p)))
  {
    hide PacketAt, PacketCount, Payloads, Receive;
    ReceiveKeeps(file, w, st.receiver, p);
  }

  lemma {:induction false} RunKeeps(file: seq<byte>, w: nat, run: seq<State>, events: seq<Event>, i: nat)
    requires IsRun(file, w, run, events) && i < |run|
    ensures Inv(file, w, run[i])
  {
    hide Inv;
    if i == 0 {
      InitialInv(file, w);
    } else {
      RunKeeps(file, w, run, events, i - 1);
      NextKeeps(file, w, run[i - 1], events[i - 1]);
    }
  }

  /**
   In every state of every run the receiver has written the first packets of the file, in order and without
   a gap, its window never holds more than one element, and when the sender has exited the whole file is
   written.
   */
  lemma TransferIsSafe(file: seq<byte>, w: nat, run: seq<State>, events: seq<Event>, i: nat)
    requires IsRun(file, w, run, events) && i < |run|
    ensures var r := run[i].receiver;
      && 0 <= r.cumSeq && r.written == file[..End(file, r.cumSeq)]
      && (r.done <==> r.cumSeq == PacketCount(file)) && (r.done ==> r.written == file)
      && r.held <= 1
    ensures run[i].exited ==> run[i].receiver.written == file
  {
    RunKeeps(file, w, run, events, i);
    PayloadsArePrefix(file, w, run[i].receiver.cumSeq);
  }

  /**
   In every state of every run each packet that was fetched and that the receiver has not got is still in the
   sender's window.
   */
  lemma NothingIsDropped(file: seq<byte>, w: nat, run: seq<State>, events: seq<Event>, i: nat, k: int)
    requires IsRun(file, w, run, events) && i < |run|
    requires run[i].receiver.cumSeq < k < run[i].sender.pktCnt
    ensures k > 0 && PacketAt(file, w, k) in run[i].sender.window
  {
    RunKeeps(file, w, run, events, i);
    var s := run[i].sender;
    assert s.window[k - First(s)] == PacketAt(file, w, k);
  }

  /** The sender exits on exactly those acknowledgements that reach the last packet, once the file is closed. */
  lemma ExitsAtTheEnd(file: seq<byte>, w: nat, run: seq<State>, events: seq<Event>, i: nat)
    requires IsRun(file, w, run, events) && i < |events|
    requires events[i].AckArrives? && !events[i].ack.isNack
    ensures run[i + 1].exited <==> run[i].sender.closed && events[i].ack.cumSeq >= PacketCount(file)
  {
    hide PacketAt, PacketCount, Payloads;
    RunKeeps(file, w, run, events, i);
    AckKeeps(file, w, run[i].sender, events[i].ack.cumSeq);
  }

  /** The sender's window: consecutive packets of the file, at most W_SIZE of them. */
  lemma WindowIsConsecutive(file: seq<byte>, w: nat, run: seq<State>, events: seq<Event>, i: nat)
    requires IsRun(file, w, run, events) && i < |run|
    ensures var s := run[i].sender;
      && |s.window| <= w && |s.window| < s.pktCnt <= PacketCount(file) + 1
      && forall j :: 0 <= j < |s.window| ==> s.window[j] == PacketAt(file, w, s.pktCnt - |s.window| + j)
  {
    RunKeeps(file, w, run, events, i);
  }

  // ---- demands ----

  /** Whether an event makes the receiver demand packets. */
  ghost predicate Demands(st: State, e: Event) {
    e.PacketArrives? && exists a :: a in Receive(st.receiver, e.packet).1 && a.isNack
  }

  /** A receiver demands packets only when its window is empty, and then puts something there for good. */
  lemma DemandFills(file: seq<byte>, w: nat, st: State, e: Event)
    requires Enabled(file, st, e)
    ensures Demands(st, e) ==> st.receiver.held == 0 && Next(file, w, st, e).receiver.held > 0
    ensures Next(file, w, st, e).receiver.held >= st.receiver.held
  {
    hide Timeout, Acked;
  }

  lemma {:induction false} HeldStays(file: seq<byte>, w: nat, run: seq<State>, events: seq<Event>, i: nat, j: nat)
    requires IsRun(file, w, run, events) && i <= j < |run|
    ensures run[i].receiver.held <= run[j].receiver.held
  {
    if i == j {
    } else {
      HeldStays(file, w, run, events, i, j - 1);
      DemandFills(file, w, run[j - 1], events[j - 1]);
    }
  }

  /** In every run at most one event makes the receiver demand packets: the first gap it sees, and none after it. */
  lemma DemandsOnce(file: seq<byte>, w: nat, run: seq<State>, events: seq<Event>, i: nat, j: nat)
    requires IsRun(file, w, run, events) && i < j < |events|
    ensures !(Demands(run[i], events[i]) && Demands(run[j], events[j]))
  {
    hide Next, Receive;
    DemandFills(file, w, run[i], events[i]);
    DemandFills(file, w, run[j], events[j]);
    HeldStays(file, w, run, events, i + 1, j);
  }

  // ---- retransmission ----

  /** The packets a step puts on the network. */
  ghost function Transmits(file: seq<byte>, w: nat, st: State, e: Event): set<Packet>
    requires Enabled(file, st, e)
  {
    match e
    case SenderTimeout => Elements(Timeout(file, w, st.sender).1)
    case AckArrives(a) =>
      set i | 0 <= i < |st.sender.window| && a.isNack && st.sender.window[i].seqNo == a.cumSeq :: st.sender.window[i]
    case PacketArrives(_) => {}
  }

  ghost predicate Transmitted(file: seq<byte>, w: nat, run: seq<State>, events: seq<Event>, p: Packet, from: nat, to: nat)
    requires IsRun(file, w, run, events) && to <= |events|
  {
    exists k :: from <= k < to && p in Transmits(file, w, run[k], events[k])
  }

  lemma {:induction false} FillKeepsMarks(file: seq<byte>, w: nat, s: Sender, n: nat)
    requires s.position <= |file|
    ensures var r := Fill(file, w, s, n);
      s.window <= r.window && forall m :: IsUnsent(s.umap, m) ==> IsUnsent(r.umap, m)
    decreases n
  {
    if n == 0 {
    } else {
      var r := Filled(file, w, s);
      FillKeepsMarks(file, w, r, n - 1);
    }
  }

  /** A timeout sends what was marked before it and marks everything. */
  lemma TimeoutSends(file: seq<byte>, w: nat, s: Sender, p: Packet)
    requires s.position <= |file|
    ensures var (t, sent) := Timeout(file, w, s);
      && (p in t.window ==> IsUnsent(t.umap, p.seqNo))
      && (p in s.window && IsUnsent(s.umap, p.seqNo) ==> p in sent)
  {
    hide Fill, Fetch;
    var f := FillWindow(file, w, s);
    if |s.window| < w && s.lastPkt == NO_LAST { FillKeepsMarks(file, w, s, w - |s.window|); }
    SweepSends(f.window, 0, Sweep(f.umap, f.lastPkt, []));
    if p in s.window {
      var i :| 0 <= i < |s.window| && s.window[i] == p;
      assert f.window[i] == p;
    }
  }

  /** The packets of a window that are marked, in their order. */
  function Marked(window: seq<Packet>, umap: map<int, Mark>): seq<Packet> {
    if window == [] then []
    else (if IsUnsent(umap, window[0].seqNo) then [window[0]] else []) + Marked(window[1..], umap)
  }

  lemma {:induction false} MarkedAre(window: seq<Packet>, umap: map<int, Mark>)
    ensures forall p :: p in Marked(window, umap) <==> p in window && IsUnsent(umap, p.seqNo)
  {
    if window == [] {
    } else {
      MarkedAre(window[1..], umap);
    }
  }

  lemma {:induction false} MarkedElsewhere(window: seq<Packet>, a: map<int, Mark>, b: map<int, Mark>)
    requires forall j :: 0 <= j < |window| ==> IsUnsent(a, window[j].seqNo) == IsUnsent(b, window[j].seqNo)
    ensures Marked(window, a) == Marked(window, b)
  {
    if window == [] {
    } else {
      MarkedElsewhere(window[1..], a, b);
    }
  }

  /** A sweep over packets with different numbers sends exactly the marked ones. */
  lemma {:induction false} SweepIsExact(window: seq<Packet>, i: nat, r: Sweep)
    requires i <= |window| && forall j, k :: i <= j < k < |window| ==> window[j].seqNo != window[k].seqNo
    ensures SweepFrom(window, i, r).sent == r.sent + Marked(window[i..], r.umap)
    decreases |window| - i
  {
    if i == |window| {
      assert r.sent + [] == r.sent;
    } else {
      var q := SweepOne(window[i], r);
      SweepIsExact(window, i + 1, q);
      assert window[i..][1..] == window[i + 1..];
      MarkedElsewhere(window[i + 1..], q.umap, r.umap);
      var one := if IsUnsent(r.umap, window[i].seqNo) then [window[i]] else [];
      assert r.sent + one + Marked(window[i + 1..], r.umap) == r.sent + (one + Marked(window[i + 1..], r.umap));
      assert q.sent == r.sent + one;
    }
  }

  /** Filling marks the packets it fetches, all but the end packet. */
  lemma {:induction false} FillMarks(file: seq<byte>, w: nat, s: Sender, n: nat)
    requires SenderInv(file, w, s) && !s.closed && n == w - |s.window|
    ensures var r := Fill(file, w, s, n);
      forall m: int :: IsUnsent(r.umap, m) <==> IsUnsent(s.umap, m) || (s.pktCnt <= m < r.pktCnt && m != PacketCount(file))
    decreases n
  {
    if n == 0 {
    } else {
      hide PacketAt, PacketCount;
      FilledKeeps(file, w, s);
      FilledMarks(file, w, s);
      hide Filled, SenderInv;
      var r := Filled(file, w, s);
      if !r.closed {
        FillCounts(file, w, r, n - 1);
        FillMarks(file, w, r, n - 1);
      }
    }
  }

  lemma FilledMarks(file: seq<byte>, w: nat, s: Sender)
    requires SenderInv(file, w, s) && !s.closed && |s.window| < w
    ensures var r := Filled(file, w, s);
      && r.pktCnt == s.pktCnt + 1 && |r.window| == |s.window| + 1
      && forall m: int :: IsUnsent(r.umap, m) <==> IsUnsent(s.umap, m) || (m == s.pktCnt && m != PacketCount(file))
  {
    FetchIsPacket(file, w, s);
    EndIsLast(file, w, s.pktCnt);
  }

  lemma {:induction false} FillCounts(file: seq<byte>, w: nat, s: Sender, n: nat)
    requires SenderInv(file, w, s) && !s.closed && n == w - |s.window|
    ensures s.pktCnt <= Fill(file, w, s, n).pktCnt
  {
    FillKeeps(file, w, s, n);
  }

  /**
   A timeout sends exactly the packets that were marked and those it has fetched, except the end packet, which
   waits for the next one; a packet that was sent on demand since the last timeout is left out.
   */
  lemma TimeoutSendsExactly(file: seq<byte>, w: nat, s: Sender, p: Packet)
    requires SenderInv(file, w, s) && (s.closed <==> s.lastPkt != NO_LAST)
    ensures var (t, sent) := Timeout(file, w, s);
      p in sent <==>
        p in t.window && (IsUnsent(s.umap, p.seqNo) || (s.pktCnt <= p.seqNo < t.pktCnt && !p.isEnd))
  {
    hide PacketAt, PacketCount, Fill;
    var f := FillWindow(file, w, s);
    FillWindowKeeps(file, w, s);
    WindowIsFile(file, w, f);
    WindowGrows(file, w, f);
    if |s.window| < w && s.lastPkt == NO_LAST { FillMarks(file, w, s, w - |s.window|); }
    SweepIsExact(f.window, 0, Sweep(f.umap, f.lastPkt, []));
    assert f.window[0..] == f.window;
    MarkedAre(f.window, f.umap);
    assert [] + Marked(f.window, f.umap) == Marked(f.window, f.umap);
  }

  /** After a demand the next timeout does not send that packet again. */
  lemma DemandedIsNotRepeated(file: seq<byte>, w: nat, s: Sender, p: Packet)
    requires SenderInv(file, w, s) && (s.closed <==> s.lastPkt != NO_LAST) && p in s.window
    ensures p !in Timeout(file, w, Demanded(s, p.seqNo)).1
  {
    WindowIsFile(file, w, s);
    TimeoutSendsExactly(file, w, Demanded(s, p.seqNo), p);
  }

  /** Between timeouts a packet of the window stays marked unless it is sent on demand. */
  lemma StaysMarked(file: seq<byte>, w: nat, st: State, e: Event, p: Packet)
    requires Inv(file, w, st) && Enabled(file, st, e) && !e.SenderTimeout?
    requires p in Next(file, w, st, e).sender.window
    ensures p in st.sender.window
    ensures IsUnsent(st.sender.umap, p.seqNo) ==>
      IsUnsent(Next(file, w, st, e).sender.umap, p.seqNo) || p in Transmits(file, w, st, e)
  {
    hide Receive, Acked;
    match e {
      case AckArrives(a) => if !a.isNack { AckKeeps(file, w, st.sender, a.cumSeq); }
      case PacketArrives(_) =>
    }
  }

  lemma MarkedByTimeout(file: seq<byte>, w: nat, st: State, p: Packet)
    requires Enabled(file, st, SenderTimeout) && p in Next(file, w, st, SenderTimeout).sender.window
    ensures IsUnsent(Next(file, w, st, SenderTimeout).sender.umap, p.seqNo)
  {
    hide Timeout;
    TimeoutSends(file, w, st.sender, p);
  }

  lemma {:induction false} MarkedOrSent(file: seq<byte>, w: nat, run: seq<State>, events: seq<Event>, p: Packet,
      i: nat, k: nat)
    requires IsRun(file, w, run, events) && i < k <= |events|
    requires events[i].SenderTimeout? && forall m :: i < m < k ==> !events[m].SenderTimeout?
    requires p in run[k].sender.window
    ensures IsUnsent(run[k].sender.umap, p.seqNo) || Transmitted(file, w, run, events, p, i + 1, k)
    decreases k
  {
    hide Transmits, Inv, Next, Enabled;
    if k == i + 1 {
      MarkedByTimeout(file, w, run[i], p);
    } else {
      RunKeeps(file, w, run, events, k - 1);
      StaysMarked(file, w, run[k - 1], events[k - 1], p);
      MarkedOrSent(file, w, run, events, p, i, k - 1);
    }
  }

  /**
   A packet that is still in the window at the second of two successive timeouts is sent after the first one,
   at the latest by the second.
   */
  lemma SentWithinTwoTimeouts(file: seq<byte>, w: nat, run: seq<State>, events: seq<Event>, p: Packet, i: nat, j: nat)
    requires IsRun(file, w, run, events) && i < j < |events|
    requires events[i].SenderTimeout? && events[j].SenderTimeout?
    requires forall k :: i < k < j ==> !events[k].SenderTimeout?
    requires p in run[j].sender.window
    ensures Transmitted(file, w, run, events, p, i + 1, j + 1)
  {
    MarkedOrSent(file, w, run, events, p, i, j);
    if IsUnsent(run[j].sender.umap, p.seqNo) {
      TimeoutSends(file, w, run[j].sender, p);
      assert p in Transmits(file, w, run[j], events[j]);
    }
  }
}
