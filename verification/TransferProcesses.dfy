/** The two event loops of the file transfer, each event proved against the state it is modelled by. */
module TransferProcesses {
  import opened Bytes
  import opened Transfer

  /** The file that is read, through the two handles of fetch_next: one moves, one stays at the end. */
  class Source {
    const content: seq<byte>
    var position: nat
    var closed: bool

    constructor (content: seq<byte>)
      ensures this.content == content && position == 0 && !closed
    {
      this.content := content;
      position, closed := 0, false;
    }

    /** fetch_next */
    method FetchNext(w: nat, seqNo: int) returns (pkt: Packet)
      requires position <= |content|
      modifies this
      ensures pkt == Fetch(content, w, old(position), seqNo)
      ensures position == old(position) + |pkt.data| <= |content| && closed == (pkt.isEnd || old(closed))
    {
      var dtSize := PKT_DT_SIZE;
      if |content| - position < PKT_DT_SIZE { dtSize := |content| - position; }
      var data := content[position..position + dtSize];
      position := position + dtSize;
      var isEnd := false;
      if position >= |content| {
        isEnd := true;
        closed := true;
      }
      pkt := Packet(seqNo, data, isEnd, w);
    }
  }

  class SenderProcess {
    const w: nat
    const source: Source
    var window: seq<Packet>
    var umap: map<int, Mark>
    var lastPkt: int
    var pktCnt: int

    ghost function Model(): Sender
      reads this, source
    {
      Sender(window, umap, lastPkt, pktCnt, source.position, source.closed)
    }

    /** Once the file is closed its last packet is known. */
    ghost predicate Valid()
      reads this, source
    {
      && source.position <= |source.content| && pktCnt > 0
      && (forall i :: 0 <= i < |window| ==> window[i].seqNo > 0)
      && (source.closed ==> lastPkt != NO_LAST)
    }

    constructor (w: nat, source: Source)
      requires source.position == 0 && !source.closed
      ensures Valid() && Model() == InitialSender() && this.source == source && this.w == w
    {
      this.w, this.source := w, source;
      window, umap, lastPkt, pktCnt := [], map[], NO_LAST, 1;
    }

    /** fill_win */
    method FillWin()
      requires Valid()
      modifies this, source
      ensures Model() == FillWindow(source.content, w, old(Model()))
    {
      hide Fetch;
      if |window| < w && lastPkt == NO_LAST {
        var newAmt := w - |window|;
        var i := 0;
        while i < newAmt
          invariant i <= newAmt && source.position <= |source.content| && !source.closed
          invariant Fill(source.content, w, old(Model()), newAmt) == Fill(source.content, w, Model(), newAmt - i)
        {
          ghost var before := Model();
          var pkt := source.FetchNext(w, pktCnt);
          window := window + [pkt];
          pktCnt := pktCnt + 1;
          if source.closed { break; }
          umap := umap[pkt.seqNo := Unsent];
          i := i + 1;
        }
      }
    }

    /** The timeout branch of the loop, when no other sender is being served. */
    method OnTimeout() returns (sent: seq<Packet>)
      requires Valid()
      modifies this, source
      ensures Valid() && (Model(), sent) == Timeout(source.content, w, old(Model()))
    {
      hide Fill;
      if |window| < w && lastPkt == NO_LAST { FillEnds(source.content, w, Model(), w - |window|); }
      FillWin();
      sent := [];
      ghost var start := Sweep(umap, lastPkt, []);
      ghost var filled := Model();
      if source.closed { SweepEnds(window, 0, start); }
      var i := 0;
      while i < |window|
        invariant i <= |window|
        invariant Model() == filled.(umap := umap, lastPkt := lastPkt)
        invariant SweepFrom(window, 0, start) == SweepFrom(window, i, Sweep(umap, lastPkt, sent))
      {
        var p := window[i];
        if p.seqNo in umap && umap[p.seqNo] == Unsent {
          sent := sent + [p];
        } else {
          umap := umap[p.seqNo := Unsent];
        }
        if p.isEnd { lastPkt := p.seqNo; }
        i := i + 1;
      }
    }

    /** A cumulative acknowledgement; true when the sender exits. */
    method OnAck(cum: int) returns (exits: bool)
      requires Valid()
      modifies this
      ensures Valid() && Model() == Acked(old(Model()), cum)
      ensures exits == Finishes(Model(), cum)
    {
      while |window| != 0 && window[0].seqNo <= cum
        invariant Valid() && Acked(Model(), cum) == Acked(old(Model()), cum)
        decreases |window|
      {
        window := window[1..];
        umap := umap - {cum};
      }
      exits := lastPkt != NO_LAST && cum >= lastPkt;
    }

    /** A demand: find_if finds the packet, which goes out at once. */
    method OnNack(seqNo: int) returns (sent: Packet)
      requires Valid() && InWindow(window, seqNo)
      modifies this
      ensures Valid() && Model() == Demanded(old(Model()), seqNo)
      ensures sent in old(window) && sent.seqNo == seqNo
    {
      var i := 0;
      while window[i].seqNo != seqNo
        invariant 0 <= i < |window| && window == old(window) && Model() == old(Model())
        invariant exists j :: i <= j < |window| && window[j].seqNo == seqNo
        decreases |window| - i
      {
        i := i + 1;
      }
      sent := window[i];
      umap := umap[seqNo := Sent];
    }
  }

  /** One message buffer in memory. */
  class Cell {
    var packet: Packet

    constructor ()
    {
      packet := Packet(0, [], false, 0);
    }
  }

  /** The demands for every gap between the packets of a window with these numbers, from `lo` on. */
  function Gaps(lo: int, numbers: seq<int>): seq<Ack>
    decreases |numbers|
  {
    if numbers == [] then [] else Nacks(lo, numbers[0]) + Gaps(numbers[0], numbers[1..])
  }

  /** The gap in front of the element at `k`, and what follows it. */
  lemma {:induction false} NextGap(out: seq<Ack>, lo: int, numbers: seq<int>, k: nat)
    requires k < |numbers|
    ensures out + Gaps(lo, numbers[k..]) == (out + Nacks(lo, numbers[k])) + Gaps(numbers[k], numbers[k + 1..])
  {
    assert numbers[k..][1..] == numbers[k + 1..];
  }

  ghost function Numbers(window: seq<Cell>): (r: seq<int>)
    reads window
    ensures |r| == |window| && forall i :: 0 <= i < |r| ==> r[i] == window[i].packet.seqNo
  {
    seq(|window|, i requires 0 <= i < |window| reads window => window[i].packet.seqNo)
  }

  /** How many packets with these numbers the loop behind the sequential packet `seqNo` takes off the window. */
  ghost function Drained(cumSeq: int, seqNo: int, numbers: seq<int>): (n: nat)
    decreases |numbers|
    ensures n <= |numbers|
  {
    if numbers == [] || numbers[0] != cumSeq + 1 then 0 else 1 + Drained(seqNo, seqNo, numbers[1..])
  }

  ghost function Copies<T>(s: seq<T>, n: nat): seq<T> {
    if n == 0 then [] else Copies(s, n - 1) + s
  }

  lemma CopiesSnoc<T>(a: seq<T>, s: seq<T>, n: nat)
    ensures a + Copies(s, n) + s == a + Copies(s, n + 1)
  {
  }

  class ReceiverProcess {
    const messBuf: Cell
    var window: seq<Cell>
    var cumSeq: int
    var done: bool
    var written: seq<byte>

    /** The window holds references to the one message buffer. */
    ghost predicate Valid()
      reads this
    {
      |window| <= 1 && forall i :: 0 <= i < |window| ==> window[i] == messBuf
    }

    ghost function Model(): Receiver
      reads this
    {
      Receiver(cumSeq, |window|, written, done)
    }

    constructor ()
      ensures Valid() && Model() == InitialReceiver() && fresh(messBuf)
    {
      messBuf := new Cell();
      window, cumSeq, done, written := [], 0, false, [];
    }

    /** Whether a packet with that number is in the window. */
    method Present(seqNo: int) returns (present: bool)
      ensures present <==> exists i :: 0 <= i < |window| && window[i].packet.seqNo == seqNo
    {
      present := false;
      var i := 0;
      while i < |window|
        invariant i <= |window| && !present
        invariant forall k :: 0 <= k < i ==> window[k].packet.seqNo != seqNo
      {
        if window[i].packet.seqNo == seqNo { return true; }
        i := i + 1;
      }
    }

    /** sort, by sequence number. */
    static function SortBySeq(s: seq<Cell>): (r: seq<Cell>)
      reads set x | x in s
      ensures |r| == |s| && forall c :: c in r ==> c in s
    {
      if s == [] then [] else InsertBySeq(s[0], SortBySeq(s[1..]))
    }

    static function InsertBySeq(c: Cell, s: seq<Cell>): (r: seq<Cell>)
      reads {c} + set x | x in s
      ensures |r| == |s| + 1 && forall d :: d in r ==> d == c || d in s
    {
      if s == [] || c.packet.seqNo < s[0].packet.seqNo then [c] + s else [s[0]] + InsertBySeq(c, s[1..])
    }

    /**
     The loop that writes buffered packets, as far as the first of them is the next one. Each turn takes one
     off the window, but what it writes and acknowledges is the packet that has just arrived.
     */
    method Drain(pkt: Cell) returns (out: seq<Ack>)
      modifies this
      ensures var n := Drained(old(cumSeq), old(pkt.packet.seqNo), old(Numbers(window)));
        && window == old(window)[n..] && cumSeq == (if n == 0 then old(cumSeq) else pkt.packet.seqNo)
        && written == old(written) + Copies(pkt.packet.data, n) && done == old(done)
        && out == Copies([Ack(pkt.packet.seqNo, false)], n)
    {
      out := [];
      ghost var n, before, numbers, packet, sofar := 0, window, Numbers(window), pkt.packet, written;
      while |window| != 0 && window[0].packet.seqNo == cumSeq + 1
        invariant n <= |before| && window == before[n..] && done == old(done) && pkt.packet == packet
        invariant cumSeq == if n == 0 then old(cumSeq) else packet.seqNo
        invariant written == sofar + Copies(packet.data, n)
        invariant out == Copies([Ack(packet.seqNo, false)], n)
        invariant Drained(old(cumSeq), packet.seqNo, numbers) == n + Drained(cumSeq, packet.seqNo, numbers[n..])
        decreases |window|
      {
        cumSeq := pkt.packet.seqNo;
        out := out + [Ack(cumSeq, false)];
        window := window[1..];
        written := written + pkt.packet.data;
        assert numbers[n..][1..] == numbers[n + 1..];
        CopiesSnoc(sofar, packet.data, n);
        n := n + 1;
      }
    }

    /** The loop that demands what is missing between the packets of the window. */
    method DemandGaps() returns (out: seq<Ack>)
      ensures out == Gaps(cumSeq, Numbers(window))
    {
      out := [];
      var loInd, hiInd := -1, 0;
      ghost var numbers := Numbers(window);
      while hiInd < |window|
        invariant loInd == hiInd - 1 && 0 <= hiInd <= |window| && numbers == Numbers(window)
        invariant Gaps(cumSeq, numbers) == out + Gaps(if loInd == -1 then cumSeq else numbers[loInd], numbers[hiInd..])
      {
        var lo := if loInd == -1 then cumSeq else window[loInd].packet.seqNo;
        var hi := window[hiInd].packet.seqNo;
        NextGap(out, lo, numbers, hiInd);
        ghost var goal := out + Nacks(lo, hi);
        var i := lo + 1;
        while i < hi
          invariant lo < i && (i <= hi || i == lo + 1)
          invariant goal == out + Nacks(i - 1, hi)
          decreases hi - i
        {
          out := out + [Ack(i, true)];
          i := i + 1;
        }
        assert out + [] == out;
        loInd, hiInd := loInd + 1, hiInd + 1;
      }
    }

    /** The receive branch of the loop. */
    method OnPacket(p: Packet) returns (out: seq<Ack>)
      requires Valid()
      modifies this, messBuf
      ensures Valid()
      ensures (Model(), out) == Receive(old(Model()), p)
    {
      messBuf.packet := p;
      var pkt := messBuf;
      if pkt.packet.seqNo <= cumSeq {
        out := [Ack(cumSeq, false)];
      } else if pkt.packet.seqNo == cumSeq + 1 {
        cumSeq := pkt.packet.seqNo;
        if pkt.packet.isEnd { done := true; }
        out := [Ack(cumSeq, false)];
        written := written + pkt.packet.data;
        assert written + [] == written;
        var more := Drain(pkt);
        assert window == old(window);
        assert more == [];
        out := out + more;
        assert out == [Ack(cumSeq, false)];
      } else if |window| < pkt.packet.wSize {
        assert window != [] ==> window[0].packet.seqNo == p.seqNo;
        var present := Present(pkt.packet.seqNo);
        if present { return []; }
        window := SortBySeq(window + [pkt]);
        assert window == [pkt];
        out := DemandGaps();
        assert Numbers(window) == [p.seqNo] && [p.seqNo][1..] == [];
        assert out == Nacks(cumSeq, p.seqNo) + [] == Nacks(cumSeq, p.seqNo);
      } else {
        out := [];
      }
    }
  }
}
