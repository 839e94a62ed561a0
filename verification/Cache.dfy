/** The real-time server's cache and its client: their state and what one message does to it. */
module Cache {
  import opened Bytes

  type Data = seq<byte>

  const W_SIZE: nat := 80

  /** The sequence number that tells a client it is blocked. */
  const BLOCKED: nat := 0xFFFF_FFFF

  /** The client's delta before it is calibrated. */
  const NO_DELTA: int := 0xFFFF

  /** An ack_pkt: a demand, an acknowledgement, or with number 0 a calibration request. */
  datatype Message = Message(seqNo: nat, isNack: bool)

  /** A net_pkt from the server. The reply to a calibration request carries no data sequence number. */
  datatype Reply = Calibration | Packet(seqNo: nat, data: Data)

  // ---- the server ----

  datatype Server = Server(window: map<nat, Data>, timetable: map<nat, int>, cumSeq: nat, cacheSeq: nat)

  function InitialServer(): Server {
    Server(map[], map[], 0, 1)
  }

  /** Data from the application is cached under the next number. */
  function Cached(s: Server, data: Data): Server {
    s.(window := s.window[s.cacheSeq := data], cacheSeq := s.cacheSeq + 1)
  }

  /** What is left of a map when everything in front of a number is removed. */
  function From<V>(m: map<nat, V>, n: nat): map<nat, V> {
    map k | k in m && n <= k :: m[k]
  }

  function ServerGets(s: Server, m: Message, now: int): (Server, set<Reply>) {
    if m.seqNo == 0 then (s, {Calibration})
    else if m.isNack then
      if m.seqNo in s.window then
        (if m.seqNo in s.timetable then s else s.(timetable := s.timetable[m.seqNo := now]),
          {Packet(m.seqNo, s.window[m.seqNo])})
      else (s, {})
    else if s.cumSeq < m.seqNo then
      (Server(From(s.window, m.seqNo), From(s.timetable, m.seqNo), m.seqNo, s.cacheSeq), {})
    else (s, {})
  }

  // ---- the client ----

  /** `timetable` maps arrival stamps to numbers; `delivered` is what the application got. */
  datatype Client = Client(
    window: map<nat, Data>, timetable: map<nat, nat>, cumSeq: nat, delta: int, exited: bool, delivered: seq<Data>)

  function InitialClient(): Client {
    Client(map[], map[], 0, NO_DELTA, false, [])
  }

  /** The first number from `i` on that is not in the window, or `limit`. */
  function FirstMissing(window: map<nat, Data>, i: nat, limit: nat): (j: nat)
    ensures i <= j && (i <= limit ==> j <= limit)
    ensures forall k :: i <= k < j ==> k in window
    ensures j < limit ==> j !in window
    decreases limit - i
  {
    if i < limit && i in window then FirstMissing(window, i + 1, limit) else i
  }

  /** A packet comes in, stamped `stamp`; `delta` is the calibration that would be taken from it. */
  function ClientGets(c: Client, r: Reply, stamp: nat, delta: int): (Client, set<Message>) {
    if r.Packet? && r.seqNo == BLOCKED then (c.(exited := true), {})
    else if c.cumSeq == 0 && c.delta == NO_DELTA then (c.(delta := delta, cumSeq := 1), {})
    else if r.Calibration? then (c, {})
    else
      var stored := c.(timetable := c.timetable[stamp := r.seqNo], window := c.window[r.seqNo := r.data]);
      if r.seqNo != c.cumSeq then (stored, {})
      else
        var next := FirstMissing(c.window, c.cumSeq + 1, c.cumSeq + 1 + W_SIZE);
        (stored.(cumSeq := next), {Message(next - 1, false)})
  }

  /** The demands of a timeout. */
  function Demands(c: Client): set<Message> {
    set i | c.cumSeq <= i < c.cumSeq + W_SIZE && i !in c.window :: Message(i, true)
  }

  /** The highest number among the stamps that have expired. */
  function TopExpired(timetable: map<nat, nat>, expired: seq<nat>): (top: nat) {
    if expired == [] then 0
    else
      var top := TopExpired(timetable, expired[1..]);
      if expired[0] in timetable && timetable[expired[0]] > top then timetable[expired[0]] else top
  }

  function Without<V>(m: map<nat, V>, keys: seq<nat>): map<nat, V> {
    map k | k in m && k !in keys :: m[k]
  }

  /** The packets of a window from `i` up to `top`, in order. */
  function InOrder(window: map<nat, Data>, i: nat, top: nat): seq<Data>
    decreases top + 1 - i
  {
    if i > top then [] else (if i in window then [window[i]] else []) + InOrder(window, i + 1, top)
  }

  /** Everything up to the highest expired number goes to the application. */
  function Delivers(c: Client, expired: seq<nat>): Client {
    var top := TopExpired(c.timetable, expired);
    c.(timetable := Without(c.timetable, expired),
      window := From(c.window, top + 1),
      delivered := c.delivered + InOrder(c.window, 0, top),
      cumSeq := if c.cumSeq > 0 && top >= c.cumSeq then top + 1 else c.cumSeq)
  }

  // ---- what the client's steps amount to ----

  /** The numbers of a window from `i` up to, but without, `k`. */
  function Between(window: map<nat, Data>, i: nat, k: nat): set<nat> {
    set j | j in window && i <= j < k
  }

  /** In front of a packet stand exactly the packets with smaller numbers. */
  lemma {:induction false} InOrderIs(window: map<nat, Data>, i: nat, top: nat)
    ensures |InOrder(window, i, top)| == |Between(window, i, top + 1)|
    ensures forall k :: k in window && i <= k <= top ==>
      |Between(window, i, k)| < |InOrder(window, i, top)| && InOrder(window, i, top)[|Between(window, i, k)|] == window[k]
    decreases top + 1 - i
  {
    if i > top {
      assert Between(window, i, top + 1) == {};
    } else {
      InOrderIs(window, i + 1, top);
      BetweenStep(window, i, top + 1);
      forall k | k in window && i <= k <= top
        ensures |Between(window, i, k)| < |InOrder(window, i, top)|
          && InOrder(window, i, top)[|Between(window, i, k)|] == window[k]
      {
        if k == i {
          assert Between(window, i, i) == {};
        } else {
          BetweenStep(window, i, k);
        }
      }
    }
  }

  lemma BetweenStep(window: map<nat, Data>, i: nat, k: nat)
    requires i < k
    ensures |Between(window, i, k)| == |Between(window, i + 1, k)| + if i in window then 1 else 0
  {
    if i in window {
      assert Between(window, i, k) == Between(window, i + 1, k) + {i};
    } else {
      assert Between(window, i, k) == Between(window, i + 1, k);
    }
  }

  /** The greatest number among the expired stamps: none is greater, and there is one, or there are none. */
  lemma {:induction false} TopIsGreatest(timetable: map<nat, nat>, expired: seq<nat>)
    ensures forall x :: x in expired && x in timetable ==> timetable[x] <= TopExpired(timetable, expired)
    ensures TopExpired(timetable, expired) == 0
      || exists x :: x in expired && x in timetable && timetable[x] == TopExpired(timetable, expired)
  {
    if expired == [] {
    } else {
      TopIsGreatest(timetable, expired[1..]);
      assert expired == [expired[0]] + expired[1..];
    }
  }

  /** A packet is stored once the client is calibrated, whatever its number. */
  predicate Stores(c: Client, r: Reply) {
    r.Packet? && r.seqNo != BLOCKED && !(c.cumSeq == 0 && c.delta == NO_DELTA)
  }

  /**
   What a reply does. The blocked number ends the client; the first reply calibrates it; from then on every
   packet is stored under its number, and its arrival under the stamp.
   */
  lemma ReplyIsStored(c: Client, r: Reply, stamp: nat, delta: int)
    ensures var (d, out) := ClientGets(c, r, stamp, delta);
      && d.delivered == c.delivered
      && (d.exited <==> c.exited || r == Packet(BLOCKED, if r.Packet? then r.data else []))
      && (forall k :: k in d.window <==> k in c.window || (Stores(c, r) && k == r.seqNo))
      && (forall k :: k in d.window ==> d.window[k] == if Stores(c, r) && k == r.seqNo then r.data else c.window[k])
      && (forall x :: x in d.timetable <==> x in c.timetable || (Stores(c, r) && x == stamp))
      && (Stores(c, r) ==> d.timetable[stamp] == r.seqNo)
      && (c.cumSeq == 0 && c.delta == NO_DELTA && !d.exited ==> d.cumSeq == 1 && d.delta == delta)
  {
  }

  /**
   When the awaited packet comes the client moves on to the first number it does not hold, 81 numbers ahead at
   most, and acknowledges the one in front of it; no other packet moves it or is acknowledged.
   */
  lemma ClientMovesOn(c: Client, r: Reply, stamp: nat, delta: int)
    requires Stores(c, r)
    ensures var (d, out) := ClientGets(c, r, stamp, delta);
      && (r.seqNo != c.cumSeq ==> d.cumSeq == c.cumSeq && out == {})
      && (r.seqNo == c.cumSeq ==>
        && c.cumSeq < d.cumSeq <= c.cumSeq + 81 && out == {Message(d.cumSeq - 1, false)}
        && (forall k :: c.cumSeq <= k < d.cumSeq ==> k in d.window)
        && (d.cumSeq < c.cumSeq + 81 ==> d.cumSeq !in d.window))
  {
  }

  /** A timeout demands exactly the missing ones of the next 80 numbers. */
  lemma DemandsAreTheMissing(c: Client, m: Message)
    ensures m in Demands(c) <==> m.isNack && c.cumSeq <= m.seqNo < c.cumSeq + 80 && m.seqNo !in c.window
  {
  }

  /**
   Timed delivery hands over everything up to the greatest expired number in the order of the numbers, keeps
   the rest, and goes on behind that number when it has passed it.
   */
  lemma {:induction false} DeliveryIsInOrder(c: Client, expired: seq<nat>)
    ensures var d, top := Delivers(c, expired), TopExpired(c.timetable, expired);
      && |d.delivered| == |c.delivered| + |Between(c.window, 0, top + 1)| && c.delivered <= d.delivered
      && (forall k :: k in c.window && k <= top ==>
        |c.delivered| + |Between(c.window, 0, k)| < |d.delivered|
        && d.delivered[|c.delivered| + |Between(c.window, 0, k)|] == c.window[k])
      && (forall k :: k in d.window <==> k in c.window && k > top)
      && (forall x :: x in d.timetable <==> x in c.timetable && x !in expired)
      && d.cumSeq == if c.cumSeq > 0 && c.cumSeq <= top then top + 1 else c.cumSeq
  {
    InOrderIs(c.window, 0, TopExpired(c.timetable, expired));
  }

  // ---- what the server's steps amount to ----

  /**
   A demand is answered exactly when the packet is held, with its data; the time of its first answer stays. A
   calibration request is answered, an acknowledgement is not.
   */
  lemma ServerAnswers(s: Server, m: Message, now: int)
    ensures var (t, out) := ServerGets(s, m, now);
      && (m.seqNo == 0 ==> out == {Calibration} && t == s)
      && (m.seqNo > 0 && m.isNack && m.seqNo in s.window ==>
        && out == {Packet(m.seqNo, s.window[m.seqNo])} && t.window == s.window && t.cumSeq == s.cumSeq
        && t.timetable == s.timetable[m.seqNo := if m.seqNo in s.timetable then s.timetable[m.seqNo] else now])
      && (m.seqNo > 0 && m.isNack && m.seqNo !in s.window ==> out == {} && t == s)
      && (m.seqNo > 0 && !m.isNack ==>
        && out == {} && t.cumSeq == Max(s.cumSeq, m.seqNo)
        && (forall k :: k in t.window <==> k in s.window && (m.seqNo > s.cumSeq ==> k >= m.seqNo))
        && (forall k :: k in t.timetable <==> k in s.timetable && (m.seqNo > s.cumSeq ==> k >= m.seqNo)))
  {
  }
}
