/**
 Server and client over a network that loses, duplicates and reorders. What one side relies on is known
 only to both together: an acknowledgement that moves the server on names a packet it still holds.
 */
module CacheProtocol {
  import opened Bytes
  import opened Cache

  /** `app` is what the application has handed to the server; the sets hold everything ever sent. */
  datatype State = State(app: seq<Data>, server: Server, client: Client, messages: set<Message>, replies: set<Reply>)

  function Initial(): State {
    State([], InitialServer(), InitialClient(), {}, {})
  }

  datatype Event =
    | AppSends(data: Data)
    | ServerReceives(message: Message, now: int)
    | ClientReceives(reply: Reply, stamp: nat, delta: int)
    | ClientTimeout
    | ClientDelivers(expired: seq<nat>)

  predicate Enabled(st: State, e: Event) {
    match e
    case AppSends(_) => true
    case ServerReceives(m, _) => m in st.messages
    case ClientReceives(r, _, _) => r in st.replies && !st.client.exited
    case ClientTimeout => !st.client.exited
    case ClientDelivers(_) => !st.client.exited
  }

  function Next(st: State, e: Event): State
    requires Enabled(st, e)
  {
    match e
    case AppSends(data) => st.(app := st.app + [data], server := Cached(st.server, data))
    case ServerReceives(m, now) =>
      var (s, out) := ServerGets(st.server, m, now);
      st.(server := s, replies := st.replies + out)
    case ClientReceives(r, stamp, delta) =>
      var (c, out) := ClientGets(st.client, r, stamp, delta);
      st.(client := c, messages := st.messages + out)
    case ClientTimeout => st.(messages := st.messages + Demands(st.client))
    case ClientDelivers(expired) => st.(client := Delivers(st.client, expired))
  }

  ghost predicate IsRun(run: seq<State>, events: seq<Event>) {
    && |run| == |events| + 1 && run[0] == Initial()
    && forall i :: 0 <= i < |events| ==> Enabled(run[i], events[i]) && run[i + 1] == Next(run[i], events[i])
  }

  // ---- what every step keeps ----

  ghost predicate ServerInv(app: seq<Data>, s: Server) {
    && s.cacheSeq == |app| + 1 && s.cumSeq < s.cacheSeq
    && (forall k :: k in s.window <==> 0 < k < s.cacheSeq && s.cumSeq <= k)
    && (forall k :: k in s.window ==> s.window[k] == app[k - 1])
    && (forall k :: k in s.timetable ==> k in s.window)
  }

  /** A packet that was sent carries the application's data, and while it is not acknowledged its time is known. */
  predicate Genuine(app: seq<Data>, s: Server, r: Reply) {
    r.Packet? ==> 0 < r.seqNo <= |app| && r.data == app[r.seqNo - 1] && (s.cumSeq <= r.seqNo ==> r.seqNo in s.timetable)
  }

  ghost predicate WasSent(replies: set<Reply>, seqNo: nat) {
    exists r :: r in replies && r.Packet? && r.seqNo == seqNo
  }

  ghost predicate ClientInv(app: seq<Data>, c: Client, replies: set<Reply>) {
    && (forall k :: k in c.window ==> Packet(k, c.window[k]) in replies)
    && (c.cumSeq == 0 ==> c.delta == NO_DELTA)
    && (forall x :: x in c.delivered ==> x in app)
  }

  ghost predicate Inv(st: State) {
    && ServerInv(st.app, st.server)
    && (forall r :: r in st.replies ==> Genuine(st.app, st.server, r))
    && ClientInv(st.app, st.client, st.replies)
    && (forall m :: m in st.messages && !m.isNack ==> WasSent(st.replies, m.seqNo))
  }

  lemma AppKeeps(st: State, data: Data)
    requires Inv(st)
    ensures Inv(Next(st, AppSends(data)))
  {
  }

  lemma ServerKeeps(st: State, m: Message, now: int)
    requires Inv(st) && m in st.messages
    ensures Inv(Next(st, ServerReceives(m, now)))
  {
    if !m.isNack && st.server.cumSeq < m.seqNo { AckIsHeld(st, m); }
  }

  /** An acknowledgement that passes the server's test names a packet in both of its maps. */
  lemma AckIsHeld(st: State, m: Message)
    requires Inv(st) && m in st.messages && !m.isNack && st.server.cumSeq < m.seqNo
    ensures m.seqNo in st.server.window && m.seqNo in st.server.timetable
  {
    var r :| r in st.replies && r.Packet? && r.seqNo == m.seqNo;
    assert Genuine(st.app, st.server, r);
  }

  lemma ClientKeeps(st: State, r: Reply, stamp: nat, delta: int)
    requires Inv(st) && Enabled(st, ClientReceives(r, stamp, delta))
    ensures Inv(Next(st, ClientReceives(r, stamp, delta)))
  {
    var (c, out) := ClientGets(st.client, r, stamp, delta);
    forall m | m in out ensures !m.isNack && WasSent(st.replies, m.seqNo) {
      if m.seqNo == r.seqNo {
        assert r in st.replies;
      } else {
        assert Packet(m.seqNo, st.client.window[m.seqNo]) in st.replies;
      }
    }
  }

  lemma {:induction false} InOrderFrom(window: map<nat, Data>, i: nat, top: nat, x: Data)
    requires x in InOrder(window, i, top)
    ensures exists k :: k in window && window[k] == x
    decreases top + 1 - i
  {
    if x in InOrder(window, i + 1, top) { InOrderFrom(window, i + 1, top, x); }
  }

  lemma DeliveryKeeps(st: State, expired: seq<nat>)
    requires Inv(st) && Enabled(st, ClientDelivers(expired))
    ensures Inv(Next(st, ClientDelivers(expired)))
  {
    var c := st.client;
    var top := TopExpired(c.timetable, expired);
    forall x | x in InOrder(c.window, 0, top) ensures x in st.app {
      InOrderFrom(c.window, 0, top, x);
      var k :| k in c.window && c.window[k] == x;
      assert Genuine(st.app, st.server, Packet(k, c.window[k]));
    }
  }

  lemma NextKeeps(st: State, e: Event)
    requires Inv(st) && Enabled(st, e)
    ensures Inv(Next(st, e))
  {
    hide ServerInv, Genuine, WasSent, ClientInv, ClientGets, ServerGets, Delivers;
    match e {
      case AppSends(data) => AppKeeps(st, data);
      case ServerReceives(m, now) => ServerKeeps(st, m, now);
      case ClientReceives(r, stamp, delta) => ClientKeeps(st, r, stamp, delta);
      case ClientTimeout =>
      case ClientDelivers(expired) => DeliveryKeeps(st, expired);
    }
  }

  lemma {:induction false} RunKeeps(run: seq<State>, events: seq<Event>, i: nat)
    requires IsRun(run, events) && i < |run|
    ensures Inv(run[i])
  {
    if i == 0 {
    } else {
      hide Inv, Next;
      RunKeeps(run, events, i - 1);
      NextKeeps(run[i - 1], events[i - 1]);
    }
  }

  /**
   In every state of every run the server's cache holds exactly the numbers from max(1, cum_seq) up to
   cache_seq - 1, each with the application's data; and an acknowledgement that is going to prune the maps
   names a number in both of them, so that neither is emptied.
   */
  lemma CacheIsExact(run: seq<State>, events: seq<Event>, i: nat)
    requires IsRun(run, events) && i < |run|
    ensures var s := run[i].server;
      && (forall k :: k in s.window <==> 0 < k < s.cacheSeq && s.cumSeq <= k)
      && (forall k :: k in s.window ==> k <= |run[i].app| && s.window[k] == run[i].app[k - 1])
      && (forall k :: k in s.timetable ==> k in s.window)
    ensures i < |events| && events[i].ServerReceives? ==>
      var m := events[i].message;
      !m.isNack && run[i].server.cumSeq < m.seqNo ==> m.seqNo in run[i].server.window && m.seqNo in run[i].server.timetable
  {
    RunKeeps(run, events, i);
    if i < |events| && events[i].ServerReceives? {
      var m := events[i].message;
      if !m.isNack && run[i].server.cumSeq < m.seqNo { AckIsHeld(run[i], m); }
    }
  }

  /** What the client hands to its application is what the server's application sent. */
  lemma DeliveredIsGenuine(run: seq<State>, events: seq<Event>, i: nat)
    requires IsRun(run, events) && i < |run|
    ensures forall x :: x in run[i].client.delivered ==> x in run[i].app
    ensures forall k :: k in run[i].client.window ==> 0 < k <= |run[i].app| && run[i].client.window[k] == run[i].app[k - 1]
  {
    RunKeeps(run, events, i);
    forall k | k in run[i].client.window
      ensures 0 < k <= |run[i].app| && run[i].client.window[k] == run[i].app[k - 1]
    {
      assert Genuine(run[i].app, run[i].server, Packet(k, run[i].client.window[k]));
    }
  }
}
