/**
 The control connection of a test: two processes joined by two byte pipes that carry one-byte states and
 length-prefixed JSON frames. Every byte carries a tag that says what it was sent as; neither process looks
 at the tags.
 */
module ControlProtocol {
  import opened Bytes

  const TEST_START: byte := 1
  const TEST_RUNNING: byte := 2
  const TEST_END: byte := 4
  const PARAM_EXCHANGE: byte := 9
  const CREATE_STREAMS: byte := 10
  const CLIENT_TERMINATE: byte := 12
  const EXCHANGE_RESULTS: byte := 13
  const DISPLAY_RESULTS: byte := 14
  const IPERF_START: byte := 15
  const IPERF_DONE: byte := 16

  const COOKIE_SIZE: nat := 37
  const UINT32: nat := 0x1_0000_0000

  datatype Kind = CookieByte | StateByte | FrameByte
  datatype Octet = Octet(value: byte, kind: Kind)

  function Tagged(s: seq<byte>, kind: Kind): (r: seq<Octet>)
    ensures |r| == |s| && forall i :: 0 <= i < |s| ==> r[i] == Octet(s[i], kind)
  {
    if s == [] then [] else [Octet(s[0], kind)] + Tagged(s[1..], kind)
  }

  function Values(s: seq<Octet>): (r: seq<byte>)
    ensures |r| == |s| && forall i :: 0 <= i < |s| ==> r[i] == s[i].value
  {
    if s == [] then [] else [s[0].value] + Values(s[1..])
  }

  function States(s: seq<byte>): seq<Octet> { Tagged(s, StateByte) }

  /** The length of a frame in network byte order. */
  function Header(n: nat): (h: seq<byte>)
    requires n < UINT32
    ensures |h| == 4
  {
    [n / 0x100_0000, n / 0x1_0000 % 0x100, n / 0x100 % 0x100, n % 0x100]
  }

  function HeaderValue(h: seq<byte>): nat
    requires |h| == 4
  {
    var a: int, b: int, c: int, d: int := h[0], h[1], h[2], h[3];
    a * 0x100_0000 + b * 0x1_0000 + c * 0x100 + d
  }

  lemma HeaderRoundTrip(n: nat)
    requires n < UINT32
    ensures HeaderValue(Header(n)) == n
  {
    var a, b := n / 0x100, n / 0x1_0000;
    assert a / 0x100 == b && b / 0x100 == n / 0x100_0000;
    assert n == 0x100 * a + n % 0x100 && a == 0x100 * b + a % 0x100 && b == 0x100 * (b / 0x100) + b % 0x100;
  }

  /** The order of the headers, byte by byte, is that of the lengths: the highest byte comes first. */
  lemma HeaderOrder(n: nat, m: nat)
    requires n < m < UINT32
    ensures Before(Header(n), Header(m))
  {
    var h, k := Header(n), Header(m);
    var i := if n / 0x100_0000 != m / 0x100_0000 then 0
      else if n / 0x1_0000 != m / 0x1_0000 then 1
      else if n / 0x100 != m / 0x100 then 2 else 3;
    HeaderParts(n);
    HeaderParts(m);
    assert PartAt(h, k, i);
  }

  lemma HeaderParts(n: nat)
    requires n < UINT32
    ensures var a: int, b: int, c: int, d: int := Header(n)[0], Header(n)[1], Header(n)[2], Header(n)[3];
      && n / 0x100_0000 == a && n / 0x1_0000 == a * 0x100 + b
      && n / 0x100 == (a * 0x100 + b) * 0x100 + c && n == n / 0x100 * 0x100 + d
  {
    assert n / 0x100 / 0x100 == n / 0x1_0000 && n / 0x1_0000 / 0x100 == n / 0x100_0000;
  }

  /** What JSON_write sends for a text. */
  function Frame(payload: seq<byte>): seq<Octet>
    requires |payload| < UINT32
  {
    Tagged(Header(|payload|), FrameByte) + Tagged(payload, FrameByte)
  }

  // ---- the processes ----

  /** Where a process waits: in its select loop or inside a blocking read; or it has ended, or failed. */
  datatype Pc =
    | Listening | ReadingCookie
    | ParamHeader | ParamBody(n: nat) | ResultHeader | ResultBody(n: nat)
    | Looping | Ended | Failed

  datatype Client = Client(pc: Pc, state: byte)

  datatype Server = Server(pc: Pc, state: byte, accepted: nat)

  /** What the two sides say; the texts of the frames are arbitrary. */
  datatype Session = Session(
    cookie: seq<byte>, params: seq<byte>, clientResults: seq<byte>, serverResults: seq<byte>, streams: nat)

  predicate WellFormed(s: Session) {
    && |s.cookie| == COOKIE_SIZE && s.streams > 0
    && |s.params| < UINT32 && |s.clientResults| < UINT32 && |s.serverResults| < UINT32
  }

  /** What a step of a process amounts to: its new state, what it writes and how many data connections it opens. */
  datatype Move<T> = Move(process: T, output: seq<Octet>, connects: nat)

  /** iperf_handle_message_client, up to the next blocking read. */
  function ClientMessage(s: Session, c: Client, b: byte): Move<Client>
    requires WellFormed(s)
  {
    if b == PARAM_EXCHANGE then Move(Client(Looping, b), Frame(s.params), 0)
    else if b == CREATE_STREAMS then Move(Client(Looping, b), [], s.streams)
    else if b == TEST_START || b == TEST_RUNNING then Move(Client(Looping, b), [], 0)
    else if b == EXCHANGE_RESULTS then Move(Client(ResultHeader, b), Frame(s.clientResults), 0)
    else if b == DISPLAY_RESULTS then Move(Client(Ended, IPERF_DONE), States([IPERF_DONE]), 0)
    else if b == IPERF_DONE then Move(Client(Ended, b), [], 0)
    else Move(Client(Failed, b), [], 0)
  }

  /** The end of the test, noticed in the loop while it runs. */
  function ClientTestEnd(c: Client): Move<Client> {
    Move(Client(Looping, TEST_END), States([TEST_END]), 0)
  }

  /** iperf_handle_message_server, up to the next blocking read. */
  function ServerMessage(v: Server, b: byte): Move<Server> {
    if b == TEST_START then Move(v.(state := b), [], 0)
    else if b == TEST_END then Move(v.(pc := ResultHeader, state := EXCHANGE_RESULTS), States([EXCHANGE_RESULTS]), 0)
    else if b == IPERF_DONE || b == CLIENT_TERMINATE then Move(v.(pc := Ended, state := IPERF_DONE), [], 0)
    else Move(v.(pc := Failed, state := b), [], 0)
  }

  /** iperf_accept behind the cookie. */
  function ServerCookie(v: Server): Move<Server> {
    Move(v.(pc := ParamHeader, state := PARAM_EXCHANGE), States([PARAM_EXCHANGE]), 0)
  }

  /** A data connection is accepted; the last one starts the test. */
  function ServerAccept(s: Session, v: Server): Move<Server> {
    var w := v.(accepted := v.accepted + 1);
    if w.accepted == s.streams then Move(w.(state := TEST_RUNNING), States([TEST_START, TEST_RUNNING]), 0)
    else Move(w, [], 0)
  }

  /** A frame has been read: the parameters, or the client's results, which are answered. */
  function ServerFrame(s: Session, v: Server): Move<Server>
    requires WellFormed(s)
  {
    if v.pc.ParamBody? then Move(v.(pc := Looping, state := CREATE_STREAMS), States([CREATE_STREAMS]), 0)
    else Move(v.(pc := Looping, state := DISPLAY_RESULTS), Frame(s.serverResults) + States([DISPLAY_RESULTS]), 0)
  }

  /** The state bytes each side knows, and those that end it; any other is a failure. */
  lemma MessagesAreKnown(s: Session, c: Client, v: Server, b: byte)
    requires WellFormed(s) && v.pc.Looping?
    ensures var pc := ServerMessage(v, b).process.pc;
      (pc.Failed? <==> b !in {1, 4, 12, 16}) && (pc.Ended? <==> b in {12, 16})
    ensures var pc := ClientMessage(s, c, b).process.pc;
      (pc.Failed? <==> b !in {1, 2, 9, 10, 13, 14, 16}) && (pc.Ended? <==> b in {14, 16})
  {
  }

  // ---- the two together ----

  /** Bytes that have arrived and bytes still on their way, in order. */
  datatype Pipe = Pipe(arrived: seq<Octet>, flying: seq<Octet>) {
    function All(): seq<Octet> { arrived + flying }

    function Sent(s: seq<Octet>): Pipe { Pipe(arrived, flying + s) }

    function Read(n: nat): Pipe
      requires n <= |arrived|
    {
      Pipe(arrived[n..], flying)
    }
  }

  datatype Joint = Joint(client: Client, server: Server, toServer: Pipe, toClient: Pipe, pending: nat)

  /** The client has connected and sent its cookie. */
  function Initial(s: Session): Joint {
    Joint(Client(Looping, IPERF_START), Server(Listening, IPERF_START, 0),
      Pipe([], Tagged(s.cookie, CookieByte)), Pipe([], []), 0)
  }

  datatype Event =
    | ArriveAtServer | ArriveAtClient
    | ServerConnected | ServerReadsCookie | ServerReadsHeader | ServerReadsBody | ServerReadsState | ServerAccepts
    | ClientReadsState | ClientEndsTest | ClientReadsHeader | ClientReadsBody

  predicate AtHeader(pc: Pc) { pc.ParamHeader? || pc.ResultHeader? }

  predicate AtBody(pc: Pc) { pc.ParamBody? || pc.ResultBody? }

  predicate Enabled(st: Joint, e: Event) {
    match e
    case ArriveAtServer => st.toServer.flying != []
    case ArriveAtClient => st.toClient.flying != []
    case ServerConnected => st.server.pc.Listening?
    case ServerReadsCookie => st.server.pc.ReadingCookie? && |st.toServer.arrived| >= COOKIE_SIZE
    case ServerReadsHeader => AtHeader(st.server.pc) && |st.toServer.arrived| >= 4
    case ServerReadsBody => AtBody(st.server.pc) && |st.toServer.arrived| >= st.server.pc.n
    case ServerReadsState => st.server.pc.Looping? && st.toServer.arrived != []
    case ServerAccepts => st.server.pc.Looping? && st.server.state == CREATE_STREAMS && st.pending > 0
    case ClientReadsState => st.client.pc.Looping? && st.toClient.arrived != []
    case ClientEndsTest => st.client.pc.Looping? && st.client.state == TEST_RUNNING
    case ClientReadsHeader => AtHeader(st.client.pc) && |st.toClient.arrived| >= 4
    case ClientReadsBody => AtBody(st.client.pc) && |st.toClient.arrived| >= st.client.pc.n
  }

  function Behind(pc: Pc, n: nat): Pc {
    if pc.ParamHeader? then ParamBody(n) else ResultBody(n)
  }

  function ServerMoves(st: Joint, m: Move<Server>, n: nat): Joint
    requires n <= |st.toServer.arrived|
  {
    st.(server := m.process, toServer := st.toServer.Read(n), toClient := st.toClient.Sent(m.output))
  }

  function ClientMoves(st: Joint, m: Move<Client>, n: nat): Joint
    requires n <= |st.toClient.arrived|
  {
    st.(client := m.process, toClient := st.toClient.Read(n), toServer := st.toServer.Sent(m.output),
      pending := st.pending + m.connects)
  }

  function Next(s: Session, st: Joint, e: Event): Joint
    requires WellFormed(s) && Enabled(st, e)
  {
    match e
    case ArriveAtServer =>
      st.(toServer := Pipe(st.toServer.arrived + [st.toServer.flying[0]], st.toServer.flying[1..]))
    case ArriveAtClient =>
      st.(toClient := Pipe(st.toClient.arrived + [st.toClient.flying[0]], st.toClient.flying[1..]))
    case ServerConnected => st.(server := st.server.(pc := ReadingCookie))
    case ServerReadsCookie => ServerMoves(st, ServerCookie(st.server), COOKIE_SIZE)
    case ServerReadsHeader =>
      var n := HeaderValue(Values(st.toServer.arrived[..4]));
      ServerMoves(st, Move(st.server.(pc := Behind(st.server.pc, n)), [], 0), 4)
    case ServerReadsBody => ServerMoves(st, ServerFrame(s, st.server), st.server.pc.n)
    case ServerReadsState => ServerMoves(st, ServerMessage(st.server, st.toServer.arrived[0].value), 1)
    case ServerAccepts =>
      var t := ServerMoves(st, ServerAccept(s, st.server), 0);
      t.(pending := st.pending - 1)
    case ClientReadsState => ClientMoves(st, ClientMessage(s, st.client, st.toClient.arrived[0].value), 1)
    case ClientEndsTest => ClientMoves(st, ClientTestEnd(st.client), 0)
    case ClientReadsHeader =>
      var n := HeaderValue(Values(st.toClient.arrived[..4]));
      ClientMoves(st, Move(st.client.(pc := Behind(st.client.pc, n)), [], 0), 4)
    case ClientReadsBody => ClientMoves(st, Move(st.client.(pc := Looping), [], 0), st.client.pc.n)
  }

  ghost predicate IsRun(s: Session, run: seq<Joint>, events: seq<Event>)
    requires WellFormed(s)
  {
    && |run| == |events| + 1 && run[0] == Initial(s)
    && forall i :: 0 <= i < |events| ==> Enabled(run[i], events[i]) && run[i + 1] == Next(s, run[i], events[i])
  }

  // ---- the phases of a session ----

  const LAST_PHASE: nat := 18

  function ClientAt(s: Session, phase: nat): Client {
    if phase <= 2 then Client(Looping, IPERF_START)
    else if phase <= 5 then Client(Looping, PARAM_EXCHANGE)
    else if phase <= 7 then Client(Looping, CREATE_STREAMS)
    else if phase == 8 then Client(Looping, TEST_START)
    else if phase == 9 then Client(Looping, TEST_RUNNING)
    else if phase <= 11 then Client(Looping, TEST_END)
    else if phase <= 14 then Client(ResultHeader, EXCHANGE_RESULTS)
    else if phase == 15 then Client(ResultBody(|s.serverResults|), EXCHANGE_RESULTS)
    else if phase == 16 then Client(Looping, EXCHANGE_RESULTS)
    else Client(Ended, IPERF_DONE)
  }

  function ServerAt(s: Session, phase: nat, accepted: nat): Server {
    if phase == 0 then Server(Listening, IPERF_START, accepted)
    else if phase == 1 then Server(ReadingCookie, IPERF_START, accepted)
    else if phase <= 3 then Server(ParamHeader, PARAM_EXCHANGE, accepted)
    else if phase == 4 then Server(ParamBody(|s.params|), PARAM_EXCHANGE, accepted)
    else if phase <= 6 then Server(Looping, CREATE_STREAMS, accepted)
    else if phase <= 10 then Server(Looping, TEST_RUNNING, accepted)
    else if phase <= 12 then Server(ResultHeader, EXCHANGE_RESULTS, accepted)
    else if phase == 13 then Server(ResultBody(|s.clientResults|), EXCHANGE_RESULTS, accepted)
    else if phase <= 17 then Server(Looping, DISPLAY_RESULTS, accepted)
    else Server(Ended, IPERF_DONE, accepted)
  }

  /** All that is on its way to the server. */
  function ToServerAt(s: Session, phase: nat): seq<Octet>
    requires WellFormed(s)
  {
    if phase <= 1 then Tagged(s.cookie, CookieByte)
    else if phase == 3 then Frame(s.params)
    else if phase == 4 then Tagged(s.params, FrameByte)
    else if phase == 10 then States([TEST_END])
    else if phase == 12 then Frame(s.clientResults)
    else if phase == 13 then Tagged(s.clientResults, FrameByte)
    else if phase == 17 then States([IPERF_DONE])
    else []
  }

  function ToClientAt(s: Session, phase: nat): seq<Octet>
    requires WellFormed(s)
  {
    if phase == 2 then States([PARAM_EXCHANGE])
    else if phase == 5 then States([CREATE_STREAMS])
    else if phase == 7 then States([TEST_START, TEST_RUNNING])
    else if phase == 8 then States([TEST_RUNNING])
    else if phase == 11 then States([EXCHANGE_RESULTS])
    else if phase == 14 then Frame(s.serverResults) + States([DISPLAY_RESULTS])
    else if phase == 15 then Tagged(s.serverResults, FrameByte) + States([DISPLAY_RESULTS])
    else if phase == 16 then States([DISPLAY_RESULTS])
    else []
  }

  predicate StreamsAt(s: Session, st: Joint, phase: nat) {
    if phase < 6 then st.pending == 0 && st.server.accepted == 0
    else if phase == 6 then st.pending > 0 && st.pending + st.server.accepted == s.streams
    else st.pending == 0 && st.server.accepted == s.streams
  }

  predicate InPhase(s: Session, st: Joint, phase: nat)
    requires WellFormed(s)
  {
    && phase <= LAST_PHASE
    && st.client == ClientAt(s, phase)
    && st.server == ServerAt(s, phase, st.server.accepted)
    && st.toServer.All() == ToServerAt(s, phase)
    && st.toClient.All() == ToClientAt(s, phase)
    && StreamsAt(s, st, phase)
  }

  /** Whether an event takes the session to the next phase: arrivals do not, nor connections but the last. */
  predicate Advances(st: Joint, e: Event) {
    !e.ArriveAtServer? && !e.ArriveAtClient? && (e.ServerAccepts? ==> st.pending == 1)
  }

  lemma PipeRead(p: Pipe, a: seq<Octet>, b: seq<Octet>)
    requires p.All() == a + b && |a| <= |p.arrived|
    ensures p.arrived[..|a|] == a && p.Read(|a|).All() == b
  {
    assert p.All()[..|a|] == a && p.All()[|a|..] == b;
    assert p.arrived[..|a|] == p.All()[..|a|];
    assert p.Read(|a|).All() == p.All()[|a|..];
  }

  lemma PipeSent(p: Pipe, s: seq<Octet>)
    ensures p.Sent(s).All() == p.All() + s
  {
  }

  lemma PipeArrives(p: Pipe)
    requires p.flying != []
    ensures Pipe(p.arrived + [p.flying[0]], p.flying[1..]).All() == p.All()
  {
  }

  lemma Associative(a: seq<Octet>, b: seq<Octet>, c: seq<Octet>)
    ensures (a + b) + c == a + (b + c)
  {
  }

  lemma {:induction false} Untagged(s: seq<byte>, kind: Kind)
    ensures Values(Tagged(s, kind)) == s
  {
    hide Tagged, Values;
  }

  /** A header that has arrived gives the length of the text behind it. */
  lemma {:induction false} HeaderArrives(p: Pipe, payload: seq<byte>, rest: seq<Octet>)
    requires |payload| < UINT32 && p.All() == Frame(payload) + rest && |p.arrived| >= 4
    ensures HeaderValue(Values(p.arrived[..4])) == |payload|
    ensures p.Read(4).All() == Tagged(payload, FrameByte) + rest
  {
    hide Header, HeaderValue, Tagged, Values;
    var h, body := Tagged(Header(|payload|), FrameByte), Tagged(payload, FrameByte);
    Associative(h, body, rest);
    PipeRead(p, h, body + rest);
    Untagged(Header(|payload|), FrameByte);
    HeaderRoundTrip(|payload|);
  }

  lemma PipeReadAll(p: Pipe, a: seq<Octet>)
    requires p.All() == a && |a| <= |p.arrived|
    ensures p.Read(|a|).All() == []
  {
    assert a + [] == a;
    PipeRead(p, a, []);
  }

  /** A state byte at the head of a pipe. */
  lemma StateArrives(p: Pipe, b: byte, rest: seq<Octet>)
    requires p.All() == States([b]) + rest && p.arrived != []
    ensures p.arrived[0] == Octet(b, StateByte) && p.Read(1).All() == rest
  {
    PipeRead(p, States([b]), rest);
    assert p.arrived[0] == p.arrived[..1][0];
  }

  // ---- every event keeps the session in its phase or takes it to the next ----

  lemma ArrivalKeeps(s: Session, st: Joint, phase: nat, e: Event)
    requires WellFormed(s) && InPhase(s, st, phase) && Enabled(st, e)
    requires e.ArriveAtServer? || e.ArriveAtClient?
    ensures InPhase(s, Next(s, st, e), phase)
  {
    hide ClientAt, ServerAt, ToServerAt, ToClientAt;
    if e.ArriveAtServer? { PipeArrives(st.toServer); } else { PipeArrives(st.toClient); }
  }

  lemma ConnectedKeeps(s: Session, st: Joint, phase: nat)
    requires WellFormed(s) && InPhase(s, st, phase) && Enabled(st, ServerConnected)
    ensures InPhase(s, Next(s, st, ServerConnected), phase + 1)
  {
    hide Tagged, Frame;
  }

  lemma CookieKeeps(s: Session, st: Joint, phase: nat)
    requires WellFormed(s) && InPhase(s, st, phase) && Enabled(st, ServerReadsCookie)
    ensures InPhase(s, Next(s, st, ServerReadsCookie), phase + 1)
  {
    hide Tagged, Frame;
    assert phase == 1;
    PipeReadAll(st.toServer, Tagged(s.cookie, CookieByte));
    PipeSent(st.toClient, States([PARAM_EXCHANGE]));
  }

  lemma ServerHeaderKeeps(s: Session, st: Joint, phase: nat)
    requires WellFormed(s) && InPhase(s, st, phase) && Enabled(st, ServerReadsHeader)
    ensures InPhase(s, Next(s, st, ServerReadsHeader), phase + 1)
  {
    hide Tagged, Frame, Values, HeaderValue;
    var text := if phase == 3 then s.params else s.clientResults;
    assert st.toServer.All() != [];
    assert phase in {3, 12};
    assert Frame(text) + [] == Frame(text);
    HeaderArrives(st.toServer, text, []);
    assert Tagged(text, FrameByte) + [] == Tagged(text, FrameByte);
    PipeSent(st.toClient, []);
  }

  lemma ServerSays(s: Session, v: Server, phase: nat)
    requires WellFormed(s) && phase in {4, 13} && v == ServerAt(s, phase, v.accepted)
    ensures var m := ServerFrame(s, v);
      && m.process == ServerAt(s, phase + 1, v.accepted)
      && ToClientAt(s, phase) + m.output == ToClientAt(s, phase + 1)
  {
    hide Frame, Tagged;
    assert [] + ServerFrame(s, v).output == ServerFrame(s, v).output;
  }

  lemma ServerBodyKeeps(s: Session, st: Joint, phase: nat)
    requires WellFormed(s) && InPhase(s, st, phase) && Enabled(st, ServerReadsBody)
    ensures InPhase(s, Next(s, st, ServerReadsBody), phase + 1)
  {
    hide Tagged, Frame;
    assert phase in {4, 13};
    ServerSays(s, st.server, phase);
    hide HeaderValue, Values, ServerFrame, ToClientAt;
    PipeReadAll(st.toServer, Tagged(if phase == 4 then s.params else s.clientResults, FrameByte));
    PipeSent(st.toClient, ServerFrame(s, st.server).output);
  }

  lemma ServerStateKeeps(s: Session, st: Joint, phase: nat)
    requires WellFormed(s) && InPhase(s, st, phase) && Enabled(st, ServerReadsState)
    ensures InPhase(s, Next(s, st, ServerReadsState), phase + 1)
    ensures st.toServer.arrived[0].kind == StateByte
  {
    hide Tagged, Frame;
    assert st.toServer.All() != [];
    assert phase in {10, 17};
    var b := if phase == 10 then TEST_END else IPERF_DONE;
    assert States([b]) + [] == States([b]);
    StateArrives(st.toServer, b, []);
    PipeSent(st.toClient, ServerMessage(st.server, b).output);
  }

  lemma AcceptKeeps(s: Session, st: Joint, phase: nat)
    requires WellFormed(s) && InPhase(s, st, phase) && Enabled(st, ServerAccepts)
    ensures InPhase(s, Next(s, st, ServerAccepts), if st.pending == 1 then phase + 1 else phase)
  {
    hide Tagged, Frame;
    assert phase == 6;
    PipeSent(st.toClient, ServerAccept(s, st.server).output);
  }

  /** The state byte at the head of the pipe to the client. */
  function Announced(phase: nat): byte {
    if phase == 2 then PARAM_EXCHANGE else if phase == 5 then CREATE_STREAMS else if phase == 7 then TEST_START
    else if phase == 8 then TEST_RUNNING else if phase == 11 then EXCHANGE_RESULTS else DISPLAY_RESULTS
  }

  lemma ClientHears(s: Session, st: Joint, phase: nat)
    requires WellFormed(s) && InPhase(s, st, phase) && Enabled(st, ClientReadsState)
    ensures phase in {2, 5, 7, 8, 11, 16}
    ensures st.toClient.arrived[0] == Octet(Announced(phase), StateByte)
    ensures st.toClient.Read(1).All() == ToClientAt(s, phase + 1)
  {
    hide Frame;
    assert st.toClient.All() != [];
    var rest := if phase == 7 then States([TEST_RUNNING]) else [];
    assert States([Announced(phase)]) + rest == ToClientAt(s, phase);
    StateArrives(st.toClient, Announced(phase), rest);
  }

  /** What the client answers to a state is what the next phase has on its way to the server. */
  lemma ClientSays(s: Session, phase: nat)
    requires WellFormed(s) && phase in {2, 5, 7, 8, 11, 16}
    ensures var m := ClientMessage(s, ClientAt(s, phase), Announced(phase));
      && m.process == ClientAt(s, phase + 1)
      && ToServerAt(s, phase) + m.output == ToServerAt(s, phase + 1)
      && m.connects == if phase == 5 then s.streams else 0
  {
    hide Frame, Tagged;
    assert ToServerAt(s, phase) == [];
    var m := ClientMessage(s, ClientAt(s, phase), Announced(phase));
    assert [] + m.output == m.output;
  }

  lemma ClientStateKeeps(s: Session, st: Joint, phase: nat)
    requires WellFormed(s) && InPhase(s, st, phase) && Enabled(st, ClientReadsState)
    ensures InPhase(s, Next(s, st, ClientReadsState), phase + 1)
  {
    hide Frame, Tagged, ToClientAt, ToServerAt, ClientAt, ClientMessage, Values, HeaderValue, Announced;
    ClientHears(s, st, phase);
    ClientSays(s, phase);
    var m := ClientMessage(s, st.client, Announced(phase));
    ClientReads(s, st, Announced(phase));
    ClientMoveKeeps(s, st, phase, m);
  }

  lemma ClientReads(s: Session, st: Joint, state: byte)
    requires WellFormed(s) && Enabled(st, ClientReadsState) && st.toClient.arrived[0] == Octet(state, StateByte)
    ensures Next(s, st, ClientReadsState) == ClientMoves(st, ClientMessage(s, st.client, state), 1)
  {
    hide ClientMessage, ClientMoves;
  }

  /** A move of the client to the next phase. */
  lemma ClientMoveKeeps(s: Session, st: Joint, phase: nat, m: Move<Client>)
    requires WellFormed(s) && InPhase(s, st, phase) && phase in {2, 5, 7, 8, 11, 16}
    requires st.toClient.arrived != [] && st.toClient.Read(1).All() == ToClientAt(s, phase + 1)
    requires m.process == ClientAt(s, phase + 1) && ToServerAt(s, phase) + m.output == ToServerAt(s, phase + 1)
    requires m.connects == if phase == 5 then s.streams else 0
    ensures InPhase(s, ClientMoves(st, m, 1), phase + 1)
  {
    hide ToClientAt, ToServerAt, ClientAt;
    PipeSent(st.toServer, m.output);
  }

  lemma TestEndKeeps(s: Session, st: Joint, phase: nat)
    requires WellFormed(s) && InPhase(s, st, phase) && Enabled(st, ClientEndsTest)
    ensures InPhase(s, Next(s, st, ClientEndsTest), phase + 1)
  {
    hide Tagged, Frame;
    assert phase == 9;
    PipeSent(st.toServer, States([TEST_END]));
  }

  lemma ClientHeaderKeeps(s: Session, st: Joint, phase: nat)
    requires WellFormed(s) && InPhase(s, st, phase) && Enabled(st, ClientReadsHeader)
    ensures InPhase(s, Next(s, st, ClientReadsHeader), phase + 1)
  {
    hide Tagged, Frame, Values, HeaderValue;
    assert st.toClient.All() != [];
    assert phase == 14;
    HeaderArrives(st.toClient, s.serverResults, States([DISPLAY_RESULTS]));
    PipeSent(st.toServer, []);
  }

  lemma ClientBodyKeeps(s: Session, st: Joint, phase: nat)
    requires WellFormed(s) && InPhase(s, st, phase) && Enabled(st, ClientReadsBody)
    ensures InPhase(s, Next(s, st, ClientReadsBody), phase + 1)
  {
    hide Tagged, Frame;
    assert phase == 15;
    PipeRead(st.toClient, Tagged(s.serverResults, FrameByte), States([DISPLAY_RESULTS]));
    PipeSent(st.toServer, []);
  }

  /** Any event: the phase stays or grows by one. */
  lemma NextKeeps(s: Session, st: Joint, phase: nat, e: Event)
    requires WellFormed(s) && InPhase(s, st, phase) && Enabled(st, e)
    ensures InPhase(s, Next(s, st, e), if Advances(st, e) then phase + 1 else phase)
    ensures e.ServerReadsState? ==> st.toServer.arrived[0].kind == StateByte
    ensures e.ClientReadsState? ==> st.toClient.arrived[0].kind == StateByte
  {
    hide InPhase, Next;
    match e {
      case ArriveAtServer => ArrivalKeeps(s, st, phase, e);
      case ArriveAtClient => ArrivalKeeps(s, st, phase, e);
      case ServerConnected => ConnectedKeeps(s, st, phase);
      case ServerReadsCookie => CookieKeeps(s, st, phase);
      case ServerReadsHeader => ServerHeaderKeeps(s, st, phase);
      case ServerReadsBody => ServerBodyKeeps(s, st, phase);
      case ServerReadsState => ServerStateKeeps(s, st, phase);
      case ServerAccepts => AcceptKeeps(s, st, phase);
      case ClientReadsState =>
        ClientHears(s, st, phase);
        ClientStateKeeps(s, st, phase);
      case ClientEndsTest => TestEndKeeps(s, st, phase);
      case ClientReadsHeader => ClientHeaderKeeps(s, st, phase);
      case ClientReadsBody => ClientBodyKeeps(s, st, phase);
    }
  }

  // ---- whole runs ----

  lemma {:induction false} RunPhase(s: Session, run: seq<Joint>, events: seq<Event>, i: nat) returns (phase: nat)
    requires WellFormed(s) && IsRun(s, run, events) && i < |run|
    ensures InPhase(s, run[i], phase)
    decreases i
  {
    if i == 0 {
      assert [] + Tagged(s.cookie, CookieByte) == Tagged(s.cookie, CookieByte);
      phase := 0;
    } else {
      hide InPhase, Next;
      phase := RunPhase(s, run, events, i - 1);
      NextKeeps(s, run[i - 1], phase, events[i - 1]);
      if Advances(run[i - 1], events[i - 1]) { phase := phase + 1; }
    }
  }

  /**
   On every run neither side reaches the branch for an unknown message, and every byte that is read as a
   state was sent as one: no byte of a frame or of the cookie is ever taken for a state.
   */
  lemma StatesAreStates(s: Session, run: seq<Joint>, events: seq<Event>, i: nat)
    requires WellFormed(s) && IsRun(s, run, events) && i < |run|
    ensures !run[i].client.pc.Failed? && !run[i].server.pc.Failed?
    ensures i < |events| && events[i].ServerReadsState? ==> run[i].toServer.arrived[0].kind == StateByte
    ensures i < |events| && events[i].ClientReadsState? ==> run[i].toClient.arrived[0].kind == StateByte
  {
    hide Next, ToServerAt, ToClientAt;
    var phase := RunPhase(s, run, events, i);
    if i < |events| { NextKeeps(s, run[i], phase, events[i]); }
  }

  /** Where a state stands in the order of the protocol. */
  function Rank(state: byte): nat {
    if state == IPERF_START then 0
    else if state == PARAM_EXCHANGE then 1
    else if state == CREATE_STREAMS then 2
    else if state == TEST_START then 3
    else if state == TEST_RUNNING then 4
    else if state == TEST_END then 5
    else if state == EXCHANGE_RESULTS then 6
    else if state == DISPLAY_RESULTS then 7
    else 8
  }

  /** Both sides go through the states in protocol order, and never drift apart by more than two of them. */
  lemma StatesAdvance(s: Session, run: seq<Joint>, events: seq<Event>, i: nat)
    requires WellFormed(s) && IsRun(s, run, events) && i < |events|
    ensures Rank(run[i].client.state) <= Rank(run[i + 1].client.state)
    ensures Rank(run[i].server.state) <= Rank(run[i + 1].server.state)
    ensures Rank(run[i].server.state) <= Rank(run[i].client.state) + 2
    ensures Rank(run[i].client.state) <= Rank(run[i].server.state) + 1
  {
    hide Next, ToServerAt, ToClientAt;
    var phase := RunPhase(s, run, events, i);
    NextKeeps(s, run[i], phase, events[i]);
  }

  /** Some event is possible until both sides are done. */
  lemma NoDeadlock(s: Session, st: Joint, phase: nat) returns (e: Event)
    requires WellFormed(s) && InPhase(s, st, phase) && phase < LAST_PHASE
    ensures Enabled(st, e)
  {
    hide Tagged;
    if st.toServer.flying != [] {
      e := ArriveAtServer;
    } else if st.toClient.flying != [] {
      e := ArriveAtClient;
    } else {
      assert st.toServer.arrived == ToServerAt(s, phase) && st.toClient.arrived == ToClientAt(s, phase);
      e := if phase == 0 then ServerConnected else if phase == 1 then ServerReadsCookie
        else if phase in {3, 12} then ServerReadsHeader else if phase in {4, 13} then ServerReadsBody
        else if phase == 6 then ServerAccepts else if phase == 9 then ClientEndsTest
        else if phase in {10, 17} then ServerReadsState else if phase == 14 then ClientReadsHeader
        else if phase == 15 then ClientReadsBody else ClientReadsState;
    }
  }

  /** A run that cannot go on has both sides in IPERF_DONE and nothing left on the wire. */
  lemma FinishedRun(s: Session, run: seq<Joint>, events: seq<Event>)
    requires WellFormed(s) && IsRun(s, run, events)
    requires forall e :: !Enabled(run[|events|], e)
    ensures var st := run[|events|];
      && st.client == Client(Ended, IPERF_DONE) && st.server == Server(Ended, IPERF_DONE, s.streams)
      && st.toServer.All() == [] && st.toClient.All() == [] && st.pending == 0
  {
    hide Frame, Tagged;
    var phase := RunPhase(s, run, events, |events|);
    if phase < LAST_PHASE { var e := NoDeadlock(s, run[|events|], phase); }
  }

  // ---- what each side goes through and what it is told ----

  /** The states of a side over a run, each as long as it lasts. */
  function Visited(states: seq<byte>): seq<byte> {
    if states == [] then [] else Noted(Visited(states[..|states| - 1]), states[|states| - 1])
  }

  function Noted(before: seq<byte>, now: byte): seq<byte> {
    if before != [] && before[|before| - 1] == now then before else before + [now]
  }

  function ClientStates(run: seq<Joint>): seq<byte> {
    seq(|run|, i requires 0 <= i < |run| => run[i].client.state)
  }

  function ServerStates(run: seq<Joint>): seq<byte> {
    seq(|run|, i requires 0 <= i < |run| => run[i].server.state)
  }

  /** The protocol as each side lives through it. */
  const CLIENT_COURSE: seq<byte> := [15, 9, 10, 1, 2, 4, 13, 16]
  const SERVER_COURSE: seq<byte> := [15, 9, 10, 2, 13, 14, 16]

  /** How far a side has come in a phase. */
  function ClientStage(phase: nat): (n: nat)
    ensures n < 8
  {
    if phase <= 2 then 0 else if phase <= 5 then 1 else if phase <= 7 then 2 else if phase == 8 then 3
    else if phase == 9 then 4 else if phase <= 11 then 5 else if phase <= 16 then 6 else 7
  }

  function ServerStage(phase: nat): (n: nat)
    ensures n < 7
  {
    if phase <= 1 then 0 else if phase <= 4 then 1 else if phase <= 6 then 2 else if phase <= 10 then 3
    else if phase <= 13 then 4 else if phase <= 17 then 5 else 6
  }

  lemma StageIsState(s: Session, st: Joint, phase: nat)
    requires WellFormed(s) && InPhase(s, st, phase)
    ensures st.client.state == CLIENT_COURSE[ClientStage(phase)] && st.server.state == SERVER_COURSE[ServerStage(phase)]
  {
    hide ToServerAt, ToClientAt;
  }

  lemma {:induction false} VisitedNext(states: seq<byte>, now: byte)
    ensures Visited(states + [now]) == Noted(Visited(states), now)
  {
    assert (states + [now])[..|states|] == states;
  }

  lemma StatesNext(before: seq<Joint>, now: Joint)
    ensures ClientStates(before + [now]) == ClientStates(before) + [now.client.state]
    ensures ServerStates(before + [now]) == ServerStates(before) + [now.server.state]
  {
  }

  lemma {:induction false} RunVisits(s: Session, run: seq<Joint>, events: seq<Event>, i: nat) returns (phase: nat)
    requires WellFormed(s) && IsRun(s, run, events) && i < |run|
    ensures InPhase(s, run[i], phase)
    ensures Visited(ClientStates(run[..i + 1])) == CLIENT_COURSE[..ClientStage(phase) + 1]
    ensures Visited(ServerStates(run[..i + 1])) == SERVER_COURSE[..ServerStage(phase) + 1]
    decreases i
  {
    hide InPhase, Next, Visited, ClientStates, ServerStates, ClientStage, ServerStage;
    if i == 0 {
      phase := RunPhase(s, run, events, 0);
      FirstVisited(s, run, phase);
    } else {
      phase := RunVisits(s, run, events, i - 1);
      NextKeeps(s, run[i - 1], phase, events[i - 1]);
      var later := if Advances(run[i - 1], events[i - 1]) then phase + 1 else phase;
      assert run[..i - 1 + 1] == run[..i];
      assert run[..i + 1] == run[..i] + [run[i]];
      NextVisits(s, run[..i], run[i], phase, later);
      phase := later;
    }
  }

  /** One more state of the run. */
  lemma NextVisits(s: Session, before: seq<Joint>, now: Joint, phase: nat, later: nat)
    requires WellFormed(s) && before != [] && InPhase(s, before[|before| - 1], phase)
    requires InPhase(s, now, later) && (later == phase || later == phase + 1)
    requires Visited(ClientStates(before)) == CLIENT_COURSE[..ClientStage(phase) + 1]
    requires Visited(ServerStates(before)) == SERVER_COURSE[..ServerStage(phase) + 1]
    ensures Visited(ClientStates(before + [now])) == CLIENT_COURSE[..ClientStage(later) + 1]
    ensures Visited(ServerStates(before + [now])) == SERVER_COURSE[..ServerStage(later) + 1]
  {
    hide InPhase, Visited, ClientStates, ServerStates, ClientStage, ServerStage;
    StageIsState(s, before[|before| - 1], phase);
    StageIsState(s, now, later);
    StageNext(phase, later);
    StatesNext(before, now);
    CourseNext(CLIENT_COURSE, ClientStates(before), ClientStage(phase), ClientStage(later));
    CourseNext(SERVER_COURSE, ServerStates(before), ServerStage(phase), ServerStage(later));
  }

  lemma FirstVisited(s: Session, run: seq<Joint>, phase: nat)
    requires WellFormed(s) && run != [] && run[0] == Initial(s) && InPhase(s, run[0], phase)
    ensures Visited(ClientStates(run[..1])) == CLIENT_COURSE[..ClientStage(phase) + 1]
    ensures Visited(ServerStates(run[..1])) == SERVER_COURSE[..ServerStage(phase) + 1]
  {
    hide ToServerAt, ToClientAt;
    StageIsState(s, run[0], phase);
    assert ClientStates(run[..1]) == [15] && ServerStates(run[..1]) == [15];
  }

  /** From one phase to the next a side stays where it is or goes on by one. */
  lemma StageNext(phase: nat, later: nat)
    requires later == phase || later == phase + 1
    ensures ClientStage(later) == ClientStage(phase) || ClientStage(later) == ClientStage(phase) + 1
    ensures ServerStage(later) == ServerStage(phase) || ServerStage(later) == ServerStage(phase) + 1
    ensures forall n, m :: 0 <= n < m < 8 ==> CLIENT_COURSE[n] != CLIENT_COURSE[m]
    ensures forall n, m :: 0 <= n < m < 7 ==> SERVER_COURSE[n] != SERVER_COURSE[m]
  {
  }

  lemma {:induction false} CourseNext(course: seq<byte>, states: seq<byte>, n: nat, m: nat)
    requires m < |course| && (m == n || (m == n + 1 && course[m] != course[n]))
    requires Visited(states) == course[..n + 1]
    ensures Visited(states + [course[m]]) == course[..m + 1]
  {
    hide Visited;
    VisitedNext(states, course[m]);
  }

  /**
   On every run each side goes through the states of its course one after the other, none left out and none
   repeated, and a run that cannot go on has brought both to its end.
   */
  lemma CoursesAreRun(s: Session, run: seq<Joint>, events: seq<Event>, i: nat)
    requires WellFormed(s) && IsRun(s, run, events) && i < |run|
    ensures Visited(ClientStates(run[..i + 1])) <= CLIENT_COURSE && Visited(ServerStates(run[..i + 1])) <= SERVER_COURSE
    ensures i == |events| && (forall e :: !Enabled(run[i], e)) ==>
      Visited(ClientStates(run[..i + 1])) == CLIENT_COURSE && Visited(ServerStates(run[..i + 1])) == SERVER_COURSE
  {
    hide Visited, InPhase, Next, Enabled, IsRun;
    var phase := RunVisits(s, run, events, i);
    if i == |events| && forall e :: !Enabled(run[i], e) {
      if phase < LAST_PHASE { var e := NoDeadlock(s, run[i], phase); }
      LastStage(s, run[i], phase);
    }
  }

  lemma LastStage(s: Session, st: Joint, phase: nat)
    requires WellFormed(s) && InPhase(s, st, phase) && phase >= LAST_PHASE
    ensures CLIENT_COURSE[..ClientStage(phase) + 1] == CLIENT_COURSE
    ensures SERVER_COURSE[..ServerStage(phase) + 1] == SERVER_COURSE
  {
  }

  /** Whenever a text is read it is the one that was sent: the parameters, the client's results, the server's. */
  lemma TextsArrive(s: Session, run: seq<Joint>, events: seq<Event>, i: nat)
    requires WellFormed(s) && IsRun(s, run, events) && i < |events|
    ensures var st := run[i];
      && (events[i].ServerReadsBody? ==>
        Values(st.toServer.arrived[..st.server.pc.n]) == if st.server.pc.ParamBody? then s.params else s.clientResults)
      && (events[i].ClientReadsBody? ==> Values(st.toClient.arrived[..st.client.pc.n]) == s.serverResults)
  {
    hide Frame, Next;
    var phase := RunPhase(s, run, events, i);
    var st := run[i];
    if events[i].ServerReadsBody? {
      BodyArrives(st.toServer, if st.server.pc.ParamBody? then s.params else s.clientResults, []);
    } else if events[i].ClientReadsBody? {
      BodyArrives(st.toClient, s.serverResults, States([DISPLAY_RESULTS]));
    }
  }

  lemma {:induction false} BodyArrives(p: Pipe, text: seq<byte>, rest: seq<Octet>)
    requires p.All() == Tagged(text, FrameByte) + rest && |p.arrived| >= |text|
    ensures Values(p.arrived[..|text|]) == text
  {
    forall i | 0 <= i < |text| ensures p.arrived[i].value == text[i] { assert p.All()[i] == Tagged(text, FrameByte)[i]; }
  }

  // ---- every run comes to an end ----

  /** How many bytes are written when a phase is left. */
  function BytesWritten(s: Session, phase: nat): nat {
    match phase
    case 1 => 1
    case 2 => 4 + |s.params|
    case 4 => 1
    case 6 => 2
    case 9 => 1
    case 10 => 1
    case 11 => 4 + |s.clientResults|
    case 13 => 4 + |s.serverResults| + 1
    case 16 => 1
    case _ => 0
  }

  /** How many bytes are still to be written. */
  function ToWrite(s: Session, phase: nat): nat
    decreases LAST_PHASE - phase
  {
    if phase >= LAST_PHASE then 0 else BytesWritten(s, phase) + ToWrite(s, phase + 1)
  }

  /** How many events are left: one for each phase, for each connection but the last and for each byte. */
  function EventsLeft(s: Session, st: Joint, phase: nat): int {
    LAST_PHASE - phase + (if phase < 6 then s.streams - 1 else if phase == 6 then st.pending - 1 else 0)
    + |st.toServer.flying| + |st.toClient.flying| + ToWrite(s, phase)
  }

  lemma FrameLength(payload: seq<byte>)
    requires |payload| < UINT32
    ensures |Frame(payload)| == 4 + |payload|
  {
  }

  function Flying(st: Joint): nat { |st.toServer.flying| + |st.toClient.flying| }

  /** An event writes what belongs to its phase. */
  lemma ServerWrites(s: Session, st: Joint, phase: nat, e: Event)
    requires WellFormed(s) && InPhase(s, st, phase) && Enabled(st, e) && Advances(st, e)
    requires e.ServerConnected? || e.ServerReadsCookie? || e.ServerReadsHeader? || e.ServerReadsBody? || e.ServerAccepts?
    ensures Flying(Next(s, st, e)) == Flying(st) + BytesWritten(s, phase)
  {
    FrameLength(s.serverResults);
    hide Frame, Tagged, Values, HeaderValue;
    if AtHeader(st.server.pc) { assert st.toServer.All() != [] || !Enabled(st, e); }
  }

  lemma ServerAnswers(s: Session, st: Joint, phase: nat)
    requires WellFormed(s) && InPhase(s, st, phase) && Enabled(st, ServerReadsState)
    ensures Flying(Next(s, st, ServerReadsState)) == Flying(st) + BytesWritten(s, phase)
  {
    hide Frame, Values, HeaderValue;
    assert st.toServer.All()[0] == st.toServer.arrived[0];
  }

  lemma ClientWrites(s: Session, st: Joint, phase: nat, e: Event)
    requires WellFormed(s) && InPhase(s, st, phase) && Enabled(st, e)
    requires e.ClientEndsTest? || e.ClientReadsHeader? || e.ClientReadsBody?
    ensures Flying(Next(s, st, e)) == Flying(st) + BytesWritten(s, phase)
  {
    hide Frame, Tagged, Values, HeaderValue;
    if AtHeader(st.client.pc) { assert st.toClient.All() != [] || !Enabled(st, e); }
  }

  lemma ClientAnswers(s: Session, st: Joint, phase: nat)
    requires WellFormed(s) && InPhase(s, st, phase) && Enabled(st, ClientReadsState)
    ensures Flying(Next(s, st, ClientReadsState)) == Flying(st) + BytesWritten(s, phase)
  {
    hide Frame, Tagged, Values, HeaderValue, ToServerAt, ToClientAt, ClientMessage, BytesWritten, Next, Announced, ClientAt;
    ClientHears(s, st, phase);
    ClientReads(s, st, Announced(phase));
    ClientOutput(s, phase);
  }

  /** How much the client answers to a state. */
  lemma ClientOutput(s: Session, phase: nat)
    requires WellFormed(s) && phase in {2, 5, 7, 8, 11, 16}
    ensures |ClientMessage(s, ClientAt(s, phase), Announced(phase)).output| == BytesWritten(s, phase)
  {
    FrameLength(s.params);
    FrameLength(s.clientResults);
    hide Frame, Tagged, ToServerAt, ToClientAt;
  }

  lemma NextCounts(s: Session, st: Joint, phase: nat, e: Event)
    requires WellFormed(s) && InPhase(s, st, phase) && Enabled(st, e)
    ensures var t, next := Next(s, st, e), if Advances(st, e) then phase + 1 else phase;
      EventsLeft(s, t, next) == EventsLeft(s, st, phase) - 1
  {
    hide Frame, Tagged, Values, HeaderValue, ToServerAt, ToClientAt;
    if Advances(st, e) {
      NextKeeps(s, st, phase, e);
      match e {
        case ServerReadsState => ServerAnswers(s, st, phase);
        case ClientReadsState => ClientAnswers(s, st, phase);
        case ClientEndsTest => ClientWrites(s, st, phase, e);
        case ClientReadsHeader => ClientWrites(s, st, phase, e);
        case ClientReadsBody => ClientWrites(s, st, phase, e);
        case _ => ServerWrites(s, st, phase, e);
      }
    }
  }

  /** Every run ends: the number of events left is fixed by the session and falls by one with each. */
  lemma {:induction false} RunIsBounded(s: Session, run: seq<Joint>, events: seq<Event>, i: nat) returns (phase: nat)
    requires WellFormed(s) && IsRun(s, run, events) && i < |run|
    ensures InPhase(s, run[i], phase)
    ensures EventsLeft(s, run[i], phase) + i == EventsLeft(s, Initial(s), 0)
    decreases i
  {
    if i == 0 {
      phase := RunPhase(s, run, events, 0);
      assert phase == 0;
    } else {
      hide InPhase, Next, EventsLeft;
      phase := RunIsBounded(s, run, events, i - 1);
      NextKeeps(s, run[i - 1], phase, events[i - 1]);
      NextCounts(s, run[i - 1], phase, events[i - 1]);
      if Advances(run[i - 1], events[i - 1]) { phase := phase + 1; }
    }
  }

  /** All runs are finite; the ones that cannot go on have all the same length. */
  lemma RunsEnd(s: Session, run: seq<Joint>, events: seq<Event>)
    requires WellFormed(s) && IsRun(s, run, events)
    ensures |events| <= EventsLeft(s, Initial(s), 0)
    ensures (forall e :: !Enabled(run[|events|], e)) ==> |events| == EventsLeft(s, Initial(s), 0)
  {
    hide Frame, Tagged;
    var phase := RunIsBounded(s, run, events, |events|);
    if forall e :: !Enabled(run[|events|], e) {
      if phase < LAST_PHASE { var e := NoDeadlock(s, run[|events|], phase); }
    }
  }
}
