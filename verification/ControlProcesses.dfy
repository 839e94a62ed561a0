/** The two ends of the control connection as they run, each method proved to make the move of the protocol. */
module ControlProcesses {
  import opened Bytes
  import opened ControlProtocol
  import S = Streams

  /** The control socket: what can be read and what has been written. */
  class ControlSocket {
    var arrived: seq<Octet>
    var written: seq<Octet>

    constructor ()
      ensures arrived == written == []
    {
      arrived, written := [], [];
    }

    method WriteState(state: byte)
      modifies this
      ensures written == old(written) + States([state]) && arrived == old(arrived)
    {
      written := written + States([state]);
    }

    /** JSON_write, behind the printing: the length in network byte order, then the text. */
    method WriteFrame(payload: seq<byte>)
      requires |payload| < UINT32
      modifies this
      ensures written == old(written) + Frame(payload) && arrived == old(arrived)
    {
      written := written + Tagged(Header(|payload|), FrameByte);
      written := written + Tagged(payload, FrameByte);
    }

    method ReadState() returns (state: byte)
      requires arrived != []
      modifies this
      ensures state == old(arrived)[0].value && arrived == old(arrived)[1..] && written == old(written)
    {
      state := arrived[0].value;
      arrived := arrived[1..];
    }

    method Read(n: nat) returns (bytes: seq<byte>)
      requires |arrived| >= n
      modifies this
      ensures bytes == Values(old(arrived)[..n]) && arrived == old(arrived)[n..] && written == old(written)
    {
      bytes := Values(arrived[..n]);
      arrived := arrived[n..];
    }
  }

  /** The session has as many data connections as the mode and the number of streams ask for. */
  predicate Suits(session: Session, mode: S.Mode, numStreams: nat) {
    WellFormed(session) && session.streams == |S.ServerSenders(mode, numStreams)|
  }

  class ServerProcess {
    const session: Session
    const socket: ControlSocket
    const mode: S.Mode
    const numStreams: nat
    const streamsToRec: nat
    const streamsToSend: nat
    var pc: Pc
    var state: byte
    var recStreamsAccepted: nat
    var sendStreamsAccepted: nat

    ghost function Model(): Server
      reads this
    {
      Server(pc, state, recStreamsAccepted + sendStreamsAccepted)
    }

    ghost predicate Valid()
      reads this
    {
      && Suits(session, mode, numStreams)
      && streamsToRec == (if mode == S.Sender then 0 else numStreams)
      && streamsToSend == (if mode == S.Receiver then 0 else numStreams)
      && recStreamsAccepted <= streamsToRec && sendStreamsAccepted <= streamsToSend
      && (sendStreamsAccepted > 0 ==> recStreamsAccepted == streamsToRec)
    }

    constructor (session: Session, socket: ControlSocket, mode: S.Mode, numStreams: nat)
      requires Suits(session, mode, numStreams)
      ensures Valid() && Model() == Server(Listening, IPERF_START, 0)
      ensures this.mode == mode && this.numStreams == numStreams && this.session == session && this.socket == socket
    {
      this.session, this.socket, this.mode, this.numStreams := session, socket, mode, numStreams;
      if mode == S.Bidirectional {
        streamsToSend, streamsToRec := numStreams, numStreams;
      } else if mode == S.Receiver {
        streamsToRec, streamsToSend := numStreams, 0;
      } else {
        streamsToSend, streamsToRec := numStreams, 0;
      }
      pc, state, recStreamsAccepted, sendStreamsAccepted := Listening, IPERF_START, 0, 0;
    }

    /** iperf_set_send_state */
    method SetSendState(s: byte)
      modifies this`state, socket
      ensures state == s && socket.written == old(socket.written) + States([s]) && socket.arrived == old(socket.arrived)
    {
      state := s;
      socket.WriteState(s);
    }

    /** iperf_accept once the cookie is there. */
    method Accept()
      requires Valid() && pc.ReadingCookie? && |socket.arrived| >= COOKIE_SIZE
      modifies this`pc, this`state, socket
      ensures Valid() && var m := ServerCookie(old(Model()));
        Model() == m.process && socket.written == old(socket.written) + m.output
      ensures socket.arrived == old(socket.arrived)[COOKIE_SIZE..]
    {
      var cookie := socket.Read(COOKIE_SIZE);
      SetSendState(PARAM_EXCHANGE);
      pc := ParamHeader;
    }

    /** The first half of JSON_read: the length. */
    method ReadHeader()
      requires Valid() && AtHeader(pc) && |socket.arrived| >= 4
      modifies this`pc, socket
      ensures Valid() && Model() == old(Model()).(pc := Behind(old(pc), HeaderValue(Values(old(socket.arrived)[..4]))))
      ensures socket.arrived == old(socket.arrived)[4..] && socket.written == old(socket.written)
    {
      var nsize := socket.Read(4);
      pc := if pc.ParamHeader? then ParamBody(HeaderValue(nsize)) else ResultBody(HeaderValue(nsize));
    }

    /** The second half, and what the exchange does with the text. */
    method ReadBody() returns (text: seq<byte>)
      requires Valid() && AtBody(pc) && |socket.arrived| >= pc.n
      modifies this`pc, this`state, socket
      ensures text == Values(old(socket.arrived)[..old(pc).n])
      ensures Valid() && var m := ServerFrame(session, old(Model()));
        Model() == m.process && socket.written == old(socket.written) + m.output
      ensures socket.arrived == old(socket.arrived)[old(pc).n..]
    {
      text := socket.Read(pc.n);
      if pc.ParamBody? {
        SetSendState(CREATE_STREAMS);
      } else {
        socket.WriteFrame(session.serverResults);
        SetSendState(DISPLAY_RESULTS);
      }
      pc := Looping;
    }

    /** A data connection in the loop of iperf_run_server; `flag` says whether the server sends on it. */
    method AcceptStream() returns (flag: bool)
      requires Valid() && pc.Looping? && state == CREATE_STREAMS
      requires recStreamsAccepted + sendStreamsAccepted < session.streams
      modifies this`state, this`recStreamsAccepted, this`sendStreamsAccepted, socket
      ensures flag == S.ServerSenders(mode, numStreams)[old(recStreamsAccepted + sendStreamsAccepted)]
      ensures Valid() && var m := ServerAccept(session, old(Model()));
        Model() == m.process && socket.written == old(socket.written) + m.output
      ensures socket.arrived == old(socket.arrived)
    {
      ghost var before := socket.written;
      flag := false;
      if recStreamsAccepted != streamsToRec {
        recStreamsAccepted := recStreamsAccepted + 1;
      } else if sendStreamsAccepted != streamsToSend {
        flag := true;
        sendStreamsAccepted := sendStreamsAccepted + 1;
      }
      if recStreamsAccepted == streamsToRec && sendStreamsAccepted == streamsToSend {
        SetSendState(TEST_START);
        SetSendState(TEST_RUNNING);
        assert before + States([TEST_START]) + States([TEST_RUNNING]) == before + States([TEST_START, TEST_RUNNING]);
      } else {
        assert before + [] == before;
      }
    }

    /**
     All data connections, one after the other: the streams of the test are those of the order in which the
     server expects them, and the last one announces the test.
     */
    method AcceptStreams(side: S.TestSide)
      requires Valid() && pc.Looping? && state == CREATE_STREAMS && Model().accepted == 0 && side.streams == []
      modifies this`state, this`recStreamsAccepted, this`sendStreamsAccepted, socket, side
      ensures Valid() && Model() == old(Model()).(state := TEST_RUNNING, accepted := session.streams)
      ensures side.streams == S.AddedAll([], S.ServerSenders(mode, numStreams))
      ensures socket.written == old(socket.written) + States([TEST_START, TEST_RUNNING])
      ensures socket.arrived == old(socket.arrived)
    {
      ghost var senders := S.ServerSenders(mode, numStreams);
      var k := 0;
      assert senders[..0] == [];
      while k < session.streams
        invariant Valid() && k <= session.streams == |senders| && pc == old(pc)
        invariant recStreamsAccepted + sendStreamsAccepted == k
        invariant side.streams == S.AddedAll([], senders[..k])
        invariant state == if k < session.streams then CREATE_STREAMS else TEST_RUNNING
        invariant socket.arrived == old(socket.arrived) && socket.written == old(socket.written) +
          if k < session.streams then [] else States([TEST_START, TEST_RUNNING])
      {
        var flag := AcceptStream();
        side.AddStream(S.Fresh(flag));
        S.AddedNext(senders, k);
        k := k + 1;
      }
      assert senders[..k] == senders;
    }

    /** iperf_handle_message_server */
    method HandleMessage()
      requires Valid() && pc.Looping? && socket.arrived != []
      modifies this`pc, this`state, socket
      ensures Valid() && var m := ServerMessage(old(Model()), old(socket.arrived)[0].value);
        Model() == m.process && socket.written == old(socket.written) + m.output
      ensures socket.arrived == old(socket.arrived)[1..]
    {
      state := socket.ReadState();
      assert socket.written + [] == socket.written;
      match state {
        case 1 =>
        case 4 =>
          SetSendState(EXCHANGE_RESULTS);
          pc := ResultHeader;
        case 16 => pc := Ended;
        case 12 =>
          state := IPERF_DONE;
          pc := Ended;
        case _ => pc := Failed;
      }
    }
  }

  class ClientProcess {
    const session: Session
    const socket: ControlSocket
    const mode: S.Mode
    const numStreams: nat
    const side: S.TestSide
    var pc: Pc
    var state: byte

    ghost function Model(): Client
      reads this
    {
      Client(pc, state)
    }

    constructor (session: Session, socket: ControlSocket, mode: S.Mode, numStreams: nat, side: S.TestSide)
      requires Suits(session, S.Opposite(mode), numStreams)
      ensures Model() == Client(Looping, IPERF_START)
      ensures this.session == session && this.socket == socket && this.side == side
      ensures this.mode == mode && this.numStreams == numStreams
    {
      this.session, this.socket, this.mode, this.numStreams, this.side := session, socket, mode, numStreams, side;
      pc, state := Looping, IPERF_START;
    }

    /** iperf_set_send_state */
    method SetSendState(s: byte)
      modifies this`state, socket
      ensures state == s && socket.written == old(socket.written) + States([s]) && socket.arrived == old(socket.arrived)
    {
      state := s;
      socket.WriteState(s);
    }

    /** The answer to CREATE_STREAMS: iperf_create_streams for each direction of the mode. */
    method CreateStreams()
      requires Suits(session, S.Opposite(mode), numStreams)
      modifies side
      ensures side.streams == S.AddedAll(old(side.streams), S.ClientSenders(mode, numStreams))
      ensures |side.streams| == |old(side.streams)| + session.streams
    {
      side.CreateClientStreams(mode, numStreams);
      S.AddedCount(old(side.streams), S.ClientSenders(mode, numStreams));
    }

    /** iperf_handle_message_client */
    method HandleMessage()
      requires Suits(session, S.Opposite(mode), numStreams) && pc.Looping? && socket.arrived != []
      modifies this, socket, side
      ensures var m := ClientMessage(session, old(Model()), old(socket.arrived)[0].value);
        Model() == m.process && socket.written == old(socket.written) + m.output
        && |side.streams| == |old(side.streams)| + m.connects
      ensures side.streams == if old(socket.arrived)[0].value == CREATE_STREAMS
        then S.AddedAll(old(side.streams), S.ClientSenders(mode, numStreams)) else old(side.streams)
      ensures socket.arrived == old(socket.arrived)[1..]
    {
      state := socket.ReadState();
      assert socket.written + [] == socket.written;
      match state {
        case 9 => socket.WriteFrame(session.params);
        case 10 => CreateStreams();
        case 1 =>
        case 2 =>
        case 13 =>
          socket.WriteFrame(session.clientResults);
          pc := ResultHeader;
        case 14 =>
          SetSendState(IPERF_DONE);
          pc := Ended;
        case 16 => pc := Ended;
        case _ => pc := Failed;
      }
    }

    /** The first half of get_results: the length of the server's frame. */
    method ReadHeader()
      requires pc.ResultHeader? && |socket.arrived| >= 4
      modifies this`pc, socket
      ensures Model() == old(Model()).(pc := Behind(old(pc), HeaderValue(Values(old(socket.arrived)[..4]))))
      ensures socket.arrived == old(socket.arrived)[4..] && socket.written == old(socket.written)
    {
      var nsize := socket.Read(4);
      pc := ResultBody(HeaderValue(nsize));
    }

    /** The second half: its text. */
    method ReadBody() returns (text: seq<byte>)
      requires pc.ResultBody? && |socket.arrived| >= pc.n
      modifies this`pc, socket
      ensures text == Values(old(socket.arrived)[..old(pc).n])
      ensures Model() == old(Model()).(pc := Looping)
      ensures socket.arrived == old(socket.arrived)[old(pc).n..] && socket.written == old(socket.written)
    {
      text := socket.Read(pc.n);
      pc := Looping;
    }

    /** The loop of iperf_run_client when it finds the test done. */
    method EndTest()
      requires pc.Looping? && state == TEST_RUNNING
      modifies this`state, socket
      ensures var m := ClientTestEnd(old(Model()));
        Model() == m.process && socket.written == old(socket.written) + m.output
      ensures socket.arrived == old(socket.arrived)
    {
      SetSendState(TEST_END);
    }
  }
}
