/** The connection object: its fields, the loop over the packets, the handlers and the commands, all changing it in
    place. */
module Connections {
  import opened Options
  import opened Bytes
  import opened Pack
  import Types
  import Fips180
  import Scramble
  import opened Buffers
  import opened Protocol
  import opened Safety

  // After a row or the end of the rows nothing is expected, so that leaving the loop there leaves nothing undone.
  lemma RowEmptiesQueue(c: Con)
    requires Inv(c) && Ready(c)
    ensures |c.core.queue| == 1 && c.toEnd == 0
    ensures c.core.queue[0].Row? ==> ProcessOne(c).core.fault || ProcessOne(c).core.queue == []
  {
    hide HasLength, UnpackLength;
  }

  lemma FaultStops(c: Con)
    requires c.core.fault
    ensures Process(c) == c
  {
  }

  lemma NothingLeft(c: Con)
    ensures c.unread == [] ==> Process(c) == c
  {
  }

  lemma AppendedFifo(q: Fifo, b: seq<byte>)
    ensures ApplyFifo(q, Append(b)) == Fifo(q.unread + b, q.toEnd)
  {
  }

  lemma EndedFifo(q: Fifo)
    ensures q.toEnd <= |q.unread| ==> ApplyFifo(q, Op.End) == Fifo(q.unread[q.toEnd..], 0)
  {
  }

  lemma HasRow(c: Con)
    requires Inv(c) && Enabled(c, NextRow)
    ensures 0 < c.toEnd <= |c.unread| && c.core.queue == []
  {
  }

  lemma CommandKeeps(c: Con, command: ClientCommand)
    ensures var d := Protocol.CommandSend(c, command);
            d == Con(Protocol.CommandSend(Con(c.core, [], 0), command).core, c.unread, c.toEnd)
    ensures var d := CommandFailure(c, command);
            d == Con(CommandFailure(Con(c.core, [], 0), command).core, c.unread, c.toEnd)
    ensures Inv(c) && Enabled(c, Event.Command(command)) ==>
              Inv(Protocol.CommandSend(c, command)) && Inv(CommandFailure(c, command))
  {
    if Inv(c) && Enabled(c, Event.Command(command)) {
      InvAfter(c, Event.Command(command));
      InvAfter(c, SendBroken(command));
    }
  }

  lemma NextResultKeeps(c: Con)
    ensures NextResult(c) == Con(NextResult(Con(c.core, [], 0)).core, c.unread, c.toEnd)
    ensures Inv(c) && Enabled(c, MoreResults) ==> Inv(NextResult(c))
  {
    if Inv(c) && Enabled(c, MoreResults) {
      InvAfter(c, MoreResults);
    }
  }

  lemma ShortEof(c: Core, p: seq<byte>)
    ensures var out := ReadEof(c, p); !out.held && (out.core.fault <==> c.fault || |p| < 5)
  {
  }

  lemma ResponseNotHeld(c: Core, p: seq<byte>)
    ensures !ReadResponsePacket(c, p).held
  {
    hide HasLength, UnpackLength, UnpackUint16;
  }

  // A packet that is held is not empty.
  lemma HeldIsSome(c: Core, k: Kind, p: seq<byte>)
    ensures Dispatch(c, k, p).held ==> p != []
  {
    hide ReadResponsePacket;
    ResponseNotHeld(c, p);
    ResponseNotHeld(c.(result := c.result.(row := None)), p);
  }

  // One turn of the loop, once the expected packet has been popped and the number n is known.
  lemma OneTurn(c: Con, kind: Kind, n: byte)
    requires Inv(c) && Ready(c) && kind == Top(c.core.queue) && n == Protocol.Expected(c.core, kind)
    ensures Popped(c.core.queue) == []
    ensures c.unread[3] != n ==>
              ProcessOne(c)
              == c.(core := c.core.(number := n, queue := [], error := OutOfSequence, command := ReadFailed))
    ensures c.unread[3] == n ==>
              var p := Payload(c.unread);
              var f := Protocol.Frame.Frame(kind, n, p);
              var out := Dispatch(c.core.(queue := [], number := n, log := c.core.log + [f]), kind, p);
              ProcessOne(c) ==
              if out.held then Con(out.core, c.unread[4..], |p|) else Con(out.core, c.unread[4 + |p|..], 0)
  {
    hide Dispatch;
  }

  const DEFAULT_PACKET_QUEUE_SIZE := 64

  class Connection {
    const readBuffer: ReadBuffer
    const credentials: Credentials
    const queuedQuery: Option<ClientCommand>

    // The stack of expected packets: nextPacketQueueUsed entries are in use.
    const nextPacketQueue: array<Kind>
    var nextPacketQueueUsed: nat

    var packetNumber: byte
    var status: Status
    var commandStatus: Command
    var localErrcode: ErrorCode
    var info: Info
    var result: Result
    var stmt: Stmt
    var scramble: seq<byte>
    var serverCapabilities: uint16
    var answer: seq<byte>
    var allRowsBuffered: bool
    var overrun: bool
    ghost var log: seq<Frame>

    ghost function Expected(): seq<Kind>
      reads this, nextPacketQueue
      requires nextPacketQueueUsed <= nextPacketQueue.Length
    {
      nextPacketQueue[..nextPacketQueueUsed]
    }

    ghost function State(): Core
      reads this, nextPacketQueue
      requires nextPacketQueueUsed <= nextPacketQueue.Length
    {
      Core(Expected(), packetNumber, status, commandStatus, localErrcode, info, result, stmt,
           credentials, scramble, serverCapabilities, answer, log, overrun)
    }

    // The parts of the object fit together.
    ghost predicate Shaped()
      reads this, readBuffer, readBuffer.data
    {
      && readBuffer.Valid() && nextPacketQueue.Length == DEFAULT_PACKET_QUEUE_SIZE
      && nextPacketQueueUsed <= nextPacketQueue.Length && |credentials.pass| < 0x1_0000_0000
    }

    ghost function View(): Con
      reads this, readBuffer, readBuffer.data, nextPacketQueue
      requires Shaped()
    {
      Con(State(), readBuffer.Queue().unread, readBuffer.Queue().toEnd)
    }

    // When all that came has been used up, the buffer starts again at its beginning.
    ghost predicate Valid()
      reads this, readBuffer, readBuffer.data, nextPacketQueue
    {
      Shaped() && Inv(View()) && (readBuffer.Queue().unread == [] && !overrun ==> readBuffer.write == 0)
    }

    // The read pointer stands at the payload p, the packet end is set behind it, and nothing else is expected.
    ghost predicate AtPayload(p: seq<byte>)
      reads this, readBuffer, readBuffer.data
    {
      && Shaped() && nextPacketQueueUsed == 0 && readBuffer.packetEnd.Some? && !overrun
      && readBuffer.Queue().toEnd == |p| && p <= readBuffer.Queue().unread
    }

    // The handler has done what `out` says; unless it was held, the packet has been ended.
    ghost predicate Did(out: Outcome, before: Fifo, write: nat)
      reads this, readBuffer, readBuffer.data, nextPacketQueue
    {
      && Shaped() && overrun == out.core.fault
      && (!overrun ==>
            && State() == out.core && readBuffer.packetEnd.Some?
            && (if out.held then readBuffer.Queue() == before && readBuffer.write == write
                else readBuffer.Queue() == ApplyFifo(before, Op.End)
                     && readBuffer.write == if readBuffer.Queue().unread == [] then 0 else write))
    }

    constructor (credentials: Credentials, queuedQuery: Option<ClientCommand>)
      requires |credentials.pass| < 0x1_0000_0000
      ensures Valid() && View() == Opened(credentials)
      ensures fresh(readBuffer) && fresh(readBuffer.data) && fresh(nextPacketQueue)
    {
      readBuffer := new ReadBuffer();
      this.credentials, this.queuedQuery := credentials, queuedQuery;
      nextPacketQueue := new Kind[DEFAULT_PACKET_QUEUE_SIZE](_ => Handshake);
      nextPacketQueueUsed, packetNumber, status, commandStatus, localErrcode := 1, 0, Connecting, Eof, Ok;
      info, result, stmt, overrun, log := NO_INFO, Result(0, 0, None), NEW_STMT, false, [];
      scramble, serverCapabilities, answer, allRowsBuffered := [], 0, [], false;
      new;
      assert Expected() == [Handshake];
    }

    // ---------------------------------------------------------------- the stack

    // The queue has room: it never holds more than one entry, so that its growth is never reached.
    method PacketQueuePush(k: Kind)
      requires nextPacketQueueUsed < nextPacketQueue.Length
      modifies this`nextPacketQueueUsed, nextPacketQueue
      ensures nextPacketQueueUsed == old(nextPacketQueueUsed) + 1 && Expected() == old(Expected()) + [k]
    {
      nextPacketQueue[nextPacketQueueUsed] := k;
      nextPacketQueueUsed := nextPacketQueueUsed + 1;
    }

    method PacketQueuePop() returns (k: Option<Kind>)
      requires nextPacketQueueUsed <= nextPacketQueue.Length
      modifies this`nextPacketQueueUsed
      ensures nextPacketQueueUsed == if old(nextPacketQueueUsed) == 0 then 0 else old(nextPacketQueueUsed) - 1
      ensures if old(Expected()) == [] then k == None && Expected() == []
              else k == Some(Top(old(Expected()))) && Expected() == Popped(old(Expected()))
    {
      if nextPacketQueueUsed == 0 {
        return None;
      }
      nextPacketQueueUsed := nextPacketQueueUsed - 1;
      return Some(nextPacketQueue[nextPacketQueueUsed]);
    }

    method PacketQueuePeek() returns (k: Option<Kind>)
      requires nextPacketQueueUsed <= nextPacketQueue.Length
      ensures k == if Expected() == [] then None else Some(Top(Expected()))
    {
      if nextPacketQueueUsed == 0 {
        return None;
      }
      return Some(nextPacketQueue[nextPacketQueueUsed - 1]);
    }

    method PacketReadEnd()
      requires readBuffer.Valid() && readBuffer.packetEnd.Some?
      modifies readBuffer
      ensures readBuffer.Valid() && readBuffer.packetEnd.Some? && readBuffer.data == old(readBuffer.data)
      ensures readBuffer.Queue() == ApplyFifo(old(readBuffer.Queue()), Op.End)
      ensures readBuffer.write == if readBuffer.Queue().unread == [] then 0 else old(readBuffer.write)
    {
      readBuffer.PacketReadEnd();
    }

    // ---------------------------------------------------------------- the handlers

    method ReadOkPacket(p: seq<byte>)
      requires AtPayload(p) && p != []
      modifies this, readBuffer, nextPacketQueue
      ensures Did(ReadOk(old(State()), p), old(readBuffer.Queue()), old(readBuffer.write))
      ensures readBuffer.data == old(readBuffer.data)
    {
      hide HasLength, UnpackLength, UnpackUint16, Sound, Abs, ApplyFifo;
      if !HasLength(p, 1) {
        overrun := true;
        return;
      }
      var affected := UnpackLength(p, 1);
      var dataRead := 1 + affected.bytes;
      if !HasLength(p, dataRead) {
        overrun := true;
        return;
      }
      var insert := UnpackLength(p, dataRead);
      dataRead := dataRead + insert.bytes;
      if dataRead + 4 > |p| {
        overrun := true;
        return;
      }
      info := Info(affected.value, insert.value, UnpackUint16(p, dataRead), UnpackUint16(p, dataRead + 2), info.errno);
      if status == Connecting {
        commandStatus := Connected;
      } else {
        commandStatus := Eof;
      }
      status := Idle;
      PacketReadEnd();
    }

    method ReadErrorPacket(p: seq<byte>)
      requires AtPayload(p)
      modifies this, readBuffer, nextPacketQueue
      ensures Did(ReadError(old(State()), p), old(readBuffer.Queue()), old(readBuffer.write))
      ensures readBuffer.data == old(readBuffer.data)
    {
      hide UnpackUint16, Sound, Abs, ApplyFifo;
      if |p| < 9 {
        overrun := true;
        return;
      }
      info := info.(errno := UnpackUint16(p, 1));
      if commandStatus == ReadResponse {
        status := ConnectFailed;
      } else {
        status := Idle;
      }
      nextPacketQueueUsed := 0;
      commandStatus := Eof;
      PacketReadEnd();
    }

    method ReadEofPacket(p: seq<byte>)
      requires AtPayload(p)
      modifies this, readBuffer, nextPacketQueue
      ensures Did(ReadEof(old(State()), p), old(readBuffer.Queue()), old(readBuffer.write))
      ensures readBuffer.data == old(readBuffer.data)
    {
      hide ReadEof, Sound, Abs, ApplyFifo;
      ShortEof(State(), p);
      if |p| < 5 {
        overrun := true;
        return;
      }
      EofFields(p);
      PacketReadEnd();
    }

    // What an EOF packet says, and what it leads to.
    method EofFields(p: seq<byte>)
      requires |p| >= 5 && nextPacketQueueUsed == 0 < nextPacketQueue.Length
      modifies this, nextPacketQueue
      ensures nextPacketQueueUsed <= 1 && State() == ReadEof(old(State()), p).core
    {
      hide UnpackUint16;
      info := info.(warnings := UnpackUint16(p, 1), serverStatus := UnpackUint16(p, 3));
      if commandStatus == ReadColumn {
        commandStatus := ReadRow;
        PacketQueuePush(Row);
      } else if commandStatus == ReadStmtParam && stmt.columnCount > 0 {
        commandStatus := ReadStmtColumn;
        PacketQueuePush(PrepareColumn);
      } else {
        commandStatus := Eof;
        status := Idle;
      }
    }

    method ReadResultPacket(p: seq<byte>)
      requires AtPayload(p)
      modifies this, readBuffer, nextPacketQueue
      ensures Did(ReadResult(old(State()), p), old(readBuffer.Queue()), old(readBuffer.write))
      ensures readBuffer.data == old(readBuffer.data)
    {
      hide HasLength, UnpackLength, Sound, Abs, ApplyFifo;
      if !HasLength(p, 0) {
        overrun := true;
        return;
      }
      result := result.(columnCount := UnpackLength(p, 0).value % 0x1_0000);
      PacketReadEnd();
      PacketQueuePush(Column);
      commandStatus := ReadColumn;
    }

    method PacketReadResponse(p: seq<byte>)
      requires AtPayload(p)
      modifies this, readBuffer, nextPacketQueue
      ensures Did(ReadResponsePacket(old(State()), p), old(readBuffer.Queue()), old(readBuffer.write))
      ensures readBuffer.data == old(readBuffer.data)
    {
      hide ReadOk, ReadError, ReadEof, ReadResult, Sound, Abs, ApplyFifo;
      if p == [] {
        overrun := true;
      } else if p[0] == 0x00 {
        ReadOkPacket(p);
      } else if p[0] == 0xff {
        ReadErrorPacket(p);
      } else if p[0] == 0xfe {
        ReadEofPacket(p);
      } else {
        ReadResultPacket(p);
      }
    }

    method PacketReadPrepareResponse(p: seq<byte>)
      requires AtPayload(p)
      modifies this, readBuffer, nextPacketQueue
      ensures Did(ReadPrepare(old(State()), p), old(readBuffer.Queue()), old(readBuffer.write))
      ensures readBuffer.data == old(readBuffer.data)
    {
      hide ReadResponsePacket, UnpackUint16, UnpackUint32, Sound, Abs, ApplyFifo;
      if p == [] {
        overrun := true;
        return;
      }
      if p[0] != 0x00 {
        PacketReadResponse(p);
        return;
      }
      if |p| < 12 {
        overrun := true;
        return;
      }
      PrepareOkFields(p);
      EndTwiceSame(readBuffer.Queue());
      if stmt.paramCount == 0 && stmt.columnCount == 0 {
        PacketReadEnd();
      }
      PacketReadEnd();
    }

    // What a PREPARE_OK packet says; the handler ends the packet once more where no definitions follow.
    method PrepareOkFields(p: seq<byte>)
      requires |p| >= 12 && p[0] == 0x00 && nextPacketQueueUsed == 0 < nextPacketQueue.Length
      modifies this, nextPacketQueue
      ensures nextPacketQueueUsed <= 1 && State() == ReadPrepare(old(State()), p).core
    {
      hide UnpackUint16, UnpackUint32;
      stmt := stmt.(id := UnpackUint32(p, 1), columnCount := UnpackUint16(p, 5), paramCount := UnpackUint16(p, 7));
      info := info.(warnings := UnpackUint16(p, 10));
      if stmt.paramCount > 0 {
        PacketQueuePush(PrepareParameter);
        commandStatus := ReadStmtParam;
      } else if stmt.columnCount > 0 {
        PacketQueuePush(PrepareColumn);
        commandStatus := ReadStmtColumn;
      } else {
        commandStatus := Eof;
        status := Idle;
      }
      stmt := stmt.(prepared := true);
    }

    method PacketReadPrepareParameter(p: seq<byte>)
      requires AtPayload(p)
      modifies this, readBuffer, nextPacketQueue
      ensures Did(ReadParameter(old(State())), old(readBuffer.Queue()), old(readBuffer.write))
      ensures readBuffer.data == old(readBuffer.data)
    {
      hide Sound, Abs, ApplyFifo;
      PacketReadEnd();
      stmt := stmt.(currentParam := Incremented(stmt.currentParam));
      if stmt.currentParam == stmt.paramCount {
        PacketQueuePush(Response);
      } else {
        PacketQueuePush(PrepareParameter);
      }
    }

    method PacketReadPrepareColumn(p: seq<byte>)
      requires AtPayload(p)
      modifies this, readBuffer, nextPacketQueue
      ensures Did(ReadPrepareColumn(old(State())), old(readBuffer.Queue()), old(readBuffer.write))
      ensures readBuffer.data == old(readBuffer.data)
    {
      hide Sound, Abs, ApplyFifo;
      PacketReadEnd();
      stmt := stmt.(currentColumn := Incremented(stmt.currentColumn));
      if stmt.currentColumn == stmt.columnCount {
        PacketQueuePush(Response);
      } else {
        PacketQueuePush(PrepareColumn);
      }
    }

    method PacketReadColumn(p: seq<byte>)
      requires AtPayload(p)
      modifies this, readBuffer, nextPacketQueue
      ensures Did(ReadColumnPacket(old(State())), old(readBuffer.Queue()), old(readBuffer.write))
      ensures readBuffer.data == old(readBuffer.data)
    {
      hide Sound, Abs, ApplyFifo;
      PacketReadEnd();
      result := result.(currentColumn := Incremented(result.currentColumn));
      if result.currentColumn == result.columnCount {
        PacketQueuePush(Response);
      } else {
        PacketQueuePush(Column);
      }
    }

    method PacketReadRow(p: seq<byte>)
      requires AtPayload(p)
      modifies this, readBuffer, nextPacketQueue
      ensures Did(ReadRowPacket(old(State()), p), old(readBuffer.Queue()), old(readBuffer.write))
      ensures readBuffer.data == old(readBuffer.data)
    {
      hide ReadResponsePacket, Sound, Abs, ApplyFifo;
      if p == [] {
        overrun := true;
        return;
      }
      if p[0] == 0xfe {
        result := result.(row := None);
        PacketReadResponse(p);
        return;
      }
      result := result.(row := Some(p));
      commandStatus := RowInBuffer;
      status := Idle;
    }

    // The length of the server version: strncpy stops at the NUL or at the size of its destination.
    method VersionLength(p: seq<byte>) returns (n: nat)
      requires p != []
      ensures n == StringLength(p, 1, MAX_SERVER_VERSION_LEN - 1)
    {
      n := 0;
      while n < MAX_SERVER_VERSION_LEN - 1 && 1 + n < |p| && p[1 + n] != 0
        invariant 1 + n <= |p| && n <= MAX_SERVER_VERSION_LEN - 1
        invariant n + StringLength(p, 1 + n, MAX_SERVER_VERSION_LEN - 1 - n)
                  == StringLength(p, 1, MAX_SERVER_VERSION_LEN - 1)
      {
        n := n + 1;
      }
    }

    method PacketReadHandshake(p: seq<byte>)
      requires AtPayload(p)
      modifies this, readBuffer, nextPacketQueue
      ensures Did(ReadHandshake(old(State()), p), old(readBuffer.Queue()), old(readBuffer.write))
      ensures readBuffer.data == old(readBuffer.data)
    {
      hide GreetingRead, StringLength, Respond, Sound, Abs, ApplyFifo;
      if p == [] || p[0] == 0xff {
        overrun := true;
        return;
      }
      if p[0] != 10 {
        localErrcode := BadProtocol;
        return;
      }
      var n := VersionLength(p);
      var at := 2 + n;
      if at + 43 > |p| {
        overrun := true;
        return;
      }
      ReadGreeting(p, at);
      PacketReadEnd();
      HandshakeResponse();
    }

    // The fields behind the server version.
    method ReadGreeting(p: seq<byte>, at: nat)
      requires at + 43 <= |p| && nextPacketQueueUsed <= nextPacketQueue.Length
      modifies this`info, this`scramble, this`serverCapabilities, this`localErrcode
      ensures State() == GreetingRead(old(State()), p, at) && |scramble| == 20
    {
      hide Types.BitSet, UnpackInt, UnpackUint16;
      serverCapabilities := UnpackUint16(p, at + 13);
      if !Types.BitSet(UnpackInt(p, at + 13, 2), PROTOCOL_41) {
        localErrcode := NoOldAuth;
      }
      info := info.(serverStatus := UnpackUint16(p, at + 16));
      scramble := p[at + 4..at + 12] + p[at + 31..at + 43];
    }

    method HandshakeResponse()
      requires nextPacketQueueUsed == 0 < nextPacketQueue.Length
      requires |scramble| == 20 && |credentials.pass| < 0x1_0000_0000
      modifies this, nextPacketQueue
      ensures nextPacketQueueUsed <= 1 && State() == Respond(old(State()))
    {
      hide Capabilities, Scramble.Reply;
      var capabilities := Capabilities(serverCapabilities, credentials.capabilities);
      var packet := Le(capabilities, 4) + Le(DEFAULT_SIZE, 4) + [0] + seq(23, _ => 0) + credentials.user + [0];
      if credentials.pass != [] {
        var reply := new Fips180.octet[20];
        var ret := Scramble.ScramblePassword(ToOctets(credentials.pass), ToOctets(scramble), reply);
        if ret != Scramble.Ok {
          localErrcode := BadScramble;
          return;
        }
        assert reply[..] == reply[..20];
        packet := packet + ([20] + FromOctets(reply[..]));
      } else {
        packet := packet + [0];
      }
      SendData(packet + credentials.schema + [0]);
    }

    // attachsql_send_data and the push behind it.
    method SendData(packet: seq<byte>)
      requires nextPacketQueueUsed == 0 < nextPacketQueue.Length
      modifies this, nextPacketQueue
      ensures nextPacketQueueUsed <= 1
      ensures State() == Push(old(State()).(number := (old(packetNumber) + 1) % 0x100, command := ReadResponse,
                                            answer := packet), Response)
    {
      packetNumber := (packetNumber + 1) % 0x100;
      commandStatus := ReadResponse;
      answer := packet;
      PacketQueuePush(Response);
    }

    method DispatchPacket(k: Kind, p: seq<byte>)
      requires AtPayload(p)
      modifies this, readBuffer, nextPacketQueue
      ensures Did(Dispatch(old(State()), k, p), old(readBuffer.Queue()), old(readBuffer.write))
      ensures readBuffer.data == old(readBuffer.data)
    {
      hide ReadHandshake, ReadResponsePacket, ReadPrepare, ReadParameter, ReadPrepareColumn, ReadColumnPacket,
        ReadRowPacket, Sound, Abs, ApplyFifo, Did, AtPayload;
      match k {
        case Handshake => PacketReadHandshake(p);
        case Response => PacketReadResponse(p);
        case PrepareResponse => PacketReadPrepareResponse(p);
        case PrepareParameter => PacketReadPrepareParameter(p);
        case PrepareColumn => PacketReadPrepareColumn(p);
        case Column => PacketReadColumn(p);
        case Row => PacketReadRow(p);
      }
    }

    // ---------------------------------------------------------------- the loop

    // The object has come to state c, short of a packet that was too short; its buffer holds `write` bytes or none.
    ghost predicate After(c: Con, write: nat)
      reads this, readBuffer, readBuffer.data, nextPacketQueue
    {
      && Shaped() && overrun == c.core.fault
      && (!overrun ==> View() == c && readBuffer.write == if c.unread == [] then 0 else write)
    }

    // The packet is in sequence: steps over its header and has its payload handled.
    method TakePayload(kind: Kind, packetSize: nat)
      requires Shaped() && !overrun && nextPacketQueueUsed == 0
      requires Whole(readBuffer.Queue().unread) && packetSize == UnpackInt(readBuffer.Queue().unread, 0, 3)
      modifies this, readBuffer, nextPacketQueue
      ensures readBuffer.data == old(readBuffer.data)
      ensures var b := old(readBuffer.Queue().unread); var p := Payload(b);
              var f := Protocol.Frame.Frame(kind, old(packetNumber), p);
              var out := Dispatch(old(State()).(log := old(log) + [f]), kind, p);
              After(if out.held then Con(out.core, b[4..], |p|) else Con(out.core, b[4 + |p|..], 0),
                    old(readBuffer.write))
    {
      hide Dispatch, Sound, Abs, ApplyFifo, UnpackInt;
      var b := readBuffer.UnreadBytes();
      FrameThenEnd(readBuffer.Queue(), packetSize);
      readBuffer.BeginPacket(packetSize);
      var p := b[4..4 + packetSize];
      log := log + [Protocol.Frame.Frame(kind, packetNumber, p)];
      HeldIsSome(State(), kind, p);
      DispatchPacket(kind, p);
    }

    // The first packet of the buffer is whole: takes it, and tells whether the loop is to be left.
    method TakePacket(kind: Kind, packetSize: nat) returns (leave: bool)
      requires Valid() && Ready(View()) && packetSize == UnpackInt(View().unread, 0, 3) && kind == Top(Expected())
      modifies this, readBuffer, nextPacketQueue
      ensures After(ProcessOne(old(View())), old(readBuffer.write)) && readBuffer.data == old(readBuffer.data)
      ensures leave && !overrun ==> nextPacketQueueUsed == 0
    {
      hide Dispatch, Sound, Abs, Inv, UnpackInt, ProcessOne, Protocol.Expected;
      RowEmptiesQueue(View());
      OneTurn(View(), kind, Protocol.Expected(State(), kind));
      var b := readBuffer.UnreadBytes();
      CountAndPop(kind);
      if packetNumber != b[3] {
        Refuse();
        return true;
      }
      TakePayload(kind, packetSize);
      leave := kind.Row?;
    }

    method CountAndPop(kind: Kind)
      requires 0 < nextPacketQueueUsed <= nextPacketQueue.Length
      modifies this`packetNumber, this`nextPacketQueueUsed
      ensures nextPacketQueueUsed == old(nextPacketQueueUsed) - 1
      ensures State()
              == old(State()).(queue := Popped(old(Expected())), number := Protocol.Expected(old(State()), kind))
    {
      if kind != Handshake {
        packetNumber := (packetNumber + 1) % 0x100;
      }
      var _ := PacketQueuePop();
    }

    // Out of sequence.
    method Refuse()
      requires nextPacketQueueUsed <= nextPacketQueue.Length
      modifies this`localErrcode, this`commandStatus, this`nextPacketQueueUsed
      ensures nextPacketQueueUsed == 0
      ensures State() == old(State()).(queue := [], error := OutOfSequence, command := ReadFailed)
    {
      localErrcode := OutOfSequence;
      commandStatus := ReadFailed;
      nextPacketQueueUsed := 0;
    }

    /** The loop does what Process says: it goes on as long as a packet is expected and is there as a whole. */
    method ProcessPackets() returns (stopped: bool)
      requires Valid() && !overrun
      modifies this, readBuffer, nextPacketQueue
      ensures After(Process(old(View())), old(readBuffer.write)) && readBuffer.data == old(readBuffer.data)
      ensures !overrun ==> Valid()
    {
      hide ProcessOne, Inv, Sound, Abs, UnpackInt;
      ghost var goal, write := Process(View()), readBuffer.write;
      var kind := PacketQueuePeek();
      while kind != None
        invariant Valid() && !overrun && Process(View()) == goal && readBuffer.data == old(readBuffer.data)
        invariant readBuffer.write == if readBuffer.Queue().unread == [] then 0 else write
        invariant kind == if Expected() == [] then None else Some(Top(Expected()))
        decreases |View().unread|, nextPacketQueueUsed
      {
        var dataSize := readBuffer.UnreadData();
        if dataSize < 4 {
          return false;
        }
        var b := readBuffer.UnreadBytes();
        var packetLen := UnpackInt(b, 0, 3);
        if packetLen + 4 > dataSize {
          return false;
        }
        InvStep(View());
        Shrinks(View());
        ghost var next := ProcessOne(View());
        stopped := TakePacket(kind.value, packetLen);
        if overrun {
          FaultStops(next);
          return;
        }
        if stopped {
          return;
        }
        kind := PacketQueuePeek();
      }
      return false;
    }

    // ---------------------------------------------------------------- the library's calls

    // on_alloc: how much may be read; the buffer grows where that is too little.
    method OnAlloc(suggested: nat) returns (room: nat)
      requires Valid() && readBuffer.read + readBuffer.used <= readBuffer.data.Length
      modifies readBuffer
      ensures Valid() && View() == old(View()) && (readBuffer.data == old(readBuffer.data) || fresh(readBuffer.data))
      ensures readBuffer.write == old(readBuffer.write) && readBuffer.write + room <= readBuffer.data.Length
      ensures room >= old(readBuffer.data.Length) - old(readBuffer.read) - old(readBuffer.used)
    {
      hide Inv, Sound, Abs;
      room := readBuffer.Alloc(suggested);
    }

    /** attachsql_read_data_cb: what has been read is put into the buffer, and all packets in it are processed. */
    method Receive(bytes: seq<byte>) returns (stopped: bool)
      requires Valid() && !overrun && readBuffer.write + |bytes| <= readBuffer.data.Length
      modifies this, readBuffer, readBuffer.data, nextPacketQueue
      ensures After(Deliver(old(View()), bytes), old(readBuffer.write) + |bytes|)
      ensures readBuffer.data == old(readBuffer.data)
      ensures !overrun ==> Valid()
    {
      hide Process, Inv, Sound, Abs;
      InvAppended(View(), bytes);
      AppendedFifo(readBuffer.Queue(), bytes);
      readBuffer.MoveWrite(bytes);
      stopped := ProcessPackets();
    }

    method ReadFails()
      requires Shaped()
      modifies this
      ensures Shaped() && View() == ReadFailure(old(View())) && readBuffer.write == old(readBuffer.write)
      ensures old(Valid() && !overrun) ==> Valid()
    {
      hide Sound, Abs;
      localErrcode := NetReadError;
      commandStatus := ReadFailed;
      nextPacketQueueUsed := 0;
      status := NetError;
    }

    method ResetInternals()
      requires nextPacketQueueUsed <= nextPacketQueue.Length
      modifies this`result, this`info, this`localErrcode, this`packetNumber
      ensures State() == Reset(old(State())).(error := Ok, number := 0)
    {
      result := result.(currentColumn := 0);
      info := NO_INFO;
      localErrcode := Ok;
      packetNumber := 0;
    }

    // broken: uv_write fails at once.
    method CommandSend(command: ClientCommand, broken: bool) returns (ret: Command)
      requires Shaped() && nextPacketQueueUsed < nextPacketQueue.Length
      modifies this, nextPacketQueue
      ensures Shaped() && readBuffer.write == old(readBuffer.write) && allRowsBuffered == old(allRowsBuffered)
      ensures View() == if broken then CommandFailure(old(View()), command)
                        else Protocol.CommandSend(old(View()), command)
      ensures ret == if broken then SendFailed else Sent
      ensures old(Valid() && Enabled(View(), Event.Command(command))) ==> Valid()
    {
      hide Inv, Sound, Abs, Enabled, Protocol.CommandSend, CommandFailure;
      CommandKeeps(View(), command);
      if broken {
        BreakCommand(command);
        return SendFailed;
      }
      SendCommand(command);
      return Sent;
    }

    method BreakCommand(command: ClientCommand)
      requires nextPacketQueueUsed <= nextPacketQueue.Length
      modifies this
      ensures nextPacketQueueUsed == 0 && allRowsBuffered == old(allRowsBuffered)
      ensures State() == CommandFailure(Con(old(State()), [], 0), command).core
      ensures overrun == old(overrun)
    {
      if command == StmtPrepare {
        stmt := NEW_STMT;
      }
      ResetInternals();
      localErrcode := NetWriteError;
      commandStatus := SendFailed;
      nextPacketQueueUsed := 0;
    }

    // The state after the write: what is reset, and what is expected.
    method SendCommand(command: ClientCommand)
      requires nextPacketQueueUsed < nextPacketQueue.Length
      modifies this, nextPacketQueue
      ensures nextPacketQueueUsed <= nextPacketQueue.Length && allRowsBuffered == old(allRowsBuffered)
      ensures State() == Protocol.CommandSend(Con(old(State()), [], 0), command).core
      ensures overrun == old(overrun)
    {
      if command == StmtPrepare {
        stmt := NEW_STMT;
      }
      ResetInternals();
      if command == StmtPrepare {
        PacketQueuePush(PrepareResponse);
      } else if command == StmtReset || command == StmtClose {
      } else {
        PacketQueuePush(Response);
      }
      commandStatus := Sent;
      status := Busy;
    }

    method OnWrite(failed: bool)
      requires Shaped()
      modifies this
      ensures Shaped() && View() == if failed then WriteFailure(old(View())) else Written(old(View()))
      ensures readBuffer.write == old(readBuffer.write)
      ensures old(Valid() && Enabled(View(), if failed then WriteBroken else WriteDone)) ==> Valid()
    {
      hide Sound, Abs;
      if nextPacketQueueUsed == 0 {
        status := Idle;
        commandStatus := Eof;
      }
      if failed {
        localErrcode := NetWriteError;
        commandStatus := SendFailed;
        nextPacketQueueUsed := 0;
        status := NetError;
      }
    }

    /** The row in the buffer is given up, and the next one is read if it is already there. */
    method GetNextRow() returns (current: Command)
      requires Valid() && Enabled(View(), NextRow)
      modifies this, readBuffer, nextPacketQueue
      ensures After(Protocol.GetNextRow(old(View())), old(readBuffer.write)) && readBuffer.data == old(readBuffer.data)
      ensures !overrun ==> Valid() && current == commandStatus
    {
      hide Process, Inv, Sound, Abs;
      InvNextRow(View());
      HasRow(View());
      EndedFifo(readBuffer.Queue());
      PacketReadEnd();
      PacketQueuePush(Row);
      commandStatus := ReadRow;
      NothingLeft(View());
      var stopped := ProcessPackets();
      current := commandStatus;
    }

    method CommandNextResult() returns (more: bool)
      requires Shaped() && nextPacketQueueUsed < nextPacketQueue.Length
      modifies this, nextPacketQueue
      ensures more <==> HasNext(old(View()))
      ensures Shaped() && View() == if more then NextResult(old(View())) else old(View())
      ensures readBuffer.write == old(readBuffer.write)
      ensures old(Valid() && (!HasNext(View()) || Enabled(View(), MoreResults))) ==> Valid()
    {
      hide Inv, Sound, Abs, Types.BitSet, Enabled, NextResult;
      NextResultKeeps(View());
      more := Types.BitSet(info.serverStatus, MORE_RESULTS);
      if more {
        AwaitNext();
      }
    }

    method AwaitNext()
      requires nextPacketQueueUsed < nextPacketQueue.Length
      modifies this, nextPacketQueue
      ensures nextPacketQueueUsed <= nextPacketQueue.Length
      ensures State() == NextResult(Con(old(State()), [], 0)).core && overrun == old(overrun)
    {
      result := result.(currentColumn := 0);
      info := NO_INFO;
      PacketQueuePush(Response);
      commandStatus := ReadResponse;
      status := Busy;
    }

    /** Reports an idle connection's row, end, error or connection; on the latter a queued query is sent.  The assertion
        is reached exactly where a row is awaited, or was refused, or a send has failed at once, and the connection
        counts
        as idle all the same. */
    method Poll(broken: bool) returns (r: Polled)
      requires Valid() && !overrun
      modifies this, nextPacketQueue
      ensures Valid()
      ensures var sent := old(Protocol.Poll(State())).PollConnected? && queuedQuery.Some?;
              && View() == (if !sent then old(View())
                            else if broken then CommandFailure(old(View()), queuedQuery.value)
                            else Protocol.CommandSend(old(View()), queuedQuery.value))
              && r == (if !sent then old(Protocol.Poll(State())) else if broken then PollError else PollProcessing)
      ensures allRowsBuffered == (old(allRowsBuffered) || r.PollEof?)
      ensures var sent := old(status.Idle? && info.errno == 0 && commandStatus.Connected?) && queuedQuery.Some?;
              && (r.PollNotConnected? <==> old(status.NotConnected?))
              && (r.PollConnecting? <==> old(status.Connecting?))
              && (r.PollProcessing? <==> old(status.Busy?) || (sent && !broken))
              && (r.PollError? <==> old(status.ConnectFailed? || status.NetError? || (status.Idle? && info.errno != 0))
                                    || (sent && broken))
              && (r.PollEof? <==> old(status.Idle? && info.errno == 0 && commandStatus.Eof?))
      ensures r.PollRowReady? <==>
                status.Idle? && nextPacketQueueUsed == 0 && View().toEnd > 0
                && result.row == Some(View().unread[..View().toEnd])
      ensures r.PollAsserts? <==>
                old(status.Idle? && info.errno == 0
                    && (nextPacketQueueUsed > 0 || commandStatus.ReadFailed? || commandStatus.SendFailed?))
    {
      hide Sound, Abs;
      match status {
        case NotConnected => r := PollNotConnected;
        case Connecting => r := PollConnecting;
        case ConnectFailed => r := PollError;
        case Busy => r := PollProcessing;
        case NetError => r := PollError;
        case Idle =>
          if info.errno != 0 {
            r := PollError;
          } else if commandStatus == Eof {
            allRowsBuffered := true;
            r := PollEof;
          } else if commandStatus == RowInBuffer {
            r := PollRowReady;
          } else if commandStatus == Connected {
            r := ConnectQuery(broken);
          } else {
            r := PollAsserts;
          }
      }
    }

    // attachsql_connect_query, if there is a query to be sent.
    method ConnectQuery(broken: bool) returns (r: Polled)
      requires Valid() && !overrun && status.Idle? && commandStatus.Connected?
      modifies this, nextPacketQueue
      ensures Valid()
      ensures if queuedQuery.None? then View() == old(View()) && r == PollConnected
              else if broken then View() == CommandFailure(old(View()), queuedQuery.value) && r == PollError
              else View() == Protocol.CommandSend(old(View()), queuedQuery.value) && r == PollProcessing
      ensures allRowsBuffered == old(allRowsBuffered)
    {
      hide Sound, Abs;
      match queuedQuery {
        case Some(command) =>
          var ret := CommandSend(command, broken);
          r := if ret == SendFailed then PollError else PollProcessing;
        case None =>
          r := PollConnected;
      }
    }
  }
}
