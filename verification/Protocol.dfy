/** The connection as a state machine: framing, dispatch and packet handlers of src/net.cc, commands of
    src/command.cc. */
module Protocol {
  import opened Options
  import opened Bytes
  import opened Pack
  import opened Types
  import Buffers
  import Fips180
  import Scramble

  // The packet types that can be expected; the stack of them is next_packet_queue.
  datatype Kind = Handshake | Response | PrepareResponse | PrepareParameter | PrepareColumn | Column | Row

  datatype Status = NotConnected | Connecting | ConnectFailed | Busy | Idle | NetError

  datatype Command =
    | Eof | Connected | Sent | ReadResponse | ReadColumn | ReadRow | ReadFailed | RowInBuffer
    | ReadStmtParam | ReadStmtColumn | SendFailed

  datatype ErrorCode = Ok | OutOfSequence | BadProtocol | NoOldAuth | BadScramble | NetReadError | NetWriteError

  // A packet that was taken from the stream and dispatched.
  datatype Frame = Frame(kind: Kind, number: byte, payload: seq<byte>)

  datatype Info = Info(affectedRows: nat, insertId: nat, serverStatus: uint16, warnings: uint16, errno: uint16)

  // result_t; row is None where row_data is NULL.
  datatype Result = Result(columnCount: uint16, currentColumn: uint16, row: Option<seq<byte>>)

  datatype Stmt = Stmt(
    id: uint32, columnCount: uint16, currentColumn: uint16, paramCount: uint16, currentParam: uint16, prepared: bool)

  // Whom to connect as; the strings are C strings without their NUL, and no schema is an empty one.
  datatype Credentials = Credentials(user: seq<byte>, pass: seq<byte>, schema: seq<byte>, capabilities: bv32)

  const NEW_STMT := Stmt(0, 0, 0, 0, 0, false)
  const NO_INFO := Info(0, 0, 0, 0, 0)

  // answer is the last handshake response that was sent.
  // fault: a packet was shorter than what the code reads of it, and what follows is not defined.
  datatype Core = Core(
    queue: seq<Kind>, number: byte, status: Status, command: Command, error: ErrorCode,
    info: Info, result: Result, stmt: Stmt,
    login: Credentials, scramble: seq<byte>, serverCapabilities: uint16, answer: seq<byte>,
    log: seq<Frame>, fault: bool)

  // unread is what the read buffer holds; its first toEnd bytes are the rest of the current packet.
  datatype Con = Con(core: Core, unread: seq<byte>, toEnd: nat)

  const MAX_SERVER_VERSION_LEN := 32
  const MORE_RESULTS := 3  // the number of the bit in server_status
  const PROTOCOL_41 := 9   // and of that one in the capabilities

  // ---------------------------------------------------------------- the stack

  function Push(c: Core, k: Kind): Core {
    c.(queue := c.queue + [k])
  }

  function Top(q: seq<Kind>): Kind
    requires q != []
  {
    q[|q| - 1]
  }

  function Popped(q: seq<Kind>): seq<Kind>
    requires q != []
  {
    q[..|q| - 1]
  }

  // ---------------------------------------------------------------- the handlers

  // held: the read pointer was left at the payload, the packet is not over yet.
  datatype Outcome = Outcome(core: Core, held: bool)

  function Done(c: Core): Outcome { Outcome(c, false) }
  function Fault(c: Core): Outcome { Outcome(c.(fault := true), false) }

  // The command is over.
  function Finished(c: Core): Core {
    c.(command := Eof, status := Idle)
  }

  function Incremented(n: uint16): uint16 {
    (n + 1) % 0x1_0000
  }

  function ReadOk(c: Core, p: seq<byte>): Outcome {
    if !HasLength(p, 1) then Fault(c)
    else
      var affected := UnpackLength(p, 1);
      var at := 1 + affected.bytes;
      if !HasLength(p, at) then Fault(c)
      else
        var insert := UnpackLength(p, at);
        var next := at + insert.bytes;
        if next + 4 > |p| then Fault(c)
        else
          Done(c.(info := Info(affected.value, insert.value, UnpackUint16(p, next), UnpackUint16(p, next + 2),
                               c.info.errno),
                  command := if c.status.Connecting? then Connected else Eof,
                  status := Idle))
  }

  function ReadError(c: Core, p: seq<byte>): Outcome {
    if |p| < 9 then Fault(c)
    else
      Done(c.(info := c.info.(errno := UnpackUint16(p, 1)),
              status := if c.command.ReadResponse? then ConnectFailed else Idle,
              queue := [],
              command := Eof))
  }

  function ReadEof(c: Core, p: seq<byte>): Outcome {
    if |p| < 5 then Fault(c)
    else
      var d := c.(info := c.info.(warnings := UnpackUint16(p, 1), serverStatus := UnpackUint16(p, 3)));
      if c.command.ReadColumn? then Done(Push(d.(command := ReadRow), Row))
      else if c.command.ReadStmtParam? && c.stmt.columnCount > 0 then
        Done(Push(d.(command := ReadStmtColumn), PrepareColumn))
      else Done(Finished(d))
  }

  function ReadResult(c: Core, p: seq<byte>): Outcome {
    if !HasLength(p, 0) then Fault(c)
    else
      var count := UnpackLength(p, 0).value % 0x1_0000;
      Done(Push(c.(result := c.result.(columnCount := count), command := ReadColumn), Column))
  }

  function ReadResponsePacket(c: Core, p: seq<byte>): Outcome {
    if p == [] then Fault(c)
    else if p[0] == 0x00 then ReadOk(c, p)
    else if p[0] == 0xff then ReadError(c, p)
    else if p[0] == 0xfe then ReadEof(c, p)
    else ReadResult(c, p)
  }

  function ReadPrepare(c: Core, p: seq<byte>): Outcome {
    if p == [] then Fault(c)
    else if p[0] != 0x00 then ReadResponsePacket(c, p)
    else if |p| < 12 then Fault(c)
    else
      var stmt := c.stmt.(id := UnpackUint32(p, 1), columnCount := UnpackUint16(p, 5),
                          paramCount := UnpackUint16(p, 7), prepared := true);
      var d := c.(stmt := stmt, info := c.info.(warnings := UnpackUint16(p, 10)));
      if stmt.paramCount > 0 then Done(Push(d.(command := ReadStmtParam), PrepareParameter))
      else if stmt.columnCount > 0 then Done(Push(d.(command := ReadStmtColumn), PrepareColumn))
      else Done(Finished(d))
  }

  function ReadParameter(c: Core): Outcome {
    var d := c.(stmt := c.stmt.(currentParam := Incremented(c.stmt.currentParam)));
    Done(Push(d, if d.stmt.currentParam == d.stmt.paramCount then Response else PrepareParameter))
  }

  function ReadPrepareColumn(c: Core): Outcome {
    var d := c.(stmt := c.stmt.(currentColumn := Incremented(c.stmt.currentColumn)));
    Done(Push(d, if d.stmt.currentColumn == d.stmt.columnCount then Response else PrepareColumn))
  }

  function ReadColumnPacket(c: Core): Outcome {
    var d := c.(result := c.result.(currentColumn := Incremented(c.result.currentColumn)));
    Done(Push(d, if d.result.currentColumn == d.result.columnCount then Response else Column))
  }

  function ReadRowPacket(c: Core, p: seq<byte>): Outcome {
    if p == [] then Fault(c)
    else if p[0] == 0xfe then ReadResponsePacket(c.(result := c.result.(row := None)), p)
    else Outcome(c.(result := c.result.(row := Some(p)), command := RowInBuffer, status := Idle), true)
  }

  // The length of the string that begins at p: up to its NUL, but at most `most`.
  function StringLength(s: seq<byte>, p: nat, most: nat): (n: nat)
    requires p <= |s|
    ensures n <= most && p + n <= |s|
    decreases most
  {
    if most == 0 || p == |s| || s[p] == 0 then 0 else 1 + StringLength(s, p + 1, most - 1)
  }

  // A refused connection (an error packet in place of the handshake) is not modelled: the code would read on behind it.
  function ReadHandshake(c: Core, p: seq<byte>): Outcome {
    if p == [] || p[0] == 0xff then Fault(c)
    else if p[0] != 10 then Outcome(c.(error := BadProtocol), true)
    else
      var at := 2 + StringLength(p, 1, MAX_SERVER_VERSION_LEN - 1);
      if at + 43 > |p| then Fault(c)
      else
        Done(Respond(GreetingRead(c, p, at)))
  }

  // The fields behind the server version, which begin at `at`.
  function GreetingRead(c: Core, p: seq<byte>, at: nat): Core
    requires at + 43 <= |p|
  {
    c.(scramble := p[at + 4..at + 12] + p[at + 31..at + 43],
       serverCapabilities := UnpackUint16(p, at + 13),
       error := if BitSet(UnpackInt(p, at + 13, 2), PROTOCOL_41) then c.error else NoOldAuth,
       info := c.info.(serverStatus := UnpackUint16(p, at + 16)))
  }

  function ToOctets(s: seq<byte>): (o: seq<Fips180.octet>)
    ensures |o| == |s|
  {
    seq(|s|, i requires 0 <= i < |s| => s[i] as Fips180.octet)
  }

  function FromOctets(o: seq<Fips180.octet>): (s: seq<byte>)
    ensures |s| == |o|
  {
    seq(|o|, i requires 0 <= i < |o| => o[i] as byte)
  }

  // scramble_password
  function ScrambledPassword(pass: seq<byte>, scramble: seq<byte>): (s: seq<byte>)
    ensures |s| == 20
  {
    FromOctets(Scramble.Reply(ToOctets(pass), ToOctets(scramble)))
  }

  // ATTACHSQL_CAPABILITY_CLIENT and ATTACHSQL_CAPABILITY_MULTI_RESULTS
  const CAPABILITY_CLIENT: bv32 := 0x8a20f
  const CAPABILITY_MULTI_RESULTS: bv32 := 0x20000
  function Capabilities(server: uint16, client: bv32): uint32 {
    (((server as bv32) & CAPABILITY_CLIENT) | CAPABILITY_MULTI_RESULTS | client) as uint32
  }

  function ResponsePacket(c: Core): seq<byte> {
    Le(Capabilities(c.serverCapabilities, c.login.capabilities), 4) + Le(Buffers.DEFAULT_SIZE, 4) + [0]
    + seq(23, _ => 0) + c.login.user + [0]
    + (if c.login.pass == [] then [0] else [20] + ScrambledPassword(c.login.pass, c.scramble))
    + c.login.schema + [0]
  }

  // A password cannot be scrambled with nothing.
  predicate CanRespond(login: Credentials, scramble: seq<byte>) {
    login.pass == [] || (|scramble| == 20 && scramble[0] != 0)
  }

  // attachsql_handshake_response and attachsql_send_data.
  function Respond(c: Core): Core {
    if !CanRespond(c.login, c.scramble) then c.(error := BadScramble)
    else
      Push(c.(number := (c.number + 1) % 0x100, command := ReadResponse, answer := ResponsePacket(c)), Response)
  }

  function Dispatch(c: Core, k: Kind, p: seq<byte>): Outcome {
    match k
    case Handshake => ReadHandshake(c, p)
    case Response => ReadResponsePacket(c, p)
    case PrepareResponse => ReadPrepare(c, p)
    case PrepareParameter => ReadParameter(c)
    case PrepareColumn => ReadPrepareColumn(c)
    case Column => ReadColumnPacket(c)
    case Row => ReadRowPacket(c, p)
  }

  // ---------------------------------------------------------------- framing

  // A whole packet is there.
  predicate Whole(b: seq<byte>) {
    4 <= |b| && 4 + UnpackInt(b, 0, 3) <= |b|
  }

  function Payload(b: seq<byte>): (p: seq<byte>)
    requires Whole(b)
    ensures |p| == UnpackInt(b, 0, 3)
  {
    b[4..4 + UnpackInt(b, 0, 3)]
  }

  predicate Ready(c: Con) {
    c.core.queue != [] && !c.core.fault && Whole(c.unread)
  }

  // The number a packet of this kind must have.
  function Expected(c: Core, k: Kind): byte {
    if k.Handshake? then c.number else (c.number + 1) % 0x100
  }

  // Out of sequence: the packet stays where it is, and nothing more is expected.
  function Refused(c: Core): Core
    requires c.queue != []
  {
    c.(number := Expected(c, Top(c.queue)), queue := [], error := OutOfSequence, command := ReadFailed)
  }

  function Taken(c: Core, p: seq<byte>): Outcome
    requires c.queue != []
  {
    var k := Top(c.queue);
    var number := Expected(c, k);
    Dispatch(c.(queue := Popped(c.queue), number := number, log := c.log + [Frame(k, number, p)]), k, p)
  }

  // One turn of the loop.
  function ProcessOne(c: Con): Con
    requires Ready(c)
  {
    if c.unread[3] != Expected(c.core, Top(c.core.queue)) then c.(core := Refused(c.core))
    else
      var p := Payload(c.unread);
      var out := Taken(c.core, p);
      if out.held then Con(out.core, c.unread[4..], |p|) else Con(out.core, c.unread[4 + |p|..], 0)
  }

  // The loop of attachsql_con_process_packets.
  function Process(c: Con): Con
    decreases |c.unread|, |c.core.queue|
  {
    if Ready(c) then Process(ProcessOne(c)) else c
  }

  // ---------------------------------------------------------------- events

  function Appended(c: Con, b: seq<byte>): Con {
    c.(unread := c.unread + b)
  }

  // attachsql_read_data_cb; with no bytes it is attachsql_check_for_data_cb.
  function Deliver(c: Con, b: seq<byte>): Con {
    Process(Appended(c, b))
  }

  // Any is every command that is not named; COM_STMT_SEND_LONG_DATA is not one of them.
  datatype ClientCommand = Any | StmtPrepare | StmtReset | StmtClose

  // What a command and the next result both reset.
  function Reset(c: Core): Core {
    c.(result := c.result.(currentColumn := 0), info := NO_INFO)
  }

  // attachsql_command_send, and for StmtPrepare the new statement object of attachsql_statement_prepare.
  function CommandSend(c: Con, command: ClientCommand): Con {
    var d := Reset(c.core).(error := Ok, number := 0);
    var e := match command
      case StmtPrepare => Push(d.(stmt := NEW_STMT), PrepareResponse)
      case StmtReset => d
      case StmtClose => d
      case Any => Push(d, Response);
    c.(core := e.(command := Sent, status := Busy))
  }

  // attachsql_command_send, uv_write having failed at once: nothing is pushed, and the status is left alone.
  function CommandFailure(c: Con, command: ClientCommand): Con {
    var d := Reset(c.core).(error := NetWriteError, number := 0, command := SendFailed, queue := []);
    c.(core := if command.StmtPrepare? then d.(stmt := NEW_STMT) else d)
  }

  // attachsql_buffer_packet_read_end
  function PacketReadEnd(c: Con): Con
    requires c.toEnd <= |c.unread|
  {
    c.(unread := c.unread[c.toEnd..], toEnd := 0)
  }

  // attachsql_get_next_row up to its call of the loop.
  function ExpectRow(c: Con): Con
    requires c.toEnd <= |c.unread|
  {
    var d := PacketReadEnd(c);
    d.(core := Push(d.core, Row).(command := ReadRow))
  }

  function GetNextRow(c: Con): Con
    requires c.toEnd <= |c.unread|
  {
    Process(ExpectRow(c))
  }

  predicate HasNext(c: Con) {
    BitSet(c.core.info.serverStatus, MORE_RESULTS)
  }

  // attachsql_command_next_result where it returns true.
  function NextResult(c: Con): Con {
    c.(core := Push(Reset(c.core), Response).(command := ReadResponse, status := Busy))
  }

  // on_write, the write having succeeded.
  function Written(c: Con): Con {
    if c.core.queue == [] then c.(core := Finished(c.core)) else c
  }

  // attachsql_read_data_cb, the read having failed.
  function ReadFailure(c: Con): Con {
    c.(core := c.core.(error := NetReadError, command := ReadFailed, queue := [], status := NetError))
  }

  // on_write, the write having failed.
  function WriteFailure(c: Con): Con {
    c.(core := c.core.(error := NetWriteError, command := SendFailed, queue := [], status := NetError))
  }

  // A connection just made, waiting for the handshake.
  function Opened(login: Credentials): Con {
    Con(Core([Handshake], 0, Connecting, Eof, Ok, NO_INFO, Result(0, 0, None), NEW_STMT, login, [], 0, [], [], false),
        [], 0)
  }

  // ---------------------------------------------------------------- polling

  datatype Polled =
    | PollNotConnected | PollConnecting | PollError | PollProcessing | PollEof | PollRowReady | PollConnected
    | PollAsserts

  // The switch of attachsql_connect_poll, rows not being buffered.
  function Poll(c: Core): Polled {
    match c.status
    case NotConnected => PollNotConnected
    case Connecting => PollConnecting
    case ConnectFailed => PollError
    case Busy => PollProcessing
    case NetError => PollError
    case Idle =>
      if c.info.errno != 0 then PollError
      else if c.command.Eof? then PollEof
      else if c.command.RowInBuffer? then PollRowReady
      else if c.command.Connected? then PollConnected
      else PollAsserts
  }
}
