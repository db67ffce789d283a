/** What the packets dispatched since the last command tell about the state of the connection, over all runs. */
module History {
  import opened Options
  import opened Bytes
  import opened Pack
  import opened Types
  import Literals
  import opened Protocol
  import opened Safety

  // ---------------------------------------------------------------- marks

  // since: how many packets had been dispatched at the last command or next result; resumed: it was a next result.
  datatype Marks = Marks(since: nat, resumed: bool)

  const NO_MARKS := Marks(0, false)

  function MarksAfter(m: Marks, c: Con, e: Event): Marks {
    match e
    case Command(_) => Marks(|c.core.log|, false)
    case SendBroken(_) => Marks(|c.core.log|, false)
    case MoreResults => Marks(|c.core.log|, true)
    case _ => m
  }

  function RunMarks(c: Con, m: Marks, events: seq<Event>): Marks
    requires Inv(c) && AllEnabled(c, events)
    decreases |events|
  {
    if events == [] then m
    else (InvAfter(c, events[0]); RunMarks(After(c, events[0]), MarksAfter(m, c, events[0]), events[1..]))
  }

  // ---------------------------------------------------------------- what packets say

  // The packet was handled by attachsql_packet_read_response.
  predicate IsResponse(f: Frame) {
    f.payload != [] &&
    match f.kind
    case Response => true
    case PrepareResponse => f.payload[0] != 0x00
    case Row => f.payload[0] == 0xfe
    case _ => false
  }

  function GreetingStatus(p: seq<byte>): Option<uint16> {
    if p == [] || p[0] != 10 then None
    else
      var at := 2 + StringLength(p, 1, MAX_SERVER_VERSION_LEN - 1);
      if at + 43 <= |p| then Some(UnpackUint16(p, at + 16)) else None
  }

  function OkStatus(p: seq<byte>): Option<uint16> {
    if !HasLength(p, 1) then None
    else
      var at := 1 + UnpackLength(p, 1).bytes;
      if !HasLength(p, at) then None
      else
        var next := at + UnpackLength(p, at).bytes;
        if next + 4 > |p| then None else Some(UnpackUint16(p, next))
  }

  function EofStatus(p: seq<byte>): Option<uint16> {
    if |p| < 5 then None else Some(UnpackUint16(p, 3))
  }

  // The server_status in the packet, if it carries one: a greeting, an OK packet or an EOF packet.
  function StatusIn(f: Frame): Option<uint16> {
    if f.kind.Handshake? then GreetingStatus(f.payload)
    else if IsResponse(f) && f.payload[0] == 0xfe then EofStatus(f.payload)
    else if IsResponse(f) && f.payload[0] == 0x00 then OkStatus(f.payload)
    else None
  }

  function Or(status: Option<uint16>, otherwise: uint16): uint16 {
    if status.Some? then status.value else otherwise
  }

  // The last status since packet `from`, or no bit at all.
  function StatusSince(log: seq<Frame>, from: nat): uint16 {
    if |log| <= from then 0
    else Or(StatusIn(log[|log| - 1]), StatusSince(log[..|log| - 1], from))
  }

  // The number of columns in the packet, if it is a column count.
  function CountIn(f: Frame): Option<uint16> {
    if IsResponse(f) && f.payload[0] !in {0x00, 0xfe, 0xff} && HasLength(f.payload, 0)
    then Some(UnpackLength(f.payload, 0).value % 0x1_0000) else None
  }

  function LastCount(log: seq<Frame>): uint16 {
    if log == [] then 0
    else Or(CountIn(log[|log| - 1]), LastCount(log[..|log| - 1]))
  }

  // How many column definitions there are from packet `from` on, and how many column counts.
  function Definitions(log: seq<Frame>, from: nat): nat {
    if |log| <= from then 0
    else (if log[|log| - 1].kind.Column? then 1 else 0) + Definitions(log[..|log| - 1], from)
  }

  function CountPackets(log: seq<Frame>, from: nat): nat {
    if |log| <= from then 0
    else (if CountIn(log[|log| - 1]).Some? then 1 else 0) + CountPackets(log[..|log| - 1], from)
  }

  // The handshake was the last packet, so that the answer to it is being answered.
  predicate AnswersHandshake(log: seq<Frame>) {
    log != [] && log[|log| - 1].kind.Handshake?
  }

  // ---------------------------------------------------------------- the invariant

  predicate StatusKnown(c: Core, m: Marks) {
    c.info.serverStatus == StatusSince(c.log, m.since)
  }

  // With exactly one column count, that is not zero, no more columns than it says are expected.
  predicate ColumnsKnown(c: Core, m: Marks) {
    && c.result.columnCount == LastCount(c.log)
    && c.result.currentColumn == Definitions(c.log, m.since) % 0x1_0000
    && (CountPackets(c.log, m.since) == 0 ==>
          Definitions(c.log, m.since) == 0 && (c.queue != [] ==> !c.queue[0].Column?))
    && (CountPackets(c.log, m.since) == 1 && LastCount(c.log) > 0 ==>
          && Definitions(c.log, m.since) <= LastCount(c.log)
          && (c.queue != [] && c.queue[0].Column? ==> Definitions(c.log, m.since) < LastCount(c.log)))
  }

  // The next result was asked for, and nothing has come yet.
  predicate Resumed(c: Core, m: Marks) {
    m.resumed && m.since == |c.log|
  }

  predicate ResponsesKnown(c: Core, m: Marks) {
    && m.since <= |c.log|
    && (c.queue != [] ==>
          (c.command.ReadResponse? <==> c.queue[0].Response? && (Resumed(c, m) || AnswersHandshake(c.log))))
    && (Resumed(c, m) ==>
          if c.queue == [] then c.status.NetError? || (c.status.Busy? && c.command.ReadFailed?)
          else c.queue[0].Response? && c.status.Busy?)
    && (AnswersHandshake(c.log) ==>
          if c.queue == [] then (c.status.Connecting? || c.status.NetError?) && !c.command.RowInBuffer?
          else c.queue[0].Response? && c.status.Connecting?)
  }

  predicate Known(c: Core, m: Marks) {
    c.fault || (StatusKnown(c, m) && ColumnsKnown(c, m) && ResponsesKnown(c, m))
  }

  // ---------------------------------------------------------------- the handlers keep it

  // A handler that has been given the last packet of the log.
  predicate Handling(c: Core, k: Kind, p: seq<byte>) {
    && Popping(c, k) && c.log != []
    && var f := c.log[|c.log| - 1]; f.kind == k && f.payload == p
  }

  lemma OkStatusRead(c: Core, p: seq<byte>)
    ensures var d := ReadOk(c, p).core;
            !d.fault && !c.fault ==> d.info.serverStatus == Or(OkStatus(p), c.info.serverStatus)
  {
    hide UnpackLength, HasLength, UnpackUint16;
  }

  lemma EofStatusRead(c: Core, p: seq<byte>)
    ensures var d := ReadEof(c, p).core;
            !d.fault && !c.fault ==> d.info.serverStatus == Or(EofStatus(p), c.info.serverStatus)
  {
    hide UnpackUint16;
  }

  lemma ResponseStatus(c: Core, f: Frame)
    requires IsResponse(f)
    ensures var d := ReadResponsePacket(c, f.payload).core;
            !d.fault && !c.fault ==> d.info.serverStatus == Or(StatusIn(f), c.info.serverStatus)
  {
    hide ReadOk, ReadEof, OkStatus, EofStatus, UnpackLength, HasLength, UnpackUint16;
    OkStatusRead(c, f.payload);
    EofStatusRead(c, f.payload);
  }

  lemma GreetingStatusRead(c: Core, p: seq<byte>)
    ensures var d := ReadHandshake(c, p).core;
            !d.fault && !c.fault ==> d.info.serverStatus == Or(GreetingStatus(p), c.info.serverStatus)
  {
    hide UnpackUint16, StringLength, BitSet, UnpackInt, ResponsePacket;
  }

  lemma EmptyFaults(c: Core)
    ensures ReadResponsePacket(c, []).core.fault
  {
  }

  lemma DispatchStatus(c: Core, k: Kind, p: seq<byte>)
    requires Handling(c, k, p)
    ensures var d := Dispatch(c, k, p).core;
            !d.fault ==> d.info.serverStatus == Or(StatusIn(c.log[|c.log| - 1]), c.info.serverStatus)
  {
    hide ReadResponsePacket, ReadHandshake, GreetingStatus, OkStatus, EofStatus, UnpackUint16, UnpackUint32;
    var f := c.log[|c.log| - 1];
    GreetingStatusRead(c, p);
    EmptyFaults(c);
    if IsResponse(f) {
      ResponseStatus(c, f);
      ResponseStatus(c.(result := c.result.(row := None)), f);
    }
  }

  lemma ResponseColumns(c: Core, f: Frame)
    requires IsResponse(f) && c.queue == []
    ensures var d := ReadResponsePacket(c, f.payload).core;
            !d.fault && !c.fault ==>
              && d.result.columnCount == Or(CountIn(f), c.result.columnCount)
              && d.result.currentColumn == c.result.currentColumn
              && (d.queue != [] && d.queue[0].Column? <==> CountIn(f).Some?)
  {
    hide UnpackLength, HasLength, UnpackUint16;
  }

  lemma DispatchColumns(c: Core, k: Kind, p: seq<byte>)
    requires Handling(c, k, p)
    ensures var d := Dispatch(c, k, p).core; var f := c.log[|c.log| - 1];
            !d.fault ==>
              && d.result.columnCount == Or(CountIn(f), c.result.columnCount)
              && d.result.currentColumn ==
                 (if k.Column? then Incremented(c.result.currentColumn) else c.result.currentColumn)
              && (d.queue != [] && d.queue[0].Column? <==>
                    CountIn(f).Some? || (k.Column? && d.result.currentColumn != d.result.columnCount))
  {
    hide ReadResponsePacket, UnpackLength, HasLength, UnpackUint16, StringLength, BitSet, UnpackInt, ResponsePacket;
    var f := c.log[|c.log| - 1];
    EmptyFaults(c);
    if IsResponse(f) {
      ResponseColumns(c, f);
      ResponseColumns(c.(result := c.result.(row := None)), f);
    }
  }

  lemma ResponseKnows(c: Core, p: seq<byte>)
    requires c.queue == []
    ensures var d := ReadResponsePacket(c, p).core; !d.fault && !c.fault && d.queue != [] ==> !d.command.ReadResponse?
  {
    hide UnpackLength, HasLength, UnpackUint16;
  }

  lemma DispatchKnows(c: Core, k: Kind, p: seq<byte>)
    requires Handling(c, k, p) && (c.command.ReadResponse? ==> k.Response?)
    ensures var d := Dispatch(c, k, p).core;
            !d.fault && d.queue != [] ==> (d.command.ReadResponse? <==> k.Handshake?)
    ensures var d := Dispatch(c, k, p).core;
            !d.fault && k.Handshake? ==>
              d.status.Connecting? && !d.command.RowInBuffer? && (d.queue == [] || d.queue[0].Response?)
  {
    hide ReadResponsePacket, UnpackLength, HasLength, UnpackUint16, StringLength, BitSet, UnpackInt, ResponsePacket;
    ResponseKnows(c, p);
    ResponseKnows(c.(result := c.result.(row := None)), p);
  }

  lemma StatusStep(c: Core, d: Core, m: Marks, f: Frame)
    requires StatusKnown(c, m) && m.since <= |c.log| && d.log == c.log + [f]
    requires d.info.serverStatus == Or(StatusIn(f), c.info.serverStatus)
    ensures StatusKnown(d, m)
  {
    hide StatusIn;
    assert d.log[..|d.log| - 1] == c.log;
  }

  lemma ColumnsStep(c: Core, d: Core, m: Marks, f: Frame)
    requires ColumnsKnown(c, m) && m.since <= |c.log| && d.log == c.log + [f]
    requires f.kind.Column? ==> c.queue != [] && c.queue[0].Column? && CountIn(f).None?
    requires d.result.columnCount == Or(CountIn(f), c.result.columnCount)
    requires d.result.currentColumn ==
             if f.kind.Column? then Incremented(c.result.currentColumn) else c.result.currentColumn
    requires d.queue != [] && d.queue[0].Column? <==>
             CountIn(f).Some? || (f.kind.Column? && d.result.currentColumn != d.result.columnCount)
    ensures ColumnsKnown(d, m)
  {
    hide CountIn;
    assert d.log[..|d.log| - 1] == c.log;
    assert LastCount(d.log) == Or(CountIn(f), LastCount(c.log));
    assert Definitions(d.log, m.since) == Definitions(c.log, m.since) + if f.kind.Column? then 1 else 0;
    assert CountPackets(d.log, m.since) == CountPackets(c.log, m.since) + if CountIn(f).Some? then 1 else 0;
  }

  lemma KnownStep(c: Con, m: Marks)
    requires Inv(c) && Ready(c) && Known(c.core, m)
    ensures Known(ProcessOne(c).core, m)
  {
    hide Dispatch, StatusSince, LastCount, Definitions, CountPackets, StatusIn, CountIn;
    var k, p := Top(c.core.queue), Payload(c.unread);
    if c.unread[3] == Expected(c.core, k) {
      var f := Frame(k, Expected(c.core, k), p);
      var popped := c.core.(queue := Popped(c.core.queue), number := f.number, log := c.core.log + [f]);
      DispatchLogs(popped, k, p);
      DispatchStatus(popped, k, p);
      DispatchColumns(popped, k, p);
      DispatchKnows(popped, k, p);
      ColumnIsNoCount(f);
      var d := ProcessOne(c).core;
      if !d.fault {
        StatusStep(c.core, d, m, f);
        ColumnsStep(c.core, d, m, f);
      }
    }
  }

  lemma ColumnIsNoCount(f: Frame)
    ensures f.kind.Column? ==> CountIn(f).None?
  {
  }

  lemma {:induction false} KnownProcess(c: Con, m: Marks)
    requires Inv(c) && Known(c.core, m)
    ensures Known(Process(c).core, m)
    decreases |c.unread|, |c.core.queue|
  {
    hide Inv, ProcessOne, Known;
    if Ready(c) {
      InvStep(c);
      Shrinks(c);
      KnownStep(c, m);
      KnownProcess(ProcessOne(c), m);
    }
  }

  lemma NothingSince(log: seq<Frame>)
    ensures StatusSince(log, |log|) == 0 && Definitions(log, |log|) == 0 && CountPackets(log, |log|) == 0
  {
  }

  lemma KnownAfter(c: Con, m: Marks, e: Event)
    requires Inv(c) && Enabled(c, e) && Known(c.core, m)
    ensures Known(After(c, e).core, MarksAfter(m, c, e))
  {
    hide Process, StatusSince, LastCount, Definitions, CountPackets;
    NothingSince(c.core.log);
    match e
    case Chunk(b) =>
      InvAppended(c, b);
      KnownProcess(Appended(c, b), m);
    case NextRow =>
      InvNextRow(c);
      KnownProcess(ExpectRow(c), m);
    case _ =>
  }

  lemma {:induction false} KnownRun(c: Con, m: Marks, events: seq<Event>)
    requires Inv(c) && AllEnabled(c, events) && Known(c.core, m)
    ensures Inv(Run(c, events)) && Known(Run(c, events).core, RunMarks(c, m, events))
    decreases |events|
  {
    hide After, Enabled, Inv, Known, MarksAfter;
    if events != [] {
      InvAfter(c, events[0]);
      KnownAfter(c, m, events[0]);
      KnownRun(After(c, events[0]), MarksAfter(m, c, events[0]), events[1..]);
    }
  }

  lemma OpenedKnown(login: Credentials)
    ensures Inv(Opened(login)) && Known(Opened(login).core, NO_MARKS)
  {
  }

  // ---------------------------------------------------------------- errors

  // The connection waits for the first packet of an answer, or for what comes after definitions.
  predicate ExpectsResponse(c: Con) {
    !c.core.fault && c.core.queue != [] && (c.core.queue[0].Response? || c.core.queue[0].PrepareResponse?)
  }

  // A whole error packet with the number that is expected.
  predicate HasError(c: Con) {
    Whole(c.unread) && c.unread[3] == (c.core.number + 1) % 0x100
    && |Payload(c.unread)| >= 9 && Payload(c.unread)[0] == 0xff
  }

  lemma ErrorTaken(c: Con)
    requires Inv(c) && ExpectsResponse(c) && HasError(c)
    ensures var d := Process(c).core;
            && d.queue == [] && d.command.Eof? && d.info.errno == UnpackUint16(Payload(c.unread), 1)
            && d.info.serverStatus == c.core.info.serverStatus
            && d.status == (if c.core.command.ReadResponse? then ConnectFailed else Idle)
            && |d.log| == |c.core.log| + 1 && d.log[..|c.core.log|] == c.core.log
            && IsResponse(d.log[|c.core.log|]) && d.log[|c.core.log|].payload == Payload(c.unread)
  {
    hide ReadOk, ReadEof, ReadResult, UnpackUint16;
    assert ProcessOne(c).core.queue == [];
    NothingReady(ProcessOne(c));
  }

  /** In every run from the start, where a response is expected an error packet ends the command: the connection is
      failed
      if it is the first packet after next_result or answers the client's handshake response, and idle otherwise. */
  lemma ErrorExact(login: Credentials, events: seq<Event>, b: seq<byte>)
    requires Inv(Opened(login)) && AllEnabled(Opened(login), events)
    requires var c := Run(Opened(login), events); ExpectsResponse(c) && HasError(Appended(c, b))
    ensures var c := Run(Opened(login), events); var d := Deliver(c, b).core;
            && (d.status.ConnectFailed? <==>
                  Resumed(c.core, RunMarks(Opened(login), NO_MARKS, events)) || AnswersHandshake(c.core.log))
            && (d.status.ConnectFailed? || d.status.Idle?)
            && d.queue == [] && d.command.Eof?
            && var p := Payload(Appended(c, b).unread);
               var code: int := p[1] as int + 256 * p[2] as int;
               (Poll(d).PollError? <==> d.status.ConnectFailed? || code != 0)
               && (Poll(d).PollEof? <==> d.status.Idle? && code == 0)
  {
    hide Process, RunMarks, Run, ProcessOne, Inv;
    OpenedKnown(login);
    KnownRun(Opened(login), NO_MARKS, events);
    var c := Run(Opened(login), events);
    InvAppended(c, b);
    ErrorTaken(Appended(c, b));
    UnpackInt2(Payload(Appended(c, b).unread), 1);
    NoErrorResumed(c, RunMarks(Opened(login), NO_MARKS, events));
  }

  // The connection waits for the definition of a parameter or column.
  predicate ExpectsDefinition(c: Con) {
    !c.core.fault && c.core.queue != []
    && (c.core.queue[0].Column? || c.core.queue[0].PrepareParameter? || c.core.queue[0].PrepareColumn?)
  }

  // One more definition of kind k has been counted.
  predicate Counted(d: Core, c: Core, k: Kind) {
    match k
    case Column => d.result.currentColumn == Incremented(c.result.currentColumn) && d.stmt == c.stmt
    case PrepareParameter => d.stmt == c.stmt.(currentParam := Incremented(c.stmt.currentParam)) && d.result == c.result
    case PrepareColumn => d.stmt == c.stmt.(currentColumn := Incremented(c.stmt.currentColumn)) && d.result == c.result
    case _ => false
  }

  /** Where a definition is expected, an error packet is counted as one: the command goes on, and no error is
      reported. */
  lemma ErrorAsDefinition(login: Credentials, events: seq<Event>, b: seq<byte>)
    requires Inv(Opened(login)) && AllEnabled(Opened(login), events)
    requires var c := Run(Opened(login), events); ExpectsDefinition(c) && HasError(Appended(c, b))
    ensures var c := Run(Opened(login), events);
            && Ready(Appended(c, b))
            && var d := ProcessOne(Appended(c, b)).core;
               && !d.fault && |d.queue| == 1 && d.info.errno == 0 && Counted(d, c.core, c.core.queue[0])
               && d.status == c.core.status && (d.status.Busy? || d.status.Connecting?)
               && !Poll(d).PollError? && |d.log| == |c.core.log| + 1
  {
    hide Process, Run;
    OpenedKnown(login);
    RunSafe(Opened(login), events);
    InvAppended(Run(Opened(login), events), b);
  }

  // A statement that is being prepared is neither.
  lemma NoErrorResumed(c: Con, m: Marks)
    requires ExpectsResponse(c) && Known(c.core, m)
    ensures c.core.command.ReadResponse? <==> Resumed(c.core, m) || AnswersHandshake(c.core.log)
  {
  }

  // ---------------------------------------------------------------- connecting

  // As long as nothing but a greeting has been dispatched, the connection is being made.
  predicate Early(c: Core) {
    c.fault || |c.log| > 1 || (
      && c.status.Connecting? && !c.command.RowInBuffer?
      && if c.log == [] then c.queue == [] || c.queue == [Handshake]
         else c.log[0].kind.Handshake? && (c.queue == [] || c.queue == [Response]))
  }

  lemma GreetingKeepsStatus(c: Core, p: seq<byte>)
    requires c.queue == []
    ensures var d := ReadHandshake(c, p).core;
            d.status == c.status && (d.queue == [] || d.queue == [Response])
            && (d.command == c.command || d.command.ReadResponse?)
  {
    hide StringLength, BitSet, UnpackInt, UnpackUint16, ResponsePacket;
  }

  lemma EarlyStep(c: Con)
    requires Inv(c) && Ready(c) && Early(c.core)
    ensures Early(ProcessOne(c).core)
  {
    hide ReadHandshake, ReadResponsePacket, ReadPrepare, ReadParameter, ReadPrepareColumn, ReadColumnPacket,
      ReadRowPacket;
    var k, p := Top(c.core.queue), Payload(c.unread);
    var f := Frame(k, Expected(c.core, k), p);
    var popped := c.core.(queue := Popped(c.core.queue), number := f.number, log := c.core.log + [f]);
    DispatchLogs(popped, k, p);
    GreetingKeepsStatus(popped, p);
  }

  lemma {:induction false} EarlyProcess(c: Con)
    requires Inv(c) && Early(c.core)
    ensures Early(Process(c).core)
    decreases |c.unread|, |c.core.queue|
  {
    hide Inv, ProcessOne, Early;
    if Ready(c) {
      InvStep(c);
      Shrinks(c);
      EarlyStep(c);
      EarlyProcess(ProcessOne(c));
    }
  }

  lemma EarlyAfter(c: Con, e: Event)
    requires Inv(c) && Enabled(c, e) && Early(c.core) && !e.ReadBroken? && !e.WriteBroken?
    ensures Early(After(c, e).core)
  {
    hide Process;
    match e
    case Chunk(b) =>
      InvAppended(c, b);
      EarlyProcess(Appended(c, b));
    case NextRow =>
      InvNextRow(c);
      EarlyProcess(ExpectRow(c));
    case _ =>
  }

  lemma {:induction false} EarlyRun(c: Con, events: seq<Event>)
    requires Inv(c) && AllEnabled(c, events) && Early(c.core)
    requires forall i :: 0 <= i < |events| ==> !events[i].ReadBroken? && !events[i].WriteBroken?
    ensures Early(Run(c, events).core)
    decreases |events|
  {
    hide After, Enabled, Inv, Early;
    if events != [] {
      InvAfter(c, events[0]);
      EarlyAfter(c, events[0]);
      EarlyRun(After(c, events[0]), events[1..]);
    }
  }

  /** Until a second packet has been dispatched, every poll reports that the connection is being made, unless a read
      or a write has failed. */
  lemma ConnectingUntilAnswered(login: Credentials, events: seq<Event>)
    requires Inv(Opened(login)) && AllEnabled(Opened(login), events)
    requires forall i :: 0 <= i < |events| ==> !events[i].ReadBroken? && !events[i].WriteBroken?
    ensures var c := Run(Opened(login), events).core; !c.fault && |c.log| <= 1 ==> Poll(c).PollConnecting?
  {
    hide Run, AllEnabled;
    EarlyRun(Opened(login), events);
  }

  // ---------------------------------------------------------------- the escaping mode

  const NO_BACKSLASH_ESCAPES := 9

  // The mode in which attachsql_query escapes.
  function ModeOf(c: Core): Literals.Mode {
    ModeIn(c.info.serverStatus)
  }

  function ModeIn(status: uint16): Literals.Mode {
    if BitSet(status, NO_BACKSLASH_ESCAPES) then Literals.NoBackslash else Literals.Backslash
  }

  // The mode of a server with this status: SERVER_STATUS_NO_BACKSLASH_ESCAPES is 0x0200.
  function ServerMode(status: uint16): Literals.Mode {
    if status / 0x200 % 2 == 1 then Literals.NoBackslash else Literals.Backslash
  }

  lemma ModeOfStatus(status: uint16)
    ensures ModeIn(status) == ServerMode(status)
  {
    assert Pow2(9) == 0x200;
  }

  /** In every run the mode is that of the last status the server has sent since the last command or next result, and
      backslashes are used if there was none. */
  lemma ModeOverRun(login: Credentials, events: seq<Event>)
    requires Inv(Opened(login)) && AllEnabled(Opened(login), events)
    ensures var c := Run(Opened(login), events).core;
            !c.fault ==> ModeOf(c) == ServerMode(StatusSince(c.log, RunMarks(Opened(login), NO_MARKS, events).since))
  {
    hide RunMarks, Run, StatusSince, BitSet, ServerMode;
    ModeOfStatus(Run(Opened(login), events).core.info.serverStatus);
    OpenedKnown(login);
    KnownRun(Opened(login), NO_MARKS, events);
  }

  lemma NoBackslashBit()
    ensures ModeIn(0) == Literals.Backslash
  {
    assert Pow2(9) == 512;
  }

  /** After a command has failed, data is escaped with backslashes whatever the server's mode is: a server without
      backslash escapes then reads the next quoted data right exactly if nothing in it needs to be escaped. */
  lemma ModeAfterError(login: Credentials, events: seq<Event>, command: ClientCommand, b: seq<byte>, data: seq<byte>)
    requires Inv(Opened(login)) && AllEnabled(Opened(login), events)
    requires var c := Run(Opened(login), events); Enabled(c, Command(command))
    requires var d := CommandSend(Run(Opened(login), events), command); ExpectsResponse(d) && HasError(Appended(d, b))
    ensures var d := CommandSend(Run(Opened(login), events), command); var mode := ModeOf(Deliver(d, b).core);
            && mode == Literals.Backslash
            && (Literals.Read(Literals.NoBackslash, Literals.Quoted(mode, data))
                == Literals.Tokens([Literals.Str(Literals.QUOTE, data)])
                <==> forall i :: 0 <= i < |data| ==> Literals.Letter(data[i]) == Literals.NEVER)
  {
    hide Process, Run, ProcessOne, BitSet, Literals.Read, Literals.Quoted, Literals.Letter, Inv;
    OpenedKnown(login);
    KnownRun(Opened(login), NO_MARKS, events);
    var c := Run(Opened(login), events);
    InvAfter(c, Command(command));
    var d := CommandSend(c, command);
    InvAppended(d, b);
    ErrorTaken(Appended(d, b));
    NoBackslashBit();
    Literals.WrongMode(data);
  }

  // ---------------------------------------------------------------- column writes

  /** In every run, a column definition is written to a column that exists exactly if fewer definitions came since the
      last command or next result than the last column count says; so it is always with one count, that is not zero. */
  lemma ColumnWriteExact(login: Credentials, events: seq<Event>)
    requires Inv(Opened(login)) && AllEnabled(Opened(login), events)
    requires var c := Run(Opened(login), events).core; !c.fault && c.queue != [] && c.queue[0].Column?
    ensures var c := Run(Opened(login), events).core; var m := RunMarks(Opened(login), NO_MARKS, events);
            && (c.result.currentColumn < c.result.columnCount <==>
                  Definitions(c.log, m.since) % 0x1_0000 < LastCount(c.log))
            && CountPackets(c.log, m.since) > 0
            && (CountPackets(c.log, m.since) == 1 && LastCount(c.log) > 0 ==>
                  c.result.currentColumn < c.result.columnCount)
  {
    hide RunMarks, Run, Definitions, LastCount, CountPackets;
    OpenedKnown(login);
    KnownRun(Opened(login), NO_MARKS, events);
  }
}
