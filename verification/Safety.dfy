/** What every run of a connection keeps: one expected packet at most, parsing at packet boundaries, nothing lost. */
module Safety {
  import opened Options
  import opened Bytes
  import opened Pack
  import opened Types
  import opened Protocol

  // ---------------------------------------------------------------- the invariant

  // What a packet may be expected in.
  predicate Waiting(c: Core, k: Kind) {
    && c.info.errno == 0
    && (k.Handshake? ==> c.status.Connecting?)
    && (k.Row? ==> c.command.ReadRow?)
    && (c.status.Connecting? || c.status.Busy? || (c.status.Idle? && k.Row?))
  }

  // Nothing is expected: the command is over, or a row waits to be fetched.
  predicate Resting(c: Core) {
    && (c.status.Idle? ==>
          c.command.Eof? || c.command.Connected? || c.command.RowInBuffer? || c.command.ReadFailed?
          || c.command.SendFailed?)
    && (c.command.RowInBuffer? ==> c.status.Idle? && c.info.errno == 0)
  }

  predicate CoreInv(c: Core) {
    if c.queue == [] then Resting(c) else |c.queue| == 1 && Waiting(c, c.queue[0])
  }

  // The packet that has been dispatched and is not over: a row in the buffer, or a handshake that was turned down.
  predicate Holding(c: Con) {
    && c.core.queue == [] && c.toEnd <= |c.unread|
    && if c.core.command.RowInBuffer? then c.toEnd > 0 && c.core.result.row == Some(c.unread[..c.toEnd])
       else c.toEnd > 0 ==> c.core.status.Connecting? || c.core.status.NetError?
  }

  predicate Inv(c: Con) {
    c.core.fault || (CoreInv(c.core) && (Holding(c) || (c.toEnd == 0 && !c.core.command.RowInBuffer?)))
  }

  // ---------------------------------------------------------------- the handlers keep it

  // What a handler finds: the expected packet has been popped.
  predicate Popping(c: Core, k: Kind) {
    c.queue == [] && Waiting(c, k) && !c.fault && !c.command.RowInBuffer?
  }

  // What a handler leaves.
  predicate Handled(out: Outcome, p: seq<byte>) {
    out.core.fault || (
      && CoreInv(out.core)
      && (out.held ==> out.core.queue == [] && p != [])
      && (out.core.command.RowInBuffer? ==> out.held && out.core.result.row == Some(p))
      && (out.held && !out.core.command.RowInBuffer? ==> out.core.status.Connecting?))
  }

  lemma ResponseHandled(c: Core, p: seq<byte>)
    requires c.queue == [] && !c.fault && !c.command.RowInBuffer? && c.info.errno == 0
    requires c.status.Connecting? || c.status.Busy? || c.status.Idle?
    requires c.status.Idle? ==> p != [] && p[0] == 0xfe && c.command.ReadRow?
    ensures Handled(ReadResponsePacket(c, p), p)
    ensures !ReadResponsePacket(c, p).held
  {
    hide HasLength, UnpackLength;
  }

  lemma DispatchHandled(c: Core, k: Kind, p: seq<byte>)
    requires Popping(c, k)
    ensures Handled(Dispatch(c, k, p), p)
  {
    hide ReadResponsePacket, StringLength, BitSet, UnpackInt, ResponsePacket;
    if k.Response? || (k.PrepareResponse? && p != [] && p[0] != 0) || (k.Row? && p != [] && p[0] == 0xfe) {
      ResponseHandled(if k.Row? then c.(result := c.result.(row := None)) else c, p);
    }
  }

  lemma InvStep(c: Con)
    requires Inv(c) && Ready(c)
    ensures Inv(ProcessOne(c))
  {
    hide Dispatch;
    var k := Top(c.core.queue);
    var p := Payload(c.unread);
    var popped := c.core.(queue := Popped(c.core.queue), number := Expected(c.core, k),
                          log := c.core.log + [Frame(k, Expected(c.core, k), p)]);
    DispatchHandled(popped, k, p);
    assert c.unread[4..][..|p|] == p;
  }

  lemma {:induction false} InvProcess(c: Con)
    requires Inv(c)
    ensures Inv(Process(c)) && !Ready(Process(c))
    decreases |c.unread|, |c.core.queue|
  {
    hide Inv, ProcessOne;
    if Ready(c) {
      InvStep(c);
      Shrinks(c);
      InvProcess(ProcessOne(c));
    }
  }

  lemma Shrinks(c: Con)
    requires Ready(c)
    ensures |ProcessOne(c).unread| < |c.unread|
            || (|ProcessOne(c).unread| == |c.unread| && |ProcessOne(c).core.queue| < |c.core.queue|)
  {
    hide Dispatch;
  }

  lemma InvAppended(c: Con, b: seq<byte>)
    requires Inv(c)
    ensures Inv(Appended(c, b))
  {
    assert c.toEnd <= |c.unread| ==> (c.unread + b)[..c.toEnd] == c.unread[..c.toEnd];
  }

  // ---------------------------------------------------------------- events

  datatype Event =
    | Chunk(bytes: seq<byte>)
    | Command(command: ClientCommand)
    | NextRow
    | MoreResults
    | WriteDone
    | ReadBroken
    | WriteBroken
    | SendBroken(command: ClientCommand)

  // A command needs an idle connection with no row in the buffer; a row is fetched when there is one in the buffer; the
  // next result is asked for at the end of one.  A write is done before anything of its answer has come.
  predicate Enabled(c: Con, e: Event) {
    && !c.core.fault
    && match e
       case Chunk(_) => true
       case Command(_) => c.core.queue == [] && c.core.status.Idle? && !c.core.command.RowInBuffer?
       case SendBroken(_) => c.core.queue == [] && c.core.status.Idle? && !c.core.command.RowInBuffer?
       case NextRow => c.core.command.RowInBuffer?
       case MoreResults => c.core.queue == [] && c.core.status.Idle? && c.core.command.Eof? && HasNext(c)
       case WriteDone => c.core.queue != [] || (c.core.status.Busy? && c.core.command.Sent?)
       case ReadBroken => true
       case WriteBroken => true
  }

  function After(c: Con, e: Event): Con
    requires Inv(c) && Enabled(c, e)
  {
    match e
    case Chunk(b) => Deliver(c, b)
    case Command(command) => CommandSend(c, command)
    case NextRow => GetNextRow(c)
    case MoreResults => NextResult(c)
    case WriteDone => Written(c)
    case ReadBroken => ReadFailure(c)
    case WriteBroken => WriteFailure(c)
    case SendBroken(command) => CommandFailure(c, command)
  }

  lemma InvAfter(c: Con, e: Event)
    requires Inv(c) && Enabled(c, e)
    ensures Inv(After(c, e))
  {
    hide Process;
    match e
    case Chunk(b) => InvAppended(c, b); InvProcess(Appended(c, b));
    case NextRow => InvProcess(ExpectRow(c));
    case _ =>
  }

  predicate AllEnabled(c: Con, events: seq<Event>)
    requires Inv(c)
    decreases |events|
  {
    if events == [] then true
    else Enabled(c, events[0]) && (InvAfter(c, events[0]); AllEnabled(After(c, events[0]), events[1..]))
  }

  function Run(c: Con, events: seq<Event>): Con
    requires Inv(c) && AllEnabled(c, events)
    decreases |events|
  {
    if events == [] then c else (InvAfter(c, events[0]); Run(After(c, events[0]), events[1..]))
  }

  /** In every run at most one packet is expected, and then the read pointer is at the end of the last packet. */
  lemma {:induction false} RunSafe(c: Con, events: seq<Event>)
    requires Inv(c) && AllEnabled(c, events)
    ensures Inv(Run(c, events))
    ensures var d := Run(c, events);
            !d.core.fault ==> |d.core.queue| <= 1 && (d.core.queue != [] ==> d.toEnd == 0)
    ensures var d := Run(c, events);
            !d.core.fault && d.core.command.RowInBuffer? ==>
              d.toEnd <= |d.unread| && d.core.result.row == Some(d.unread[..d.toEnd])
    decreases |events|
  {
    hide After, Enabled;
    if events != [] {
      InvAfter(c, events[0]);
      RunSafe(After(c, events[0]), events[1..]);
    }
  }

  lemma OpenedSafe(login: Credentials)
    ensures Inv(Opened(login))
  {
  }

  // ---------------------------------------------------------------- nothing is lost

  function FrameBytes(f: Frame): seq<byte> {
    Le(|f.payload|, 3) + [f.number] + f.payload
  }

  function LogBytes(log: seq<Frame>): seq<byte> {
    if log == [] then [] else LogBytes(log[..|log| - 1]) + FrameBytes(log[|log| - 1])
  }

  // All bytes that ever came: the packets dispatched, and what is behind them.
  function Stream(c: Con): seq<byte> {
    LogBytes(c.core.log) + if c.toEnd <= |c.unread| then c.unread[c.toEnd..] else []
  }

  function Delivered(events: seq<Event>): seq<byte> {
    if events == [] then [] else (if events[0].Chunk? then events[0].bytes else []) + Delivered(events[1..])
  }

  // A whole packet is the bytes of its frame.
  lemma WholeIsFrame(b: seq<byte>, k: Kind)
    requires Whole(b)
    ensures b == FrameBytes(Frame(k, b[3], Payload(b))) + b[4 + |Payload(b)|..]
  {
    LeOfUnLe(b[0..3]);
    assert b == b[0..3] + [b[3]] + Payload(b) + b[4 + |Payload(b)|..];
  }

  lemma LogGrows(log: seq<Frame>, f: Frame)
    ensures LogBytes(log + [f]) == LogBytes(log) + FrameBytes(f)
  {
    assert (log + [f])[..|log|] == log;
  }

  lemma ResponseLogs(c: Core, p: seq<byte>)
    ensures ReadResponsePacket(c, p).core.log == c.log
  {
    hide HasLength, UnpackLength;
  }

  lemma DispatchLogs(c: Core, k: Kind, p: seq<byte>)
    ensures Dispatch(c, k, p).core.log == c.log
  {
    hide ReadResponsePacket, StringLength, BitSet, ResponsePacket;
    ResponseLogs(c, p);
    ResponseLogs(c.(result := c.result.(row := None)), p);
  }

  lemma StreamStep(c: Con)
    requires Inv(c) && Ready(c)
    ensures Stream(ProcessOne(c)) == Stream(c)
  {
    hide Dispatch, LogBytes, FrameBytes;
    var k, p := Top(c.core.queue), Payload(c.unread);
    if c.unread[3] == Expected(c.core, k) {
      var f := Frame(k, c.unread[3], p);
      WholeIsFrame(c.unread, k);
      LogGrows(c.core.log, f);
      DispatchLogs(c.core.(queue := Popped(c.core.queue), number := f.number, log := c.core.log + [f]), k, p);
      var d := ProcessOne(c);
      assert d.unread[d.toEnd..] == c.unread[4 + |p|..];
      assert c.unread[c.toEnd..] == c.unread;
      assert LogBytes(c.core.log) + FrameBytes(f) + d.unread[d.toEnd..] == LogBytes(c.core.log) + c.unread;
    }
  }

  lemma {:induction false} StreamProcess(c: Con)
    requires Inv(c)
    ensures Stream(Process(c)) == Stream(c)
    decreases |c.unread|, |c.core.queue|
  {
    hide Inv, ProcessOne, Stream;
    if Ready(c) {
      InvStep(c);
      Shrinks(c);
      StreamStep(c);
      StreamProcess(ProcessOne(c));
    }
  }

  lemma StreamAfter(c: Con, e: Event)
    requires Inv(c) && Enabled(c, e)
    ensures Stream(After(c, e)) == Stream(c) + if e.Chunk? then e.bytes else []
  {
    hide Process, LogBytes;
    match e
    case Chunk(b) =>
      InvAppended(c, b);
      StreamProcess(Appended(c, b));
      assert (c.unread + b)[c.toEnd..] == c.unread[c.toEnd..] + b;
    case NextRow =>
      InvNextRow(c);
      StreamProcess(ExpectRow(c));
    case _ =>
  }

  lemma InvNextRow(c: Con)
    requires Inv(c) && Enabled(c, NextRow)
    ensures Inv(ExpectRow(c))
  {
  }

  /** In every run the packets dispatched and the bytes behind them are exactly the bytes that came, in order. */
  lemma {:induction false} StreamRun(c: Con, events: seq<Event>)
    requires Inv(c) && AllEnabled(c, events)
    ensures Stream(Run(c, events)) == Stream(c) + Delivered(events)
    decreases |events|
  {
    hide After, Enabled, Stream, Inv;
    if events != [] {
      InvAfter(c, events[0]);
      StreamAfter(c, events[0]);
      StreamRun(After(c, events[0]), events[1..]);
      assert Stream(c) + (if events[0].Chunk? then events[0].bytes else []) + Delivered(events[1..])
          == Stream(c) + Delivered(events);
    }
  }

  // ---------------------------------------------------------------- whose answer it is

  // Where packet i begins in the bytes that came.
  function Position(log: seq<Frame>, i: nat): nat
    requires i <= |log|
  {
    |LogBytes(log[..i])|
  }

  lemma {:induction false} PositionsGrow(log: seq<Frame>, i: nat, j: nat)
    requires i <= j <= |log|
    ensures Position(log, i) <= Position(log, j)
  {
    if i < j {
      PositionsGrow(log, i, j - 1);
      assert log[..j][..j - 1] == log[..j - 1];
    }
  }

  lemma {:induction false} LogProcess(c: Con)
    ensures c.core.log <= Process(c).core.log
    decreases |c.unread|, |c.core.queue|
  {
    hide ProcessOne;
    if Ready(c) {
      Shrinks(c);
      LogOne(c);
      LogProcess(ProcessOne(c));
    }
  }

  lemma LogOne(c: Con)
    requires Ready(c)
    ensures c.core.log <= ProcessOne(c).core.log
  {
    hide Dispatch;
    var k, p := Top(c.core.queue), Payload(c.unread);
    var f := Frame(k, Expected(c.core, k), p);
    DispatchLogs(c.core.(queue := Popped(c.core.queue), number := f.number, log := c.core.log + [f]), k, p);
  }

  lemma LogAfter(c: Con, e: Event)
    requires Inv(c) && Enabled(c, e)
    ensures c.core.log <= After(c, e).core.log
  {
    hide Process;
    match e
    case Chunk(b) => LogProcess(Appended(c, b));
    case NextRow => LogProcess(ExpectRow(c));
    case _ =>
  }

  lemma {:induction false} LogRun(c: Con, events: seq<Event>)
    requires Inv(c) && AllEnabled(c, events)
    ensures c.core.log <= Run(c, events).core.log
    decreases |events|
  {
    hide After, Enabled, Inv;
    if events != [] {
      InvAfter(c, events[0]);
      LogAfter(c, events[0]);
      LogRun(After(c, events[0]), events[1..]);
    }
  }

  /** When a command is sent, the server has sent `sent` bytes, some of which may be on their way.  All packets that are
      dispatched after the command are ones that were sent after it, exactly if nothing was on its way and all that had
      come had been dispatched; or if none is dispatched. */
  lemma OwnAnswer(login: Credentials, before: seq<Event>, command: ClientCommand, after: seq<Event>, sent: nat)
    requires Inv(Opened(login)) && AllEnabled(Opened(login), before) && sent >= |Delivered(before)|
    requires var c := Run(Opened(login), before);
             Inv(c) && Enabled(c, Command(command))
             && Inv(CommandSend(c, command)) && AllEnabled(CommandSend(c, command), after)
    ensures var c := Run(Opened(login), before); var d := Run(CommandSend(c, command), after);
            (forall i :: |c.core.log| <= i < |d.core.log| ==> Position(d.core.log, i) >= sent)
            <==> |d.core.log| == |c.core.log| || (Following(c) == [] && sent == |Delivered(before)|)
  {
    hide Run, LogBytes, Enabled, Inv, AllEnabled, CommandSend, Position;
    OpenedSafe(login);
    StreamRun(Opened(login), before);
    var c := Run(Opened(login), before);
    var d := Run(CommandSend(c, command), after);
    StartOfStream(login);
    assert [] + Delivered(before) == Delivered(before);
    SendKeepsLog(c, command);
    LogRun(CommandSend(c, command), after);
    var n, log := |c.core.log|, d.core.log;
    assert log[..n] == c.core.log;
    PositionIs(log, n);
    assert |Stream(c)| == |LogBytes(c.core.log)| + |Following(c)|;
    forall i | n <= i < |log| && Position(log, n) >= sent ensures Position(log, i) >= sent {
      PositionsGrow(log, n, i);
    }
  }

  lemma PositionIs(log: seq<Frame>, i: nat)
    requires i <= |log|
    ensures Position(log, i) == |LogBytes(log[..i])|
  {
  }

  lemma StartOfStream(login: Credentials)
    ensures Stream(Opened(login)) == []
  {
  }

  lemma SendKeepsLog(c: Con, command: ClientCommand)
    ensures CommandSend(c, command).core.log == c.core.log
  {
  }

  // ---------------------------------------------------------------- sequence numbers

  // The packets logged from `from` on have the numbers after n, one by one.
  predicate NumberedFrom(log: seq<Frame>, from: nat, n: byte) {
    from <= |log| && forall i :: from <= i < |log| ==> log[i].number == (n + 1 + i - from) % 0x100
  }

  predicate InSequence(c: Core, from: nat, n: byte) {
    && NumberedFrom(c.log, from, n)
    && (c.number == (n + |c.log| - from) % 0x100 || (c.queue == [] && (c.command.ReadFailed? || c.command.SendFailed?))
        || c.fault)
    && (c.queue != [] ==> !c.queue[0].Handshake?)
  }

  lemma ResponseNumber(c: Core, p: seq<byte>)
    requires c.queue == []
    ensures var d := ReadResponsePacket(c, p).core; d.number == c.number && (d.queue != [] ==> !d.queue[0].Handshake?)
  {
    hide HasLength, UnpackLength;
  }

  lemma DispatchNumber(c: Core, k: Kind, p: seq<byte>)
    requires c.queue == [] && !k.Handshake?
    ensures var d := Dispatch(c, k, p).core; d.number == c.number && (d.queue != [] ==> !d.queue[0].Handshake?)
  {
    hide ReadResponsePacket;
    ResponseNumber(c, p);
    ResponseNumber(c.(result := c.result.(row := None)), p);
  }

  lemma NumberedOneMore(log: seq<Frame>, from: nat, n: byte, f: Frame)
    requires NumberedFrom(log, from, n) && f.number == (n + 1 + |log| - from) % 0x100
    ensures NumberedFrom(log + [f], from, n)
  {
  }

  lemma NumbersInside(log: seq<Frame>, from: nat, n: byte)
    requires NumberedFrom(log, from, n)
    ensures from <= |log|
  {
  }

  lemma NextNumber(n: byte, k: nat)
    ensures ((n + k) % 0x100 + 1) % 0x100 == (n + 1 + k) % 0x100
  {
  }

  lemma SequenceStep(c: Con, from: nat, n: byte)
    requires Inv(c) && Ready(c) && InSequence(c.core, from, n)
    ensures InSequence(ProcessOne(c).core, from, n)
  {
    hide Dispatch, NumberedFrom;
    var k, p := Top(c.core.queue), Payload(c.unread);
    if c.unread[3] == Expected(c.core, k) {
      var f := Frame(k, Expected(c.core, k), p);
      var d := c.core.(queue := Popped(c.core.queue), number := f.number, log := c.core.log + [f]);
      NumbersInside(c.core.log, from, n);
      NextNumber(n, |c.core.log| - from);
      NumberedOneMore(c.core.log, from, n, f);
      DispatchLogs(d, k, p);
      DispatchNumber(d, k, p);
    }
  }

  lemma {:induction false} SequenceProcess(c: Con, from: nat, n: byte)
    requires Inv(c) && InSequence(c.core, from, n)
    ensures InSequence(Process(c).core, from, n)
    decreases |c.unread|, |c.core.queue|
  {
    hide Inv, ProcessOne, InSequence;
    if Ready(c) {
      InvStep(c);
      Shrinks(c);
      SequenceStep(c, from, n);
      SequenceProcess(ProcessOne(c), from, n);
    }
  }

  lemma SequenceAfter(c: Con, e: Event, from: nat, n: byte)
    requires Inv(c) && Enabled(c, e) && !e.Command? && InSequence(c.core, from, n)
    ensures InSequence(After(c, e).core, from, n)
  {
    hide Process, NumberedFrom;
    match e
    case Chunk(b) =>
      InvAppended(c, b);
      SequenceProcess(Appended(c, b), from, n);
    case NextRow =>
      InvNextRow(c);
      SequenceProcess(ExpectRow(c), from, n);
    case _ =>
  }

  /** From one command to the next, the packets dispatched carry consecutive numbers modulo 256. */
  lemma {:induction false} SequenceRun(c: Con, events: seq<Event>, from: nat, n: byte)
    requires Inv(c) && AllEnabled(c, events) && InSequence(c.core, from, n)
    requires forall i :: 0 <= i < |events| ==> !events[i].Command?
    ensures InSequence(Run(c, events).core, from, n)
    decreases |events|
  {
    hide After, Enabled, Inv, InSequence;
    if events != [] {
      InvAfter(c, events[0]);
      SequenceAfter(c, events[0], from, n);
      SequenceRun(After(c, events[0]), events[1..], from, n);
    }
  }

  // A command starts the count anew.
  lemma CommandSequence(c: Con, command: ClientCommand)
    requires Enabled(c, Command(command))
    ensures InSequence(CommandSend(c, command).core, |c.core.log|, 0)
  {
  }

  /** A packet is dispatched exactly if it has the number expected; a wrong one stops everything until the next
      command. */
  lemma WrongNumberStops(c: Con, more: seq<byte>)
    requires Inv(c) && Ready(c)
    ensures c.unread[3] == Expected(c.core, c.core.queue[0]) <==> |ProcessOne(c).core.log| == |c.core.log| + 1
    ensures c.unread[3] != Expected(c.core, c.core.queue[0]) ==>
              Process(c) == c.(core := Refused(c.core))
              && Refused(c.core).queue == [] && Refused(c.core).error == OutOfSequence
              && Refused(c.core).status == c.core.status && Refused(c.core).log == c.core.log
              && Deliver(Process(c), more) == Appended(Process(c), more)
  {
    hide Dispatch;
    var k, p := Top(c.core.queue), Payload(c.unread);
    DispatchLogs(c.core.(queue := Popped(c.core.queue), number := Expected(c.core, k),
                         log := c.core.log + [Frame(k, Expected(c.core, k), p)]), k, p);
  }

  // A command is being answered, but nothing is expected any more.
  predicate Hung(c: Con) {
    c.core.queue == [] && c.core.status.Busy? && c.core.command.ReadFailed? && !c.core.fault
  }

  lemma {:induction false} HungRun(c: Con, events: seq<Event>)
    requires Inv(c) && Hung(c) && AllEnabled(c, events)
    requires forall i :: 0 <= i < |events| ==> !events[i].ReadBroken? && !events[i].WriteBroken?
    ensures Hung(Run(c, events))
    decreases |events|
  {
    if events != [] {
      var e := events[0];
      InvAfter(c, e);
      assert e.Chunk? && After(c, e) == Appended(c, e.bytes);
      HungRun(After(c, e), events[1..]);
    }
  }

  /** After a wrong number during a command, every poll reports that the command goes on, whatever comes and is
      called. */
  lemma WrongNumberHangs(c: Con, events: seq<Event>)
    requires Inv(c) && Ready(c) && c.core.status.Busy? && c.unread[3] != Expected(c.core, c.core.queue[0])
    requires Inv(Process(c)) && AllEnabled(Process(c), events)
    requires forall i :: 0 <= i < |events| ==> !events[i].ReadBroken? && !events[i].WriteBroken?
    ensures Poll(Run(Process(c), events).core).PollProcessing?
  {
    hide Process, AllEnabled, Run;
    WrongNumberStops(c, []);
    HungRun(Process(c), events);
  }

  // ---------------------------------------------------------------- polling

  /** What poll reports, status by status. */
  lemma PollTable(c: Core)
    ensures Poll(c).PollNotConnected? <==> c.status.NotConnected?
    ensures Poll(c).PollConnecting? <==> c.status.Connecting?
    ensures Poll(c).PollProcessing? <==> c.status.Busy?
    ensures Poll(c).PollError? <==>
              c.status.ConnectFailed? || c.status.NetError? || (c.status.Idle? && c.info.errno != 0)
    ensures Poll(c).PollEof? <==> c.status.Idle? && c.info.errno == 0 && c.command.Eof?
    ensures Poll(c).PollRowReady? <==> c.status.Idle? && c.info.errno == 0 && c.command.RowInBuffer?
    ensures Poll(c).PollConnected? <==> c.status.Idle? && c.info.errno == 0 && c.command.Connected?
  {
  }

  // A read or a write has failed.
  predicate Broken(c: Con) {
    c.core.status.NetError? && c.core.queue == [] && !c.core.fault
    && (c.core.command.ReadFailed? || c.core.command.SendFailed?)
    && (c.core.error.NetReadError? || c.core.error.NetWriteError?)
  }

  lemma {:induction false} BrokenStays(c: Con, events: seq<Event>)
    requires Inv(c) && Broken(c) && AllEnabled(c, events)
    ensures Broken(Run(c, events)) && Run(c, events).core.log == c.core.log
    decreases |events|
  {
    if events != [] {
      var e := events[0];
      InvAfter(c, e);
      assert e.Chunk? ==> After(c, e) == Appended(c, e.bytes);
      assert Broken(After(c, e)) && After(c, e).core.log == c.core.log;
      BrokenStays(After(c, e), events[1..]);
    }
  }

  /** After a read or a write has failed, every poll to the end of the run reports an error, and nothing more is
      dispatched. */
  lemma BrokenForever(c: Con, e: Event, events: seq<Event>)
    requires Inv(c) && Enabled(c, e) && (e.ReadBroken? || e.WriteBroken?)
    requires Inv(After(c, e)) && AllEnabled(After(c, e), events)
    ensures After(c, e).core.error == if e.ReadBroken? then NetReadError else NetWriteError
    ensures var d := Run(After(c, e), events).core; Poll(d).PollError? && d.log == c.core.log
  {
    hide Run, AllEnabled, Inv;
    BrokenStays(After(c, e), events);
  }

  // What follows the row in the buffer.
  function Following(c: Con): seq<byte> {
    if c.toEnd <= |c.unread| then c.unread[c.toEnd..] else []
  }

  // The next packet is there, in sequence, and as long as the code takes it to be.
  predicate NextIsWhole(c: Con) {
    var b := Following(c);
    Whole(b) && b[3] == (c.core.number + 1) % 0x100
  }

  // Rows are fetched only when the next packet is there, and no send fails at once.
  predicate Patient(c: Con, events: seq<Event>)
    requires Inv(c) && AllEnabled(c, events)
    decreases |events|
  {
    if events == [] then true
    else
      && (events[0].NextRow? ==> NextIsWhole(c)) && !events[0].SendBroken?
      && (InvAfter(c, events[0]); Patient(After(c, events[0]), events[1..]))
  }

  // When idle, nothing but an end, a row or a connection can be reported.
  predicate Reporting(c: Core) {
    c.status.Idle? ==> c.queue == [] && !c.command.ReadFailed? && !c.command.SendFailed?
  }

  lemma DispatchReports(c: Core, k: Kind, p: seq<byte>)
    requires Popping(c, k) && (c.status.Idle? ==> k.Row?)
    ensures var d := Dispatch(c, k, p).core; d.fault || Reporting(d)
  {
    hide ReadResponsePacket, StringLength, BitSet, UnpackInt, ResponsePacket;
    if !k.Row? || (p != [] && p[0] == 0xfe) {
      ResponseReports(if k.Row? then c.(result := c.result.(row := None)) else c, p);
    }
  }

  lemma ResponseReports(c: Core, p: seq<byte>)
    requires c.queue == [] && (c.status.Idle? ==> p != [] && p[0] == 0xfe && c.command.ReadRow?)
    ensures var d := ReadResponsePacket(c, p).core; d.fault || Reporting(d)
  {
    hide HasLength, UnpackLength;
  }

  lemma ReportingStep(c: Con)
    requires Inv(c) && Ready(c) && (Reporting(c.core) || NextIsWhole(c))
    ensures var d := ProcessOne(c); d.core.fault || Reporting(d.core)
  {
    hide Dispatch;
    var k, p := Top(c.core.queue), Payload(c.unread);
    assert c.unread[0..] == c.unread;
    DispatchReports(c.core.(queue := Popped(c.core.queue), number := Expected(c.core, k),
                            log := c.core.log + [Frame(k, Expected(c.core, k), p)]), k, p);
  }

  lemma {:induction false} ReportingProcess(c: Con)
    requires Inv(c) && (c.core.fault || Reporting(c.core) || (Ready(c) && NextIsWhole(c)))
    ensures Process(c).core.fault || Reporting(Process(c).core)
    decreases |c.unread|, |c.core.queue|
  {
    hide Inv, ProcessOne, Reporting, NextIsWhole;
    if Ready(c) {
      InvStep(c);
      Shrinks(c);
      ReportingStep(c);
      ReportingProcess(ProcessOne(c));
    }
  }

  /** The assertion of attachsql_connect_poll fails after a row was fetched exactly when the next packet was not yet
      there. */
  lemma AssertExact(c: Con)
    requires Inv(c) && Enabled(c, NextRow)
    ensures var d := GetNextRow(c); !d.core.fault ==> (Poll(d.core).PollAsserts? <==> !NextIsWhole(c))
  {
    hide Process, ProcessOne, Whole;
    var e := ExpectRow(c);
    InvNextRow(c);
    InvProcess(e);
    assert Following(e) == e.unread == Following(c);
    if NextIsWhole(c) {
      ReportingProcess(e);
    } else if Ready(e) {
      WrongNumberStops(e, []);
    } else {
      NothingReady(e);
    }
  }

  lemma NothingReady(c: Con)
    requires !Ready(c)
    ensures Process(c) == c
  {
  }

  lemma ReportingAfter(c: Con, e: Event)
    requires Inv(c) && Enabled(c, e) && Reporting(c.core) && (e.NextRow? ==> NextIsWhole(c)) && !e.SendBroken?
    ensures After(c, e).core.fault || Reporting(After(c, e).core)
  {
    hide Process;
    match e
    case Chunk(b) =>
      InvAppended(c, b);
      ReportingProcess(Appended(c, b));
    case NextRow =>
      InvNextRow(c);
      var d := ExpectRow(c);
      assert d.unread == Following(c) && Following(d) == d.unread;
      ReportingProcess(d);
    case _ =>
  }

  /** When a send fails at once, the assertion is reached by the next poll, whatever had come before. */
  lemma SendFailureAsserts(c: Con, command: ClientCommand)
    requires Inv(c) && Enabled(c, SendBroken(command))
    ensures var d := After(c, SendBroken(command)).core;
            Poll(d).PollAsserts? && d.error == NetWriteError && d.queue == []
  {
  }

  /** As long as rows are fetched only when the next packet is there and no send fails at once, no poll at any time runs
      into the assertion. */
  lemma {:induction false} PatientRun(c: Con, events: seq<Event>)
    requires Inv(c) && AllEnabled(c, events) && Patient(c, events) && (c.core.fault || Reporting(c.core))
    ensures var d := Run(c, events); d.core.fault || (Reporting(d.core) && !Poll(d.core).PollAsserts?)
    decreases |events|
  {
    hide After, NextIsWhole;
    if events != [] {
      InvAfter(c, events[0]);
      ReportingAfter(c, events[0]);
      PatientRun(After(c, events[0]), events[1..]);
    }
  }
}
