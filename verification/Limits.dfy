/** Runs from the start that reach the states in which the code fails. */
module Limits {
  import opened Bytes
  import opened Pack
  import opened Protocol
  import opened Safety
  import opened Results
  import opened Answers
  import opened Login

  lemma RunFirst(c: Con, e: Event, events: seq<Event>)
    requires Inv(c) && Enabled(c, e) && Inv(After(c, e)) && AllEnabled(After(c, e), events)
    ensures AllEnabled(c, [e] + events) && Run(c, [e] + events) == Run(After(c, e), events)
  {
    hide After, Inv, Enabled;
    assert ([e] + events)[1..] == events;
  }

  // The connection after the handshake.
  lemma AfterLogin(login: Credentials, g: Greeting, a: Answer)
    requires ValidGreeting(g) && a.Success? && ValidAnswer(a) && CanRespond(login, Answering(login, g).scramble)
    ensures var d := Deliver(Opened(login), LoginBytes(g, a));
            && d.unread == [] && d.toEnd == 0 && !d.core.fault && d.core.queue == []
            && d.core.status.Idle? && d.core.command.Connected?
  {
    hide Process, Deliver, Answering, OkPayload, FrameBytes, ResponsePacket;
    var ok := FrameBytes(Frame(Response, 2, OkPayload(a)));
    GreetingDelivered(login, g, ok);
    AnsweringStart(login, g);
    LastPacket(Con(Respond(Answering(login, g)), ok, 0), a);
  }

  lemma AnsweringStart(login: Credentials, g: Greeting)
    requires ValidGreeting(g)
    ensures var c := Answering(login, g);
            && c.queue == [] && c.number == 0 && !c.fault && c.status.Connecting? && c.info.errno == 0
            && c.login == login
  {
  }

  // The head of a result set and its first row, and nothing behind it.
  lemma HeadAndRow(c: Con, cols: Payloads, e: End, row: seq<byte>)
    requires Awaiting(c.core) && c.core.number == 0 && c.toEnd == 0 && c.unread == []
    requires 0 < |cols| < 0x1_0000 && AllShort(cols) && ValidRow(row)
    ensures var d := Deliver(c, Framed(Head(cols, e) + [row], 0));
            ShowsRow(d, row) && d.unread == row && !d.core.fault
  {
    hide Process, Framed, Head, Absorb, Absorbable, Logged, ShowsRow;
    var head, n := Head(cols, e), (|cols| + 2) % 0x100;
    FramedJoins(head, [row], 0);
    HeadTaken(c.core, cols, e);
    var d := Con(AfterHead(c.core, cols, e), Framed([row], n), 0);
    assert [] + Framed(head + [row], 0) == Framed(head, 0) + d.unread;
    Absorbed(Appended(c, Framed(head + [row], 0)), head, d.unread);
    assert d.unread == Framed([row], n) + [];
    FirstRow(d, [row], []);
    NoPackets(Next(n));
    assert [row][1..] == [] && [] + [] == Framed([], Next(n)) && row + ([] + []) == row;
  }

  lemma NoPackets(n: byte)
    ensures Framed([], n) == []
  {
  }

  function Impatient(login: Credentials, g: Greeting, a: Answer, cols: Payloads, e: End, row: seq<byte>): seq<Event>
    requires a.Success? && |cols| < 0x1_0000
  {
    [Chunk(LoginBytes(g, a))] + ([Command(Any)] + ([Chunk(Framed(Head(cols, e) + [row], 0))] + ([NextRow] + [])))
  }

  /** The assertion is reached in ordinary runs: log in, send a query, and fetch the next row when the first one has
      come but nothing of the next packet has. */
  lemma AssertReachable(login: Credentials, g: Greeting, a: Answer, cols: Payloads, e: End, row: seq<byte>)
    requires ValidGreeting(g) && a.Success? && ValidAnswer(a) && CanRespond(login, Answering(login, g).scramble)
    requires 0 < |cols| < 0x1_0000 && AllShort(cols) && ValidRow(row)
    ensures Inv(Opened(login)) && AllEnabled(Opened(login), Impatient(login, g, a, cols, e, row))
    ensures Poll(Run(Opened(login), Impatient(login, g, a, cols, e, row)).core).PollAsserts?
  {
    hide Process, Framed, Head, Inv, LoginBytes, Answering, Deliver;
    OpenedSafe(login);
    AfterLogin(login, g, a);
    var login', packets := LoginBytes(g, a), Framed(Head(cols, e) + [row], 0);
    var c0 := Opened(login);
    var c1 := Deliver(c0, login');
    InvAfter(c0, Chunk(login'));
    var c2 := CommandSend(c1, Any);
    InvAfter(c1, Command(Any));
    HeadAndRow(c2, cols, e, row);
    var c3 := Deliver(c2, packets);
    InvAfter(c2, Chunk(packets));
    InvAfter(c3, NextRow);
    InvNextRow(c3);
    assert Following(c3) == [];
    NothingReady(ExpectRow(c3));
    AssertExact(c3);
    RunFirst(c3, NextRow, []);
    RunFirst(c2, Chunk(packets), [NextRow] + []);
    RunFirst(c1, Command(Any), [Chunk(packets)] + ([NextRow] + []));
    RunFirst(c0, Chunk(login'), [Command(Any)] + ([Chunk(packets)] + ([NextRow] + [])));
  }

  /** A second column count, smaller than the columns already read, leaves the next definition without a column. */
  lemma SecondCount(c: Core, x: seq<byte>, y: seq<byte>)
    requires Awaiting(c) && Short(x) && Short(y)
    ensures Absorbable(c, [LengthBytes(2)] + [x, y] + [LengthBytes(1)])
    ensures var d := Absorb(c, [LengthBytes(2)] + [x, y] + [LengthBytes(1)]);
            d.queue == [Column] && d.result.currentColumn == 2 > d.result.columnCount
  {
    hide Taken, LengthBytes, Absorb, Absorbable, Logged, Repeat;
    CountFields(2);
    CountFields(1);
    CountTaken(c, 2);
    AbsorbOne(c, LengthBytes(2));
    var c1 := Taken(c, LengthBytes(2)).core;
    Columns(c1, [x, y]);
    var c2 := Absorb(c1, [x, y]);
    CountTaken(c2, 1);
    AbsorbOne(c2, LengthBytes(1));
    AbsorbJoins(c, [LengthBytes(2)], [x, y]);
    AbsorbJoins(c, [LengthBytes(2)] + [x, y], [LengthBytes(1)]);
  }

  // The statement is reset, which the server answers, and the next command is sent; then that answer comes.
  function ResetThenCommand(a: Answer): seq<Event>
    requires a.Success?
  {
    [Command(StmtReset)] + ([WriteDone] + ([Command(Any)] + ([Chunk(OkFrame(a))] + [])))
  }

  function OkFrame(a: Answer): seq<byte>
    requires a.Success?
  {
    FrameBytes(Frame(Response, 1, OkPayload(a)))
  }

  /** The library expects no answer to COM_STMT_RESET.  Its OK packet is taken for the answer to the next command,
      which is
      over before a byte of its own answer has come. */
  lemma StaleAnswer(c: Con, a: Answer)
    requires Inv(c) && Enabled(c, Command(StmtReset)) && c.unread == [] && c.toEnd == 0
    requires a.Success? && ValidAnswer(a)
    ensures AllEnabled(c, ResetThenCommand(a))
    ensures var d := Run(c, ResetThenCommand(a));
            && Poll(d.core).PollEof? && d.core.queue == []
            && d.core.log == c.core.log + [Frame(Response, 1, OkPayload(a))]
  {
    hide Process, Inv, OkPayload, FrameBytes, OkFrame;
    var c1 := CommandSend(c, StmtReset);
    var c2 := Written(c1);
    var c3 := CommandSend(c2, Any);
    InvAfter(c, Command(StmtReset));
    InvAfter(c1, WriteDone);
    InvAfter(c2, Command(Any));
    var c4 := Deliver(c3, OkFrame(a));
    InvAfter(c3, Chunk(OkFrame(a)));
    OkDelivered(c3, a);
    RunFirst(c3, Chunk(OkFrame(a)), []);
    RunFirst(c2, Command(Any), [Chunk(OkFrame(a))] + []);
    RunFirst(c1, WriteDone, [Command(Any)] + ([Chunk(OkFrame(a))] + []));
    RunFirst(c, Command(StmtReset), [WriteDone] + ([Command(Any)] + ([Chunk(OkFrame(a))] + [])));
  }

  lemma OkDelivered(c: Con, a: Answer)
    requires Awaiting(c.core) && c.core.number == 0 && c.unread == [] && c.toEnd == 0
    requires a.Success? && ValidAnswer(a)
    ensures var d := Deliver(c, OkFrame(a));
            && Poll(d.core).PollEof? && d.core.queue == []
            && d.core.log == c.core.log + [Frame(Response, 1, OkPayload(a))]
  {
    hide Process, OkPayload, FrameBytes, Logged;
    FramedFirst([OkPayload(a)], 0);
    NoPackets(1);
    assert [OkPayload(a)][1..] == [];
    assert Framed([OkPayload(a)], 0) == OkFrame(a) + [] == OkFrame(a);
    assert [] + OkFrame(a) == Framed(PayloadsOf(a), 0) + [];
    SuccessRead(Appended(c, OkFrame(a)), a, []);
    LoggedOne(Response, OkPayload(a), 0);
  }
}
