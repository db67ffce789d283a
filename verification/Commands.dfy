/** What a command does to the connection, and what its whole answer leads to, after any run. */
module Commands {
  import opened Protocol
  import opened Safety
  import opened Chunking
  import opened Results
  import opened Answers
  import opened Preparing

  /** A command clears what the last one left, starts the numbers anew, and expects the packet that belongs to it. */
  lemma SentState(c: Con, command: ClientCommand)
    requires Inv(c) && Enabled(c, Command(command))
    ensures var d := CommandSend(c, command); var info := d.core.info;
            && info.affectedRows == 0 && info.insertId == 0 && info.serverStatus == 0 && info.warnings == 0
            && info.errno == 0 && d.core.error == Ok && d.core.result.currentColumn == 0 && d.core.number == 0
            && d.core.log == c.core.log && d.unread == c.unread && d.toEnd == c.toEnd == 0
            && Poll(d.core).PollProcessing?
    ensures var d := CommandSend(c, command).core;
            match command
            case Any => Awaiting(d)
            case StmtPrepare => Preparing.Preparing(d)
            case StmtReset => d.queue == []
            case StmtClose => d.queue == []
  {
  }

  // A run from the start, after which the application may send this command, and no byte is waiting.
  predicate MaySend(login: Credentials, events: seq<Event>, command: ClientCommand) {
    && Inv(Opened(login)) && AllEnabled(Opened(login), events)
    && var c := Run(Opened(login), events);
       Inv(c) && Enabled(c, Command(command)) && Inv(CommandSend(c, command)) && c.unread == []
  }

  function Sending(login: Credentials, events: seq<Event>, command: ClientCommand): Con
    requires MaySend(login, events, command)
  {
    CommandSend(Run(Opened(login), events), command)
  }

  /** After any run, a prepare whose reply comes in any chunks ends with the statement prepared: its id and counts are
      those of the reply, and the packets were taken as the kinds they are. */
  lemma PrepareAnswered(login: Credentials, events: seq<Event>, r: Reply, after: seq<Event>)
    requires MaySend(login, events, StmtPrepare) && ValidReply(r)
    requires var d := Sending(login, events, StmtPrepare);
             && AllEnabled(d, after) && Steady(after) && Calls(d, after) == []
             && Delivered(after) == Framed(ReplyPayloads(r), 0)
    ensures var d := Sending(login, events, StmtPrepare); var e := Process(Run(d, after));
            && Ends(e.core, r) && Poll(e.core).PollEof? && e.unread == []
            && e.core.log == d.core.log + Logged(ReplyKinds(r), ReplyPayloads(r), 0)
  {
    hide Process, Run, Framed, Inv, AllEnabled, Logged, ReplyPayloads, ReplyKinds, Ends;
    SentState(Run(Opened(login), events), StmtPrepare);
    var d := Sending(login, events, StmtPrepare);
    RunReplays(d, after);
    assert Replay(Process(Appended(d, Delivered(after))), []) == Process(Appended(d, Delivered(after)));
    assert [] + Framed(ReplyPayloads(r), 0) == Framed(ReplyPayloads(r), 0) + [];
    ReplyRead(Appended(d, Delivered(after)), r, []);
  }

  /** After any run, the results that answer a command are taken in any chunks to the last byte. */
  lemma CommandAnswered(login: Credentials, events: seq<Event>, answers: seq<Answer>, after: seq<Event>)
    requires MaySend(login, events, Any) && Chain(answers)
    requires var d := Sending(login, events, Any);
             && AllEnabled(d, after) && Steady(after) && Calls(d, after) == ChainCalls(answers)
             && Delivered(after) == Framed(AllPayloads(answers), 0)
    ensures var d := Sending(login, events, Any);
            Over(Process(Run(d, after)), d.core, AllKinds(answers), AllPayloads(answers), [])
  {
    hide Process, Run, Framed, Inv, AllEnabled, AllPayloads, AllKinds, ValidAnswer, Announces, Over, ChainCalls;
    SentState(Run(Opened(login), events), Any);
    ChainInChunks(Sending(login, events, Any), answers, after);
  }

  /** Closing or resetting a statement is over with its write: nothing is expected, and the end is reported. */
  lemma NothingAnswered(login: Credentials, events: seq<Event>, command: ClientCommand)
    requires MaySend(login, events, command) && (command.StmtClose? || command.StmtReset?)
    ensures var d := Sending(login, events, command);
            && Poll(d.core).PollProcessing? && Enabled(d, WriteDone)
            && var e := After(d, WriteDone);
               e.core.queue == [] && e.core.status.Idle? && e.core.command.Eof? && Poll(e.core).PollEof?
               && e.unread == []
  {
    hide Run, AllEnabled;
    SentState(Run(Opened(login), events), command);
  }
}
