/** From the state of the connection to what the server reads: escaping in the mode that the connection knows of. */
module Statements {
  import opened Bytes
  import Literals
  import opened Query
  import opened Templates
  import opened Protocol
  import opened Safety
  import opened History

  // A packet with a status has been dispatched since packet `from`.
  predicate StatusCame(log: seq<Frame>, from: nat) {
    exists i :: from <= i < |log| && StatusIn(log[i]).Some?
  }

  lemma {:induction false} LastStatusIsRecent(log: seq<Frame>, from: nat)
    requires StatusCame(log, from)
    ensures StatusSince(log, from) == StatusSince(log, 0)
  {
    hide StatusIn;
    if StatusIn(log[|log| - 1]).None? {
      var i :| from <= i < |log| && StatusIn(log[i]).Some?;
      assert log[..|log| - 1][i] == log[i];
      LastStatusIsRecent(log[..|log| - 1], from);
    }
  }

  /** In every run, a server whose mode is that of the last status it has had dispatched reads the statement that
      attachsql_query builds as the meant tokens, provided that some status has come since the last command. */
  lemma QueryReadAsMeant(login: Credentials, events: seq<Event>, statement: seq<byte>, params: seq<Param>)
    requires Inv(Opened(login)) && AllEnabled(Opened(login), events)
    requires params != [] && Query.Marks(statement) <= |params|
    requires var c := Run(Opened(login), events).core;
             && !c.fault && StatusCame(c.log, RunMarks(Opened(login), NO_MARKS, events).since)
             && WellPlaced(ModeOf(c), Literals.Lexed([], Literals.Plain), statement, params)
    ensures var c := Run(Opened(login), events).core;
            var server := ServerMode(StatusSince(c.log, 0));
            && ModeOf(c) == server
            && Literals.Read(server, Query.Sent(ModeOf(c), statement, params))
               == Literals.Finish(Meaning(server, Literals.Lexed([], Literals.Plain), statement, params))
  {
    hide Run, RunMarks, Literals.Run, StatusSince, Meaning, WellPlaced, Rendered, ModeIn, ServerMode, Inv;
    ModeOverRun(login, events);
    var c := Run(Opened(login), events).core;
    LastStatusIsRecent(c.log, RunMarks(Opened(login), NO_MARKS, events).since);
    TemplateMeans(ModeOf(c), Literals.Lexed([], Literals.Plain), statement, params);
  }
}
