/** The answer to a prepare: 'COM_STMT_PREPARE Response'. */
module Preparing {
  import opened Bytes
  import opened Protocol
  import opened Safety
  import opened Results

  // The packets ps, expected as these kinds, lead from c to d.
  predicate Phase(c: Core, d: Core, kinds: seq<Kind>, ps: Payloads) {
    && |kinds| == |ps|
    && Absorbable(c, ps) && Absorb(c, ps) == d
    && d.log == c.log + Logged(kinds, ps, c.number) && d.number == (c.number + |ps|) % 0x100
  }

  lemma PhaseJoins(c: Core, d: Core, e: Core, ks: seq<Kind>, ps: Payloads, ls: seq<Kind>, qs: Payloads)
    requires Phase(c, d, ks, ps) && Phase(d, e, ls, qs)
    ensures Phase(c, e, ks + ls, ps + qs)
  {
    hide Absorbable, Absorb, Logged;
    AbsorbJoins(c, ps, qs);
    LoggedJoins(ks, ps, ls, qs, c.number);
  }

  lemma PhaseNone(c: Core)
    ensures Phase(c, c, [], [])
  {
  }

  lemma PhaseOne(c: Core, k: Kind, p: seq<byte>)
    requires c.queue == [k] && !k.Handshake? && c.status.Busy? && !c.fault && Short(p) && !Taken(c, p).held
    ensures Phase(c, Taken(c, p).core, [k], [p])
  {
    hide Dispatch;
    AbsorbOne(c, p);
    LoggedOne(k, p, c.number);
    var popped := c.(queue := [], number := Next(c.number), log := c.log + [Frame(k, Next(c.number), p)]);
    DispatchLogs(popped, k, p);
    DispatchNumber(popped, k, p);
  }

  // ---------------------------------------------------------------- the packets

  datatype Reply = Reply(
    id: uint32, warnings: uint16, tail: seq<byte>, params: Payloads, endParams: End, cols: Payloads, endCols: End)

  predicate ValidReply(r: Reply) {
    |r.params| < 0x1_0000 && AllShort(r.params) && |r.cols| < 0x1_0000 && AllShort(r.cols) && |r.tail| < 0x1_0000
  }

  function PrepareOk(r: Reply): (p: seq<byte>)
    ensures |p| == 12 + |r.tail|
  {
    [0x00] + Le(r.id, 4) + Le(|r.cols|, 2) + Le(|r.params|, 2) + [0x00] + Le(r.warnings, 2) + r.tail
  }

  // Definitions are closed by an EOF packet, if there are any.
  function Closed(ps: Payloads, e: End): (r: Payloads)
    ensures |r| == if ps == [] then 0 else |ps| + 1
  {
    if ps == [] then [] else ps + [EofPayload(e)]
  }

  function ClosedKinds(k: Kind, n: nat): (kinds: seq<Kind>)
    ensures |kinds| == if n == 0 then 0 else n + 1
  {
    if n == 0 then [] else Repeat(k, n) + [Response]
  }

  function ReplyPayloads(r: Reply): (ps: Payloads)
    ensures |ps| == 1 + (if r.params == [] then 0 else |r.params| + 1) + (if r.cols == [] then 0 else |r.cols| + 1)
  {
    [PrepareOk(r)] + Closed(r.params, r.endParams) + Closed(r.cols, r.endCols)
  }

  function ReplyKinds(r: Reply): (kinds: seq<Kind>)
    ensures |kinds| == |ReplyPayloads(r)|
  {
    [PrepareResponse] + ClosedKinds(PrepareParameter, |r.params|) + ClosedKinds(PrepareColumn, |r.cols|)
  }

  lemma OkFields(r: Reply)
    requires ValidReply(r)
    ensures var p := PrepareOk(r);
            && p[0] == 0x00 && UnpackUint32(p, 1) == r.id && UnpackUint16(p, 5) == |r.cols|
            && UnpackUint16(p, 7) == |r.params| && UnpackUint16(p, 10) == r.warnings
  {
    Powers();
    var p := PrepareOk(r);
    UnpackPacked(p, 1, r.id, 4);
    UnpackPacked(p, 5, |r.cols|, 2);
    UnpackPacked(p, 7, |r.params|, 2);
    UnpackPacked(p, 10, r.warnings, 2);
  }

  // ---------------------------------------------------------------- the steps

  // What the first packet sets.
  function Known(c: Core, r: Reply): Core
    requires ValidReply(r)
  {
    Numbered(c, PrepareResponse, PrepareOk(r)).(
      stmt := c.stmt.(id := r.id, columnCount := |r.cols|, paramCount := |r.params|, prepared := true),
      info := c.info.(warnings := r.warnings))
  }

  lemma PrepareTaken(c: Core, r: Reply)
    requires c.queue == [PrepareResponse] && ValidReply(r)
    ensures var d := Known(c, r);
            Taken(c, PrepareOk(r)) == Outcome(
              if r.params != [] then d.(queue := [PrepareParameter], command := ReadStmtParam)
              else if r.cols != [] then d.(queue := [PrepareColumn], command := ReadStmtColumn)
              else Finished(d), false)
  {
    hide PrepareOk, UnpackUint16, UnpackUint32, Next;
    OkFields(r);
    assert Expected(c, PrepareResponse) == Next(c.number) by { NextIs(c.number); }
  }

  lemma NextIs(n: byte)
    ensures Next(n) == (n + 1) % 0x100
  {
  }

  lemma ParameterTaken(c: Core, p: seq<byte>)
    requires c.queue == [PrepareParameter] && c.stmt.currentParam < c.stmt.paramCount
    ensures var next := c.stmt.currentParam + 1;
            Taken(c, p) == Outcome(Numbered(c, PrepareParameter, p).(
              queue := [if next == c.stmt.paramCount then Response else PrepareParameter],
              stmt := c.stmt.(currentParam := next)), false)
  {
  }

  lemma PrepareColumnTaken(c: Core, p: seq<byte>)
    requires c.queue == [PrepareColumn] && c.stmt.currentColumn < c.stmt.columnCount
    ensures var next := c.stmt.currentColumn + 1;
            Taken(c, p) == Outcome(Numbered(c, PrepareColumn, p).(
              queue := [if next == c.stmt.columnCount then Response else PrepareColumn],
              stmt := c.stmt.(currentColumn := next)), false)
  {
  }

  // Everything but what was counted and logged on the way is c.
  function Onwards(c: Core, d: Core): Core {
    c.(number := d.number, log := d.log)
  }

  lemma {:induction false} Parameters(c: Core, ps: Payloads) returns (d: Core)
    requires c.queue == [PrepareParameter] && c.status.Busy? && !c.fault && ps != [] && AllShort(ps)
    requires c.stmt.currentParam + |ps| == c.stmt.paramCount
    ensures Phase(c, d, Repeat(PrepareParameter, |ps|), ps)
    ensures d == Onwards(c, d).(queue := [Response], stmt := c.stmt.(currentParam := c.stmt.paramCount))
    decreases |ps|
  {
    hide Taken, Phase;
    assert Repeat(PrepareParameter, |ps|) == [PrepareParameter] + Repeat(PrepareParameter, |ps| - 1);
    ParameterTaken(c, ps[0]);
    PhaseOne(c, PrepareParameter, ps[0]);
    d := Taken(c, ps[0]).core;
    assert ps == [ps[0]] + ps[1..];
    if |ps| > 1 {
      var e := Parameters(d, ps[1..]);
      PhaseJoins(c, d, e, [PrepareParameter], [ps[0]], Repeat(PrepareParameter, |ps| - 1), ps[1..]);
      d := e;
    } else {
      assert Repeat(PrepareParameter, |ps|) == [PrepareParameter] && ps == [ps[0]];
    }
  }

  lemma {:induction false} PrepareColumns(c: Core, ps: Payloads) returns (d: Core)
    requires c.queue == [PrepareColumn] && c.status.Busy? && !c.fault && ps != [] && AllShort(ps)
    requires c.stmt.currentColumn + |ps| == c.stmt.columnCount
    ensures Phase(c, d, Repeat(PrepareColumn, |ps|), ps)
    ensures d == Onwards(c, d).(queue := [Response], stmt := c.stmt.(currentColumn := c.stmt.columnCount))
    decreases |ps|
  {
    hide Taken, Phase;
    assert Repeat(PrepareColumn, |ps|) == [PrepareColumn] + Repeat(PrepareColumn, |ps| - 1);
    PrepareColumnTaken(c, ps[0]);
    PhaseOne(c, PrepareColumn, ps[0]);
    d := Taken(c, ps[0]).core;
    assert ps == [ps[0]] + ps[1..];
    if |ps| > 1 {
      var e := PrepareColumns(d, ps[1..]);
      PhaseJoins(c, d, e, [PrepareColumn], [ps[0]], Repeat(PrepareColumn, |ps| - 1), ps[1..]);
      d := e;
    } else {
      assert Repeat(PrepareColumn, |ps|) == [PrepareColumn] && ps == [ps[0]];
    }
  }

  lemma DefinitionsEnd(c: Core, e: End)
    requires c.queue == [Response] && (c.command.ReadStmtParam? || c.command.ReadStmtColumn?)
    ensures var d := Numbered(c, Response, EofPayload(e)).(info := WithEnd(c.info, e));
            Taken(c, EofPayload(e)) == Outcome(
              if c.command.ReadStmtParam? && c.stmt.columnCount > 0
              then d.(queue := [PrepareColumn], command := ReadStmtColumn)
              else Finished(d), false)
  {
    hide EofPayload, UnpackUint16;
    EofFields(e);
  }

  // ---------------------------------------------------------------- the whole reply

  // The statement is ready for use.
  predicate Ends(d: Core, r: Reply) {
    && d.queue == [] && d.status.Idle? && d.command.Eof? && d.info.errno == 0 && !d.fault
    && |r.cols| < 0x1_0000 && |r.params| < 0x1_0000
    && d.stmt == Stmt(r.id, |r.cols|, |r.cols|, |r.params|, |r.params|, true)
  }

  // From the parameters on.
  lemma ReadParameters(c: Core, r: Reply) returns (d: Core)
    requires ValidReply(r) && c.status.Busy? && !c.fault && c.info.errno == 0 && r.params != []
    requires c.queue == [PrepareParameter] && c.command.ReadStmtParam?
    requires c.stmt == Stmt(r.id, |r.cols|, 0, |r.params|, 0, true)
    ensures Phase(c, d, ClosedKinds(PrepareParameter, |r.params|), Closed(r.params, r.endParams))
    ensures if r.cols == [] then Ends(d, r)
            else d.queue == [PrepareColumn] && d.command.ReadStmtColumn? && d.status.Busy? && !d.fault
                 && d.info.errno == 0
                 && d.stmt == Stmt(r.id, |r.cols|, 0, |r.params|, |r.params|, true)
  {
    hide Taken, Phase, EofPayload;
    var e := Parameters(c, r.params);
    DefinitionsEnd(e, r.endParams);
    PhaseOne(e, Response, EofPayload(r.endParams));
    d := Taken(e, EofPayload(r.endParams)).core;
    PhaseJoins(c, e, d, Repeat(PrepareParameter, |r.params|), r.params, [Response], [EofPayload(r.endParams)]);
  }

  lemma ReadColumns(c: Core, r: Reply) returns (d: Core)
    requires ValidReply(r) && c.status.Busy? && !c.fault && c.info.errno == 0 && r.cols != []
    requires c.queue == [PrepareColumn] && c.command.ReadStmtColumn?
    requires c.stmt == Stmt(r.id, |r.cols|, 0, |r.params|, |r.params|, true)
    ensures Phase(c, d, ClosedKinds(PrepareColumn, |r.cols|), Closed(r.cols, r.endCols))
    ensures Ends(d, r)
  {
    hide Taken, Phase, EofPayload;
    var e := PrepareColumns(c, r.cols);
    DefinitionsEnd(e, r.endCols);
    PhaseOne(e, Response, EofPayload(r.endCols));
    d := Taken(e, EofPayload(r.endCols)).core;
    PhaseJoins(c, e, d, Repeat(PrepareColumn, |r.cols|), r.cols, [Response], [EofPayload(r.endCols)]);
  }

  // After attachsql_statement_prepare has sent its command.
  predicate Preparing(c: Core) {
    c.queue == [PrepareResponse] && c.status.Busy? && !c.fault && c.info.errno == 0 && c.stmt == NEW_STMT
  }

  lemma ReplyPhase(c: Core, r: Reply) returns (d: Core)
    requires Preparing(c) && ValidReply(r)
    ensures Phase(c, d, ReplyKinds(r), ReplyPayloads(r)) && Ends(d, r)
  {
    hide Taken, Phase, EofPayload, PrepareOk;
    PrepareTaken(c, r);
    PhaseOne(c, PrepareResponse, PrepareOk(r));
    var c1 := Taken(c, PrepareOk(r)).core;
    var c2 := c1;
    if r.params != [] {
      c2 := ReadParameters(c1, r);
    } else {
      PhaseNone(c1);
    }
    var ks, ps := ClosedKinds(PrepareParameter, |r.params|), Closed(r.params, r.endParams);
    PhaseJoins(c, c1, c2, [PrepareResponse], [PrepareOk(r)], ks, ps);
    d := c2;
    if r.cols != [] {
      d := ReadColumns(c2, r);
    } else {
      PhaseNone(c2);
    }
    PhaseJoins(c, c2, d, [PrepareResponse] + ks, [PrepareOk(r)] + ps, ClosedKinds(PrepareColumn, |r.cols|),
               Closed(r.cols, r.endCols));
  }

  /** The reply is taken as 1 + (P > 0 ? P + 1 : 0) + (C > 0 ? C + 1 : 0) packets, and the statement is prepared. */
  lemma ReplyRead(c: Con, r: Reply, rest: seq<byte>)
    requires Preparing(c.core) && ValidReply(r) && c.toEnd == 0
    requires c.unread == Framed(ReplyPayloads(r), c.core.number) + rest
    ensures var e := Process(c);
            && Ends(e.core, r) && Poll(e.core).PollEof? && e.unread == rest && e.toEnd == 0
            && e.core.log == c.core.log + Logged(ReplyKinds(r), ReplyPayloads(r), c.core.number)
  {
    hide Framed, Logged, ReplyPayloads, ReplyKinds, Absorb, Absorbable;
    var d := ReplyPhase(c.core, r);
    Absorbed(c, ReplyPayloads(r), rest);
    NothingReady(Con(d, rest, 0));
  }

  /** Until the last byte of the reply has come, the connection is busy. */
  lemma BusyUntilLast(c: Con, r: Reply)
    requires Preparing(c.core) && ValidReply(r) && c.toEnd == 0
    requires var all := Framed(ReplyPayloads(r), c.core.number); c.unread <= all && c.unread != all
    ensures Process(c).core.status.Busy? && Poll(Process(c).core).PollProcessing?
  {
    hide Framed, Logged, ReplyPayloads, ReplyKinds, Absorb, Absorbable;
    var d := ReplyPhase(c.core, r);
    BusyOnPrefix(c, ReplyPayloads(r), Framed(ReplyPayloads(r), c.core.number));
  }
}
