/** Answers of a server taken as a whole: result sets, chains of them, and the answer to a prepare. */
module Answers {
  import opened Options
  import opened Bytes
  import opened Pack
  import opened Protocol
  import opened Safety
  import opened Results
  import opened Chunking

  // ---------------------------------------------------------------- result sets and plain successes

  datatype Answer =
    | RowSet(cols: Payloads, head: End, rows: Payloads, end: End)
    | Success(affectedRows: uint64, insertId: uint64, end: End, message: seq<byte>)

  predicate ValidAnswer(a: Answer) {
    match a
    case RowSet(cols, _, rows, _) => 0 < |cols| < 0x1_0000 && AllShort(cols) && ValidRows(rows)
    case Success(_, _, _, _) => Short(OkPayload(a))
  }

  function OkPayload(a: Answer): seq<byte>
    requires a.Success?
  {
    [0x00] + LengthBytes(a.affectedRows) + LengthBytes(a.insertId) + Le(a.end.status, 2)
    + Le(a.end.warnings, 2) + a.message
  }

  function RowsOf(a: Answer): Payloads {
    if a.RowSet? then a.rows else []
  }

  function PayloadsOf(a: Answer): (ps: Payloads)
    requires ValidAnswer(a)
    ensures |ps| == if a.RowSet? then |a.cols| + |a.rows| + 3 else 1
  {
    if a.RowSet? then Head(a.cols, a.head) + (a.rows + [EofPayload(a.end)]) else [OkPayload(a)]
  }

  function KindsOf(a: Answer): (kinds: seq<Kind>)
    ensures |kinds| == if a.RowSet? then |a.cols| + |a.rows| + 3 else 1
  {
    if a.RowSet? then HeadKinds(|a.cols|) + Repeat(Row, |a.rows| + 1) else [Response]
  }

  // Where an answer begins: after a command was sent, or the next result was asked for.
  predicate Awaiting(c: Core) {
    c.queue == [Response] && c.status.Busy? && !c.fault && c.info.errno == 0 && c.result.currentColumn == 0
  }

  // The command is over, and all packets of the answer are logged.
  function AfterAnswer(c: Core, a: Answer): Core
    requires ValidAnswer(a)
  {
    c.(queue := [], number := (c.number + |PayloadsOf(a)|) % 0x100, command := Eof, status := Idle,
       info := if a.RowSet? then WithEnd(c.info, a.end)
               else Info(a.affectedRows, a.insertId, a.end.status, a.end.warnings, c.info.errno),
       result := if a.RowSet? then Result(|a.cols|, |a.cols|, None) else c.result,
       log := c.log + Logged(KindsOf(a), PayloadsOf(a), c.number))
  }

  lemma OkFields(a: Answer)
    requires a.Success?
    ensures var p := OkPayload(a);
            && p[0] == 0x00 && HasLength(p, 1) && UnpackLength(p, 1).value == a.affectedRows
            && var at := 1 + UnpackLength(p, 1).bytes;
               && HasLength(p, at) && UnpackLength(p, at).value == a.insertId
               && var next := at + UnpackLength(p, at).bytes;
                  && next + 4 <= |p|
                  && UnpackUint16(p, next) == a.end.status && UnpackUint16(p, next + 2) == a.end.warnings
  {
    hide LengthBytes, HasLength, UnpackLength, At, Le, UnpackInt;
    var p, x, y := OkPayload(a), LengthBytes(a.affectedRows), LengthBytes(a.insertId);
    var s, w := Le(a.end.status, 2), Le(a.end.warnings, 2);
    AtAll(p);
    AtSplit(p, 0, [0x00] + x + y + s + w, a.message);
    AtSplit(p, 0, [0x00] + x + y + s, w);
    AtSplit(p, 0, [0x00] + x + y, s);
    AtSplit(p, 0, [0x00] + x, y);
    AtSplit(p, 0, [0x00], x);
    LengthRoundTrip(p, 1, a.affectedRows);
    LengthRoundTrip(p, 1 + |x|, a.insertId);
    Powers();
    UnpackIntAt(p, 1 + |x| + |y|, a.end.status, 2);
    UnpackIntAt(p, 3 + |x| + |y|, a.end.warnings, 2);
  }

  lemma OkTaken(c: Core, a: Answer)
    requires c.queue == [Response] && c.status.Busy? && a.Success?
    ensures Taken(c, OkPayload(a)) == Outcome(Numbered(c, Response, OkPayload(a)).(
              info := Info(a.affectedRows, a.insertId, a.end.status, a.end.warnings, c.info.errno),
              command := Eof, status := Idle), false)
  {
    hide OkPayload, HasLength, UnpackLength, UnpackUint16;
    OkFields(a);
  }

  lemma SuccessRead(c: Con, a: Answer, rest: seq<byte>)
    requires Awaiting(c.core) && a.Success? && ValidAnswer(a) && c.toEnd == 0
    requires c.unread == Framed(PayloadsOf(a), c.core.number) + rest
    ensures Process(c) == Con(AfterAnswer(c.core, a), rest, 0)
  {
    hide Taken, OkPayload, Logged, Framed;
    var p := OkPayload(a);
    OkTaken(c.core, a);
    AbsorbOne(c.core, p);
    Absorbed(c, [p], rest);
    LoggedOne(Response, p, c.core.number);
    NothingReady(Con(AfterAnswer(c.core, a), rest, 0));
  }

  lemma RowSetLog(log: seq<Frame>, ks: seq<Kind>, ps: Payloads, ls: seq<Kind>, qs: Payloads, n: byte)
    requires |ks| == |ps| && |ls| == |qs|
    ensures log + Logged(ks, ps, n) + Logged(ls, qs, (n + |ps|) % 0x100) == log + Logged(ks + ls, ps + qs, n)
    ensures ((n + |ps|) % 0x100 + |qs|) % 0x100 == (n + |ps| + |qs|) % 0x100
  {
    hide Logged;
    LoggedJoins(ks, ps, ls, qs, n);
  }

  lemma RowSetEnds(c: Core, a: Answer)
    requires a.RowSet? && ValidAnswer(a)
    ensures AfterRows(AfterHead(c, a.cols, a.head), a.rows, a.end) == AfterAnswer(c, a)
  {
    hide Logged, Head, HeadKinds, Repeat, EofPayload;
    RowSetLog(c.log, HeadKinds(|a.cols|), Head(a.cols, a.head), Repeat(Row, |a.rows| + 1),
        a.rows + [EofPayload(a.end)], c.number);
  }

  /** A result set of N columns and R rows is taken as N + R + 3 packets, in order, with R stops at the R rows. */
  lemma AnswerRead(c: Con, a: Answer, rest: seq<byte>)
    requires Awaiting(c.core) && ValidAnswer(a) && c.toEnd == 0
    requires c.unread == Framed(PayloadsOf(a), c.core.number) + rest
    ensures forall i :: 0 <= i < |RowsOf(a)| ==> ShowsRow(FetchRows(Process(c), i), RowsOf(a)[i])
    ensures FetchRows(Process(c), |RowsOf(a)|) == Con(AfterAnswer(c.core, a), rest, 0)
    ensures Poll(AfterAnswer(c.core, a)).PollEof?
  {
    hide Process, Framed, GetNextRow, Logged, PayloadsOf, KindsOf, ShowsRow;
    if a.Success? {
      SuccessRead(c, a, rest);
    } else {
      RowSetRead(c, a, rest);
    }
  }

  lemma RowSetRead(c: Con, a: Answer, rest: seq<byte>)
    requires Awaiting(c.core) && a.RowSet? && ValidAnswer(a) && c.toEnd == 0
    requires c.unread == Framed(PayloadsOf(a), c.core.number) + rest
    ensures forall i :: 0 <= i < |a.rows| ==>
              var d := FetchRows(Process(c), i); ShowsRow(d, a.rows[i]) && d.core.result.columnCount == |a.cols|
    ensures FetchRows(Process(c), |a.rows|) == Con(AfterAnswer(c.core, a), rest, 0)
  {
    hide Process, Framed, Head, EofPayload, Absorb, Absorbable, ShowsRow, Logged, FetchRows, AfterAnswer, AfterRows;
    var head, tail := Head(a.cols, a.head), a.rows + [EofPayload(a.end)];
    FramedJoins(head, tail, c.core.number);
    HeadTaken(c.core, a.cols, a.head);
    var d := Con(AfterHead(c.core, a.cols, a.head), Framed(tail, (c.core.number + |head|) % 0x100) + rest, 0);
    assert c.unread == Framed(head, c.core.number) + d.unread;
    Absorbed(c, head, d.unread);
    RowsFetched(d, a.rows, a.end, rest);
    RowSetEnds(c.core, a);
  }

  // ---------------------------------------------------------------- several results of one command

  // nexts: what attachsql_command_next_result returned, call by call.
  datatype Driven = Driven(con: Con, nexts: seq<bool>)

  // The application fetches all rows of a result (counts says how many) and asks for the next one, as long as there
  // is one.
  function Drive(c: Con, counts: seq<nat>): Driven
    decreases |counts|
  {
    if counts == [] then Driven(c, [])
    else
      var d := FetchRows(Process(c), counts[0]);
      if HasNext(d) then
        var r := Drive(NextResult(d), counts[1..]);
        Driven(r.con, [true] + r.nexts)
      else Driven(d, [false])
  }

  // All results but the last one say that more follow.
  predicate Chain(answers: seq<Answer>) {
    && answers != []
    && (forall i :: 0 <= i < |answers| ==> ValidAnswer(answers[i]))
    && (forall i :: 0 <= i < |answers| ==> (Announces(answers[i].end) <==> i < |answers| - 1))
  }

  // SERVER_MORE_RESULTS_EXISTS, 0x0008
  predicate Announces(e: End) {
    e.status / 8 % 2 == 1
  }

  lemma ChainTail(answers: seq<Answer>)
    requires Chain(answers) && |answers| > 1
    ensures Chain(answers[1..])
  {
    hide ValidAnswer, Announces;
    var more := answers[1..];
    forall i | 0 <= i < |more| ensures ValidAnswer(more[i]) && (Announces(more[i].end) <==> i < |more| - 1) {
      assert more[i] == answers[i + 1];
    }
  }

  // Asking for the next result leaves the connection waiting for it; the numbers go on.
  lemma NextAwaits(c: Core, a: Answer, behind: seq<byte>)
    requires Awaiting(c) && ValidAnswer(a)
    ensures var d := NextResult(Con(AfterAnswer(c, a), behind, 0));
            && Awaiting(d.core) && d.unread == behind && d.toEnd == 0
            && d.core.number == (c.number + |PayloadsOf(a)|) % 0x100
            && d.core.log == c.log + Logged(KindsOf(a), PayloadsOf(a), c.number)
  {
    hide PayloadsOf, KindsOf, Logged;
  }

  lemma LastOver(d: Con, c: Core, a: Answer, rest: seq<byte>, n: byte)
    requires ValidAnswer(a) && Over(d, c, KindsOf(a), PayloadsOf(a), Framed([], n) + rest)
    ensures Over(d, c, AllKinds([a]), AllPayloads([a]), rest)
  {
    hide PayloadsOf, KindsOf, Logged;
    var none: seq<Answer> := [a][1..];
    assert none == [] && Framed([], n) + rest == rest;
    assert PayloadsOf(a) + [] == PayloadsOf(a) && KindsOf(a) + [] == KindsOf(a);
  }

  function AllPayloads(answers: seq<Answer>): Payloads
    requires forall i :: 0 <= i < |answers| ==> ValidAnswer(answers[i])
  {
    if answers == [] then [] else PayloadsOf(answers[0]) + AllPayloads(answers[1..])
  }

  function AllKinds(answers: seq<Answer>): (kinds: seq<Kind>)
    requires forall i :: 0 <= i < |answers| ==> ValidAnswer(answers[i])
    ensures |kinds| == |AllPayloads(answers)|
  {
    if answers == [] then [] else KindsOf(answers[0]) + AllKinds(answers[1..])
  }

  function Counts(answers: seq<Answer>): (counts: seq<nat>)
    ensures |counts| == |answers|
  {
    if answers == [] then [] else [|RowsOf(answers[0])|] + Counts(answers[1..])
  }

  function TrueThenFalse(n: nat): (r: seq<bool>)
    ensures |r| == n + 1
  {
    if n == 0 then [false] else [true] + TrueThenFalse(n - 1)
  }

  // The command is over, with these packets logged.
  predicate Over(c: Con, before: Core, kinds: seq<Kind>, ps: Payloads, rest: seq<byte>)
    requires |kinds| == |ps|
  {
    && c.core.queue == [] && c.core.status.Idle? && c.core.command.Eof? && Poll(c.core).PollEof?
    && c.unread == rest && c.toEnd == 0 && !c.core.fault
    && c.core.number == (before.number + |ps|) % 0x100
    && c.core.log == before.log + Logged(kinds, ps, before.number)
  }

  lemma OneOver(c: Core, a: Answer, rest: seq<byte>)
    requires Awaiting(c) && ValidAnswer(a)
    ensures Over(Con(AfterAnswer(c, a), rest, 0), c, KindsOf(a), PayloadsOf(a), rest)
    ensures HasNext(Con(AfterAnswer(c, a), rest, 0)) <==> Announces(a.end)
  {
  }

  lemma OverJoins(e: Con, before: Core, between: Core, ks: seq<Kind>, ps: Payloads, ls: seq<Kind>, qs: Payloads,
                  rest: seq<byte>)
    requires |ks| == |ps| && |ls| == |qs|
    requires between.number == (before.number + |ps|) % 0x100
             && between.log == before.log + Logged(ks, ps, before.number)
    requires Over(e, between, ls, qs, rest)
    ensures Over(e, before, ks + ls, ps + qs, rest)
  {
    hide Logged;
    RowSetLog(before.log, ks, ps, ls, qs, before.number);
  }

  /** K results in a chain are taken one after the other to the last byte, and next_result returns true K - 1 times. */
  lemma {:induction false} ChainRead(c: Con, answers: seq<Answer>, rest: seq<byte>)
    requires Awaiting(c.core) && Chain(answers) && c.toEnd == 0
    requires c.unread == Framed(AllPayloads(answers), c.core.number) + rest
    ensures var r := Drive(c, Counts(answers));
            && r.nexts == TrueThenFalse(|answers| - 1)
            && Over(r.con, c.core, AllKinds(answers), AllPayloads(answers), rest)
    decreases |answers|
  {
    hide Process, Framed, FetchRows, AfterAnswer, PayloadsOf, KindsOf, ValidAnswer, Awaiting, Over, HasNext, Announces;
    var a, more := answers[0], answers[1..];
    var ps, qs := PayloadsOf(a), AllPayloads(more);
    FramedJoins(ps, qs, c.core.number);
    var n := (c.core.number + |ps|) % 0x100;
    var behind := Framed(qs, n) + rest;
    assert c.unread == Framed(ps, c.core.number) + behind;
    AnswerRead(c, a, behind);
    OneOver(c.core, a, behind);
    var d := Con(AfterAnswer(c.core, a), behind, 0);
    if more == [] {
      LastOver(d, c.core, a, rest, n);
    } else {
      NextAwaits(c.core, a, behind);
      ChainTail(answers);
      ChainRead(NextResult(d), more, rest);
      var r := Drive(NextResult(d), Counts(more));
      OverJoins(r.con, c.core, NextResult(d).core, KindsOf(a), ps, AllKinds(more), qs, rest);
    }
  }

  // ---------------------------------------------------------------- however the bytes come

  function RowCalls(n: nat): seq<Event> {
    if n == 0 then [] else [NextRow] + RowCalls(n - 1)
  }

  lemma {:induction false} ReplayFetches(c: Con, rows: Payloads)
    requires forall i :: 0 <= i < |rows| ==> ShowsRow(FetchRows(c, i), rows[i])
    ensures Replay(c, RowCalls(|rows|)) == FetchRows(c, |rows|)
    decreases |rows|
  {
    hide Process;
    if rows != [] {
      assert ShowsRow(FetchRows(c, 0), rows[0]);
      assert RowCalls(|rows|)[1..] == RowCalls(|rows| - 1);
      forall i | 0 <= i < |rows[1..]| ensures ShowsRow(FetchRows(GetNextRow(c), i), rows[1..][i]) {
        assert ShowsRow(FetchRows(c, i + 1), rows[i + 1]);
      }
      ReplayFetches(GetNextRow(c), rows[1..]);
    }
  }

  /** In whatever chunks an answer comes and whenever its rows are fetched, all of it is taken, and the command ends. */
  lemma AnswerInChunks(c: Con, a: Answer, events: seq<Event>)
    requires Awaiting(c.core) && ValidAnswer(a) && c.toEnd == 0 && c.unread == [] && Inv(c)
    requires AllEnabled(c, events) && Steady(events)
    requires Delivered(events) == Framed(PayloadsOf(a), c.core.number) && Calls(c, events) == RowCalls(|RowsOf(a)|)
    ensures Process(Run(c, events)) == Con(AfterAnswer(c.core, a), [], 0)
  {
    hide Process, Framed, PayloadsOf, AfterAnswer, Replay, FetchRows, Run, RowCalls, Inv, ShowsRow;
    RunReplays(c, events);
    var d := Appended(c, Delivered(events));
    assert d.unread == Framed(PayloadsOf(a), c.core.number) + [];
    AnswerRead(d, a, []);
    ReplayFetches(Process(d), RowsOf(a));
  }

  // The calls of an application that fetches all rows of all results.
  function ChainCalls(answers: seq<Answer>): seq<Event> {
    if answers == [] then []
    else
      var fetches := RowCalls(|RowsOf(answers[0])|);
      if |answers| == 1 then fetches else fetches + ([MoreResults] + ChainCalls(answers[1..]))
  }

  lemma {:induction false} ReplayJoins(c: Con, first: seq<Event>, then': seq<Event>)
    ensures Replay(c, first + then') == Replay(Replay(c, first), then')
    decreases |first|
  {
    hide Process, Call;
    if first == [] {
      assert first + then' == then';
    } else {
      assert (first + then')[1..] == first[1..] + then';
      ReplayJoins(Process(Call(c, first[0])), first[1..], then');
    }
  }

  lemma ReplayMore(c: Con, calls: seq<Event>)
    ensures Replay(c, [MoreResults] + calls) == Replay(Process(NextResult(c)), calls)
  {
    hide Process;
    assert ([MoreResults] + calls)[1..] == calls;
  }

  lemma {:induction false} ReplayDrives(c: Con, answers: seq<Answer>, rest: seq<byte>)
    requires Awaiting(c.core) && Chain(answers) && c.toEnd == 0
    requires c.unread == Framed(AllPayloads(answers), c.core.number) + rest
    ensures Replay(Process(c), ChainCalls(answers)) == Drive(c, Counts(answers)).con
    decreases |answers|
  {
    hide Process, Framed, FetchRows, AfterAnswer, PayloadsOf, KindsOf, ValidAnswer, Awaiting, HasNext, Announces,
      Replay, RowCalls, ShowsRow;
    var a, more := answers[0], answers[1..];
    var ps, qs := PayloadsOf(a), AllPayloads(more);
    FramedJoins(ps, qs, c.core.number);
    var behind := Framed(qs, (c.core.number + |ps|) % 0x100) + rest;
    assert c.unread == Framed(ps, c.core.number) + behind;
    AnswerRead(c, a, behind);
    OneOver(c.core, a, behind);
    ReplayFetches(Process(c), RowsOf(a));
    var d := Con(AfterAnswer(c.core, a), behind, 0);
    if more != [] {
      NextAwaits(c.core, a, behind);
      ChainTail(answers);
      ReplayDrives(NextResult(d), more, rest);
      ReplayJoins(Process(c), RowCalls(|RowsOf(a)|), [MoreResults] + ChainCalls(more));
      ReplayMore(d, ChainCalls(more));
    }
  }

  /** A chain of results that comes in any chunks, with all rows fetched and all results asked for at any time,
      is taken to its last byte. */
  lemma ChainInChunks(c: Con, answers: seq<Answer>, events: seq<Event>)
    requires Awaiting(c.core) && Chain(answers) && c.toEnd == 0 && c.unread == [] && Inv(c)
    requires AllEnabled(c, events) && Steady(events)
    requires Delivered(events) == Framed(AllPayloads(answers), c.core.number) && Calls(c, events) == ChainCalls(answers)
    ensures Over(Process(Run(c, events)), c.core, AllKinds(answers), AllPayloads(answers), [])
  {
    hide Process, Framed, Replay, Run, Inv, ValidAnswer, Announces, Awaiting, Over, Drive, AllPayloads, ChainCalls;
    RunReplays(c, events);
    var d := Appended(c, Delivered(events));
    assert d.unread == Framed(AllPayloads(answers), c.core.number) + [];
    ReplayDrives(d, answers, []);
    ChainRead(d, answers, []);
  }

  // ---------------------------------------------------------------- packets in the place of a row

  /** Where a row is expected, every packet but those that begin with 0xfe is shown as a row: error packets as well. */
  lemma RowExact(c: Con, p: seq<byte>, rest: seq<byte>)
    requires c.core.queue == [Row] && c.core.command.ReadRow? && !c.core.fault && c.core.info.errno == 0
    requires p != [] && Short(p) && c.unread == Framed([p], c.core.number) + rest && c.toEnd == 0
    ensures ShowsRow(Process(c), p) <==> p[0] != 0xfe
  {
    hide Framed, Taken;
    TakeOne(c, [p], rest);
    if p[0] == 0xfe {
      NoRowAtEof(c.core, p);
      EofShowsNoRow(c, p);
    } else {
      FirstRow(c, [p], rest);
    }
  }

  lemma NoRowAtEof(c: Core, p: seq<byte>)
    requires c.queue == [Row] && c.command.ReadRow? && p != [] && p[0] == 0xfe
    ensures var out := Taken(c, p); !out.held && out.core.queue == [] && out.core.result.row == None
  {
  }

  lemma EofShowsNoRow(c: Con, p: seq<byte>)
    requires Ready(c) && ProcessOne(c).core.queue == [] && ProcessOne(c).core.result.row == None
    ensures !ShowsRow(Process(c), p)
  {
    hide ProcessOne;
    NothingReady(ProcessOne(c));
  }
}
