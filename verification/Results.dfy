/** Whole answers: result sets ('COM_QUERY Response') and prepared statements ('COM_STMT_PREPARE Response'). */
module Results {
  import opened Options
  import opened Bytes
  import opened Pack
  import opened Protocol
  import opened Safety

  type Payloads = seq<seq<byte>>

  // The length field has three bytes.
  predicate Short(p: seq<byte>) {
    |p| < 0x100_0000
  }

  predicate AllShort(ps: Payloads) {
    forall i :: 0 <= i < |ps| ==> Short(ps[i])
  }

  function Next(n: byte): byte {
    (n + 1) % 0x100
  }

  // The packets with these payloads, numbered from n + 1 on.
  function Framed(ps: Payloads, n: byte): seq<byte> {
    if ps == [] then [] else FrameBytes(Frame(Response, Next(n), ps[0])) + Framed(ps[1..], Next(n))
  }

  // What is logged when they are dispatched as packets of these kinds.
  function Logged(kinds: seq<Kind>, ps: Payloads, n: byte): (log: seq<Frame>)
    requires |kinds| == |ps|
    ensures |log| == |ps|
  {
    if ps == [] then [] else [Frame(kinds[0], Next(n), ps[0])] + Logged(kinds[1..], ps[1..], Next(n))
  }

  function Repeat(k: Kind, n: nat): (kinds: seq<Kind>)
    ensures |kinds| == n
  {
    if n == 0 then [] else [k] + Repeat(k, n - 1)
  }

  lemma FrameRead(b: seq<byte>, number: byte, p: seq<byte>, rest: seq<byte>)
    requires Short(p) && b == Le(|p|, 3) + [number] + p + rest
    ensures Whole(b) && b[3] == number && Payload(b) == p && b[4..] == p + rest && b[4 + |p|..] == rest
  {
    Powers();
    assert b[0..3] == Le(|p|, 3);
    UnpackPacked(b, 0, |p|, 3);
    assert b[4..4 + |p|] == p;
  }

  // ---------------------------------------------------------------- packets taken one after the other

  predicate Expecting(c: Core) {
    |c.queue| == 1 && !c.fault && !c.queue[0].Handshake?
  }

  predicate Absorbable(c: Core, ps: Payloads)
    decreases |ps|
  {
    ps == [] || (Expecting(c) && c.status.Busy? && Short(ps[0]) && !Taken(c, ps[0]).held
                 && Absorbable(Taken(c, ps[0]).core, ps[1..]))
  }

  function Absorb(c: Core, ps: Payloads): Core
    requires Absorbable(c, ps)
    decreases |ps|
  {
    if ps == [] then c else Absorb(Taken(c, ps[0]).core, ps[1..])
  }

  lemma TakenNumber(c: Core, p: seq<byte>)
    requires Expecting(c)
    ensures Taken(c, p).core.number == Next(c.number)
  {
    var k := c.queue[0];
    DispatchNumber(c.(queue := [], number := Next(c.number), log := c.log + [Frame(k, Next(c.number), p)]), k, p);
  }

  // The loop takes a packet that is in sequence.
  lemma TakeOne(c: Con, ps: Payloads, rest: seq<byte>)
    requires Expecting(c.core) && ps != [] && Short(ps[0])
    requires c.unread == Framed(ps, c.core.number) + rest
    ensures Ready(c)
    ensures var out := Taken(c.core, ps[0]); var behind := Framed(ps[1..], Next(c.core.number)) + rest;
            ProcessOne(c) == if out.held then Con(out.core, ps[0] + behind, |ps[0]|) else Con(out.core, behind, 0)
  {
    hide Taken, Framed, Le;
    FramedFirst(ps, c.core.number);
    var behind := Framed(ps[1..], Next(c.core.number)) + rest;
    assert c.unread == Le(|ps[0]|, 3) + [Next(c.core.number)] + ps[0] + behind;
    FrameRead(c.unread, Next(c.core.number), ps[0], behind);
  }

  lemma {:induction false} Absorbed(c: Con, ps: Payloads, rest: seq<byte>)
    requires Absorbable(c.core, ps) && c.toEnd == 0 && c.unread == Framed(ps, c.core.number) + rest
    ensures Process(c) == Process(Con(Absorb(c.core, ps), rest, 0))
    decreases |ps|
  {
    hide Taken, ProcessOne, FrameBytes, Expecting;
    if ps == [] {
      assert [] + rest == rest;
    } else {
      TakeOne(c, ps, rest);
      TakenNumber(c.core, ps[0]);
      Absorbed(ProcessOne(c), ps[1..], rest);
    }
  }

  // As long as only a part of these packets has come, the connection is busy.
  lemma {:induction false} BusyOnPrefix(c: Con, ps: Payloads, all: seq<byte>)
    requires Absorbable(c.core, ps) && c.toEnd == 0
    requires all == Framed(ps, c.core.number) && c.unread <= all && c.unread != all
    ensures Process(c).core.status.Busy? && Process(c).core.queue != []
    decreases |ps|
  {
    hide Taken, ProcessOne, FrameBytes, Framed;
    FramedFirst(ps, c.core.number);
    if ps != [] {
      var f, later := FrameBytes(Frame(Response, Next(c.core.number), ps[0])), Framed(ps[1..], Next(c.core.number));
      if |c.unread| < |f| {
        FrameCut(c.unread, Next(c.core.number), ps[0], later);
        NothingReady(c);
      } else {
        var t := c.unread[|f|..];
        assert c.unread == f + t && t <= later && t != later;
        TakePart(c, ps[0], t);
        TakenNumber(c.core, ps[0]);
        BusyOnPrefix(ProcessOne(c), ps[1..], later);
      }
    }
  }

  lemma FramedFirst(ps: Payloads, n: byte)
    ensures ps == [] ==> Framed(ps, n) == []
    ensures ps != [] ==> Framed(ps, n) == FrameBytes(Frame(Response, Next(n), ps[0])) + Framed(ps[1..], Next(n))
  {
  }

  // A packet that is cut off is not taken for a whole one.
  lemma FrameCut(t: seq<byte>, number: byte, p: seq<byte>, rest: seq<byte>)
    requires Short(p) && var f := FrameBytes(Frame(Response, number, p)); t <= f + rest && |t| < |f|
    ensures !Whole(t)
  {
    var b := FrameBytes(Frame(Response, number, p)) + rest;
    FrameRead(b, number, p, rest);
    if 4 <= |t| {
      assert t[0..3] == b[0..3];
    }
  }

  lemma TakePart(c: Con, p: seq<byte>, rest: seq<byte>)
    requires Expecting(c.core) && Short(p) && !Taken(c.core, p).held
    requires c.unread == FrameBytes(Frame(Response, Next(c.core.number), p)) + rest
    ensures Ready(c) && ProcessOne(c) == Con(Taken(c.core, p).core, rest, 0)
  {
    hide Taken;
    FrameRead(c.unread, Next(c.core.number), p, rest);
  }

  lemma {:induction false} AbsorbJoins(c: Core, ps: Payloads, qs: Payloads)
    requires Absorbable(c, ps) && Absorbable(Absorb(c, ps), qs)
    ensures Absorbable(c, ps + qs) && Absorb(c, ps + qs) == Absorb(Absorb(c, ps), qs)
    decreases |ps|
  {
    hide Taken;
    if ps == [] {
      assert ps + qs == qs;
    } else {
      assert (ps + qs)[1..] == ps[1..] + qs && (ps + qs)[0] == ps[0];
      AbsorbJoins(Taken(c, ps[0]).core, ps[1..], qs);
    }
  }

  lemma AbsorbOne(c: Core, p: seq<byte>)
    requires Expecting(c) && c.status.Busy? && Short(p) && !Taken(c, p).held
    ensures Absorbable(c, [p]) && Absorb(c, [p]) == Taken(c, p).core
  {
    assert [p][1..] == [];
  }

  lemma {:induction false} FramedJoins(ps: Payloads, qs: Payloads, n: byte)
    ensures Framed(ps + qs, n) == Framed(ps, n) + Framed(qs, (n + |ps|) % 0x100)
    decreases |ps|
  {
    hide FrameBytes;
    if ps == [] {
      assert ps + qs == qs && [] + Framed(qs, n) == Framed(qs, n);
    } else {
      assert (ps + qs)[1..] == ps[1..] + qs;
      FramedJoins(ps[1..], qs, Next(n));
      NextPlus(n, |ps| - 1);
    }
  }

  lemma NextPlus(n: byte, k: nat)
    ensures (Next(n) + k) % 0x100 == (n + k + 1) % 0x100
  {
  }

  lemma LoggedStep(kinds: seq<Kind>, ps: Payloads, n: byte)
    requires |kinds| == |ps| > 0
    ensures Logged(kinds, ps, n) == [Frame(kinds[0], Next(n), ps[0])] + Logged(kinds[1..], ps[1..], Next(n))
  {
  }

  lemma LoggedNone(n: byte)
    ensures Logged([], [], n) == []
  {
  }

  lemma {:induction false} LoggedJoins(ks: seq<Kind>, ps: Payloads, ls: seq<Kind>, qs: Payloads, n: byte)
    requires |ks| == |ps| && |ls| == |qs|
    ensures Logged(ks + ls, ps + qs, n) == Logged(ks, ps, n) + Logged(ls, qs, (n + |ps|) % 0x100)
    decreases |ps|
  {
    hide Logged;
    if ps == [] {
      assert ps + qs == qs && ks + ls == ls;
      LoggedNone(n);
    } else {
      assert (ps + qs)[1..] == ps[1..] + qs && (ks + ls)[1..] == ks[1..] + ls;
      LoggedStep(ks, ps, n);
      LoggedStep(ks + ls, ps + qs, n);
      LoggedJoins(ks[1..], ps[1..], ls, qs, Next(n));
      NextPlus(n, |ps| - 1);
    }
  }

  // ---------------------------------------------------------------- runs of like packets

  // c with these packets logged and counted.
  function Counted(c: Core, k: Kind, ps: Payloads): Core {
    c.(number := (c.number + |ps|) % 0x100, log := c.log + Logged(Repeat(k, |ps|), ps, c.number))
  }

  lemma LogStep(log: seq<Frame>, k: Kind, ps: Payloads, n: byte)
    requires ps != []
    ensures log + Logged(Repeat(k, |ps|), ps, n)
            == log + [Frame(k, Next(n), ps[0])] + Logged(Repeat(k, |ps| - 1), ps[1..], Next(n))
  {
    hide Logged;
    assert Repeat(k, |ps|)[1..] == Repeat(k, |ps| - 1);
    LoggedStep(Repeat(k, |ps|), ps, n);
  }

  lemma LogNone(log: seq<Frame>, k: Kind, n: byte)
    ensures log + Logged(Repeat(k, 0), [], n) == log
  {
  }

  // One packet, and what it leaves to be taken.
  lemma AbsorbFirst(c: Core, ps: Payloads)
    requires ps != [] && Expecting(c) && c.status.Busy? && AllShort(ps) && !Taken(c, ps[0]).held
    ensures AllShort(ps[1..])
    ensures Absorbable(c, ps) <==> Absorbable(Taken(c, ps[0]).core, ps[1..])
    ensures Absorbable(c, ps) ==> Absorb(c, ps) == Absorb(Taken(c, ps[0]).core, ps[1..])
  {
  }

  // A packet of kind k, popped, numbered and logged.
  function Numbered(c: Core, k: Kind, p: seq<byte>): Core {
    c.(queue := [], number := Next(c.number), log := c.log + [Frame(k, Next(c.number), p)])
  }

  lemma ColumnTaken(c: Core, p: seq<byte>)
    requires c.queue == [Column] && c.result.currentColumn < c.result.columnCount
    ensures var next := c.result.currentColumn + 1;
            Taken(c, p) == Outcome(Numbered(c, Column, p).(
              queue := [if next == c.result.columnCount then Response else Column],
              result := c.result.(currentColumn := next)), false)
  {
  }

  // N column packets fill the columns from the current one to the last; then a response is expected.
  lemma {:induction false} Columns(c: Core, cols: Payloads)
    requires c.queue == [Column] && c.status.Busy? && !c.fault && cols != [] && AllShort(cols)
    requires c.result.currentColumn + |cols| == c.result.columnCount
    ensures Absorbable(c, cols)
    ensures Absorb(c, cols) ==
            Counted(c, Column, cols).(queue := [Response], result := c.result.(currentColumn := c.result.columnCount))
    decreases |cols|
  {
    hide Logged, Repeat, Taken, AllShort, Absorb;
    ColumnTaken(c, cols[0]);
    var d := Taken(c, cols[0]).core;
    LogStep(c.log, Column, cols, c.number);
    NextPlus(c.number, |cols| - 1);
    AbsorbFirst(c, cols);
    if |cols| > 1 {
      Columns(d, cols[1..]);
    } else {
      LogNone(d.log, Column, d.number);
      AbsorbOne(c, cols[0]);
      assert cols == [cols[0]] && cols[1..] == [];
    }
  }

  // The packet at hand always has a column of its own to be written to.
  lemma {:induction false} ColumnsInside(c: Core, cols: Payloads, i: nat)
    requires c.queue == [Column] && c.status.Busy? && !c.fault && AllShort(cols) && i < |cols|
    requires c.result.currentColumn + |cols| == c.result.columnCount
    ensures Absorbable(c, cols[..i])
    ensures var d := Absorb(c, cols[..i]);
            d.queue == [Column] && d.result.currentColumn == c.result.currentColumn + i < d.result.columnCount
    decreases i
  {
    hide Taken, AllShort, Absorb;
    if i == 0 {
      AbsorbNone(c);
      assert cols[..0] == [];
    } else {
      ColumnTaken(c, cols[0]);
      AbsorbFirst(c, cols);
      ShortFront(cols, i);
      AbsorbFirst(c, cols[..i]);
      ColumnsInside(Taken(c, cols[0]).core, cols[1..], i - 1);
      assert cols[..i][1..] == cols[1..][..i - 1];
    }
  }

  lemma AbsorbNone(c: Core)
    ensures Absorbable(c, []) && Absorb(c, []) == c
  {
  }

  lemma ShortFront(ps: Payloads, i: nat)
    requires AllShort(ps) && i <= |ps|
    ensures AllShort(ps[..i])
  {
  }

  // ---------------------------------------------------------------- the packets of an answer

  // What an EOF packet carries.
  datatype End = End(warnings: uint16, status: uint16)

  function EofPayload(e: End): (p: seq<byte>)
    ensures |p| == 5
  {
    [0xfe] + Le(e.warnings, 2) + Le(e.status, 2)
  }

  function WithEnd(i: Info, e: End): Info {
    i.(warnings := e.warnings, serverStatus := e.status)
  }

  lemma EofFields(e: End)
    ensures var p := EofPayload(e); p[0] == 0xfe && UnpackUint16(p, 1) == e.warnings && UnpackUint16(p, 3) == e.status
  {
    Powers();
    var p := EofPayload(e);
    UnpackPacked(p, 1, e.warnings, 2);
    UnpackPacked(p, 3, e.status, 2);
  }

  lemma CountFields(n: nat)
    requires 0 < n < 0x1_0000
    ensures var p := LengthBytes(n);
            HasLength(p, 0) && UnpackLength(p, 0).value == n && p[0] !in {0x00, 0xfe, 0xff} && Short(p)
  {
    AtAll(LengthBytes(n));
    LengthRoundTrip(LengthBytes(n), 0, n);
  }

  lemma CountTaken(c: Core, n: nat)
    requires c.queue == [Response] && 0 < n < 0x1_0000
    ensures Taken(c, LengthBytes(n)) == Outcome(Numbered(c, Response, LengthBytes(n)).(
              queue := [Column], result := c.result.(columnCount := n), command := ReadColumn), false)
  {
    hide LengthBytes, HasLength, UnpackLength;
    CountFields(n);
  }

  lemma ColumnEofTaken(c: Core, e: End)
    requires c.queue == [Response] && c.command.ReadColumn?
    ensures Taken(c, EofPayload(e)) == Outcome(Numbered(c, Response, EofPayload(e)).(
              queue := [Row], info := WithEnd(c.info, e), command := ReadRow), false)
  {
    hide EofPayload, HasLength, UnpackLength, UnpackUint16;
    EofFields(e);
  }

  lemma RowEofTaken(c: Core, e: End)
    requires c.queue == [Row] && c.command.ReadRow?
    ensures Taken(c, EofPayload(e)) == Outcome(Numbered(c, Row, EofPayload(e)).(
              info := WithEnd(c.info, e), result := c.result.(row := None), command := Eof, status := Idle), false)
  {
    hide EofPayload, HasLength, UnpackLength, UnpackUint16;
    EofFields(e);
  }

  lemma RowTaken(c: Core, p: seq<byte>)
    requires c.queue == [Row] && p != [] && p[0] != 0xfe
    ensures Taken(c, p) == Outcome(Numbered(c, Row, p).(
              result := c.result.(row := Some(p)), command := RowInBuffer, status := Idle), true)
  {
  }

  // ---------------------------------------------------------------- columns of a result set

  function HeadKinds(n: nat): (kinds: seq<Kind>)
    ensures |kinds| == n + 2
  {
    [Response] + Repeat(Column, n) + [Response]
  }

  function Head(cols: Payloads, e: End): (ps: Payloads)
    requires |cols| < 0x1_0000
    ensures |ps| == |cols| + 2
  {
    [LengthBytes(|cols|)] + cols + [EofPayload(e)]
  }

  function AfterHead(c: Core, cols: Payloads, e: End): Core
    requires |cols| < 0x1_0000
  {
    c.(queue := [Row], number := (c.number + |cols| + 2) % 0x100, command := ReadRow,
       info := WithEnd(c.info, e),
       result := c.result.(columnCount := |cols|, currentColumn := |cols|),
       log := c.log + Logged(HeadKinds(|cols|), Head(cols, e), c.number))
  }

  lemma LoggedOne(k: Kind, p: seq<byte>, n: byte)
    ensures Logged([k], [p], n) == [Frame(k, Next(n), p)]
  {
    LoggedNone(Next(n));
    assert [p][1..] == [] && [k][1..] == [];
  }

  lemma LoggedCons(k: Kind, ks: seq<Kind>, p: seq<byte>, ps: Payloads, n: byte)
    requires |ks| == |ps|
    ensures Logged([k] + ks, [p] + ps, n) == [Frame(k, Next(n), p)] + Logged(ks, ps, Next(n))
  {
    assert ([k] + ks)[1..] == ks && ([p] + ps)[1..] == ps;
  }

  lemma LoggedSnoc(ks: seq<Kind>, k: Kind, ps: Payloads, p: seq<byte>, n: byte)
    requires |ks| == |ps|
    ensures Logged(ks + [k], ps + [p], n) == Logged(ks, ps, n) + [Frame(k, Next((n + |ps|) % 0x100), p)]
  {
    hide Logged;
    LoggedJoins(ks, ps, [k], [p], n);
    LoggedOne(k, p, (n + |ps|) % 0x100);
  }

  lemma Sandwich(ks: seq<Kind>, ps: Payloads, first: seq<byte>, last: seq<byte>, n: byte)
    requires |ks| == |ps|
    ensures Logged([Response] + ks + [Response], [first] + ps + [last], n)
            == [Frame(Response, Next(n), first)] + Logged(ks, ps, Next(n))
               + [Frame(Response, Next((Next(n) + |ps|) % 0x100), last)]
  {
    hide Logged, Next;
    var kinds, payloads := [Response] + ks, [first] + ps;
    LoggedSnoc(kinds, Response, payloads, last, n);
    NextPlus(n, |ps|);
    assert (Next(n) + |ps|) % 0x100 == (n + |payloads|) % 0x100;
    LoggedCons(Response, ks, first, ps, n);
  }

  lemma SandwichLog(log: seq<Frame>, a: Frame, middle: seq<Frame>, z: Frame, all: seq<Frame>)
    requires all == [a] + middle + [z]
    ensures log + [a] + middle + [z] == log + all
  {
  }

  lemma NextAfter(n: byte, k: nat)
    ensures Next((Next(n) + k) % 0x100) == (n + k + 2) % 0x100
  {
  }

  lemma HeadLog(log: seq<Frame>, cols: Payloads, e: End, n: byte)
    requires |cols| < 0x1_0000
    ensures log + [Frame(Response, Next(n), LengthBytes(|cols|))] + Logged(Repeat(Column, |cols|), cols, Next(n))
            + [Frame(Response, Next((Next(n) + |cols|) % 0x100), EofPayload(e))]
            == log + Logged(HeadKinds(|cols|), Head(cols, e), n)
  {
    hide Logged, LengthBytes, EofPayload, Repeat, Next;
    var ks, count, eof := Repeat(Column, |cols|), LengthBytes(|cols|), EofPayload(e);
    Sandwich(ks, cols, count, eof, n);
    SandwichLog(log, Frame(Response, Next(n), count), Logged(ks, cols, Next(n)),
                Frame(Response, Next((Next(n) + |cols|) % 0x100), eof), Logged(HeadKinds(|cols|), Head(cols, e), n));
  }

  // The three steps of HeadTaken.
  lemma HeadSteps(c: Core, cols: Payloads, e: End)
    requires c.queue == [Response] && c.status.Busy? && !c.fault && c.result.currentColumn == 0
    requires 0 < |cols| < 0x1_0000 && AllShort(cols)
    ensures var c1 := Taken(c, LengthBytes(|cols|)).core;
            && Expecting(c1) && c1.status.Busy? && Absorbable(c1, cols)
            && var c2 := Absorb(c1, cols);
               Expecting(c2) && c2.status.Busy? && Taken(c2, EofPayload(e)) == Outcome(AfterHead(c, cols, e), false)
  {
    hide Taken, Logged, LengthBytes, EofPayload, Repeat, Absorb, Absorbable, AllShort, Next, Head, HeadKinds;
    CountTaken(c, |cols|);
    var c1 := Taken(c, LengthBytes(|cols|)).core;
    Columns(c1, cols);
    ColumnEofTaken(Absorb(c1, cols), e);
    HeadLog(c.log, cols, e, c.number);
    NextAfter(c.number, |cols|);
  }

  lemma HeadTaken(c: Core, cols: Payloads, e: End)
    requires c.queue == [Response] && c.status.Busy? && !c.fault && c.result.currentColumn == 0
    requires 0 < |cols| < 0x1_0000 && AllShort(cols)
    ensures Absorbable(c, Head(cols, e)) && Absorb(c, Head(cols, e)) == AfterHead(c, cols, e)
  {
    hide Taken, LengthBytes, EofPayload, Absorb, Absorbable, AllShort, AfterHead;
    var count, eof := LengthBytes(|cols|), EofPayload(e);
    CountTaken(c, |cols|);
    CountFields(|cols|);
    HeadSteps(c, cols, e);
    var c1 := Taken(c, count).core;
    AbsorbOne(c, count);
    AbsorbOne(Absorb(c1, cols), eof);
    AbsorbJoins(c, [count], cols);
    AbsorbJoins(c, [count] + cols, [eof]);
  }

  // ---------------------------------------------------------------- rows

  // A row as it may be sent: an empty packet is none, and 0xfe marks the end.
  predicate ValidRow(p: seq<byte>) {
    p != [] && p[0] != 0xfe && Short(p)
  }

  predicate ValidRows(rows: Payloads) {
    forall i :: 0 <= i < |rows| ==> ValidRow(rows[i])
  }

  // n times attachsql_get_next_row.
  function FetchRows(c: Con, n: nat): Con
    decreases n
  {
    if n == 0 then c else FetchRows(if c.toEnd <= |c.unread| then GetNextRow(c) else c, n - 1)
  }

  // The row is in the buffer, and the application is told so.
  predicate ShowsRow(c: Con, row: seq<byte>) {
    && c.core.queue == [] && c.core.result.row == Some(row)
    && Poll(c.core).PollRowReady?
    && c.toEnd == |row| <= |c.unread| && c.unread[..|row|] == row
  }

  function AfterRows(c: Core, rows: Payloads, e: End): Core {
    c.(queue := [], number := (c.number + |rows| + 1) % 0x100, command := Eof, status := Idle,
       info := WithEnd(c.info, e), result := c.result.(row := None),
       log := c.log + Logged(Repeat(Row, |rows| + 1), rows + [EofPayload(e)], c.number))
  }

  // The state with one row in the buffer.
  function WithRow(c: Core, row: seq<byte>, behind: seq<byte>): Con {
    Con(Numbered(c, Row, row).(result := c.result.(row := Some(row)), command := RowInBuffer, status := Idle),
        row + behind, |row|)
  }

  lemma FirstRow(c: Con, ps: Payloads, rest: seq<byte>)
    requires c.core.queue == [Row] && !c.core.fault && c.core.info.errno == 0
    requires ps != [] && ValidRow(ps[0]) && c.unread == Framed(ps, c.core.number) + rest
    ensures var d := WithRow(c.core, ps[0], Framed(ps[1..], Next(c.core.number)) + rest);
            Process(c) == d && ShowsRow(d, ps[0])
  {
    hide Taken, Framed;
    TakeOne(c, ps, rest);
    RowTaken(c.core, ps[0]);
    NothingReady(ProcessOne(c));
  }

  lemma RowsEnd(c: Con, e: End, rest: seq<byte>)
    requires c.core.queue == [Row] && c.core.command.ReadRow? && !c.core.fault
    requires c.unread == Framed([EofPayload(e)], c.core.number) + rest
    ensures Process(c) == Con(AfterRows(c.core, [], e), rest, 0)
  {
    hide Taken, FrameBytes, EofPayload, Logged;
    TakeOne(c, [EofPayload(e)], rest);
    RowEofTaken(c.core, e);
    NothingReady(ProcessOne(c));
    assert Framed([EofPayload(e)][1..], Next(c.core.number)) + rest == rest;
    assert Repeat(Row, 1) == [Row] && [] + [EofPayload(e)] == [EofPayload(e)];
    LoggedOne(Row, EofPayload(e), c.core.number);
  }

  lemma AfterRowsStep(c: Core, row: seq<byte>, behind: seq<byte>, rows: Payloads, e: End)
    ensures AfterRows(ExpectRow(WithRow(c, row, behind)).core, rows, e) == AfterRows(c, [row] + rows, e)
  {
    hide EofPayload, Logged, Repeat;
    var ps := [row] + rows + [EofPayload(e)];
    LogStep(c.log, Row, ps, c.number);
    assert ps[1..] == rows + [EofPayload(e)];
    NextPlus(c.number, |rows| + 1);
  }

  /** Every row stops the loop once, with that row in the buffer; the EOF packet behind them ends the command. */
  lemma {:induction false} RowsFetched(c: Con, rows: Payloads, e: End, rest: seq<byte>)
    requires c.core.queue == [Row] && c.core.command.ReadRow? && !c.core.fault && c.core.info.errno == 0
    requires ValidRows(rows) && c.unread == Framed(rows + [EofPayload(e)], c.core.number) + rest
    ensures forall i :: 0 <= i < |rows| ==>
              var d := FetchRows(Process(c), i);
              ShowsRow(d, rows[i]) && d.core.result.columnCount == c.core.result.columnCount
    ensures FetchRows(Process(c), |rows|) == Con(AfterRows(c.core, rows, e), rest, 0)
    decreases |rows|
  {
    hide Process, Framed, EofPayload, AfterRows, ShowsRow;
    if rows == [] {
      assert rows + [EofPayload(e)] == [EofPayload(e)];
      RowsEnd(c, e, rest);
    } else {
      var ps, row, later := rows + [EofPayload(e)], rows[0], rows[1..];
      assert ps[1..] == later + [EofPayload(e)];
      FirstRow(c, ps, rest);
      var behind := Framed(ps[1..], Next(c.core.number)) + rest;
      var d := WithRow(c.core, row, behind);
      assert ExpectRow(d).unread == behind;
      RowsFetched(ExpectRow(d), later, e, rest);
      AfterRowsStep(c.core, row, behind, later, e);
      assert [row] + later == rows;
      forall i | 0 <= i < |rows|
        ensures var e := FetchRows(d, i);
                ShowsRow(e, rows[i]) && e.core.result.columnCount == c.core.result.columnCount
      {
        if i > 0 {
          assert rows[i] == later[i - 1];
        }
      }
    }
  }
}
