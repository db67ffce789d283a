/** From the bytes of a result set to the cells of its rows: fetching a row and reading it. */
module Cells {
  import opened Options
  import opened Bytes
  import opened Rows
  import opened Protocol
  import opened Results
  import opened Answers

  // The rows as they are sent.
  function TextRows(table: seq<seq<Cell>>): (rows: Payloads)
    ensures |rows| == |table|
  {
    seq(|table|, i requires 0 <= i < |table| => TextRow(table[i]))
  }

  // Every row has a cell for every column, and fits a packet.
  predicate ValidTable(table: seq<seq<Cell>>, columns: nat) {
    forall i :: 0 <= i < |table| ==> |table[i]| == columns && Results.Short(TextRow(table[i]))
  }

  lemma TableRows(table: seq<seq<Cell>>, columns: nat)
    requires columns > 0 && ValidTable(table, columns)
    ensures ValidRows(TextRows(table))
  {
    hide TextRow;
    forall i | 0 <= i < |table| ensures ValidRow(TextRow(table[i])) {
      RowMark(table[i]);
      SomeBytes(table[i]);
    }
  }

  lemma SomeBytes(cells: seq<Cell>)
    requires cells != []
    ensures TextRow(cells) != []
  {
  }

  // The row in the buffer, read by the loop of attachsql_query_row_get, yields exactly these cells.
  predicate ReadsAs(c: Con, cells: seq<Cell>) {
    c.core.result.row.Some? &&
    var raw, columns := c.core.result.row.value, c.core.result.columnCount;
    && columns == |cells| && Readable(raw, 0, columns)
    && forall j :: 0 <= j < columns ==> Holds(raw, Slots(raw, 0, columns)[j], Contents(cells[j]))
  }

  /** For a result set whose rows are the encodings of a table, every fetch followed by reading the row yields the
      cells of
      the next row of the table, and the poll before it reports a row. */
  lemma TableRecovered(c: Con, cols: Payloads, head: End, table: seq<seq<Cell>>, end: End, rest: seq<byte>)
    requires 0 < |cols| < 0x1_0000 && AllShort(cols) && ValidTable(table, |cols|)
    requires ValidAnswer(RowSet(cols, head, TextRows(table), end)) && Awaiting(c.core) && c.toEnd == 0
    requires c.unread == Framed(PayloadsOf(RowSet(cols, head, TextRows(table), end)), c.core.number) + rest
    ensures forall i :: 0 <= i < |table| ==>
              var d := FetchRows(Process(c), i); Poll(d.core).PollRowReady? && ReadsAs(d, table[i])
  {
    hide Process, Framed, FetchRows, TextRow, Readable, Slots, Holds, Awaiting;
    RowSetRead(c, RowSet(cols, head, TextRows(table), end), rest);
    forall i | 0 <= i < |table|
      ensures var d := FetchRows(Process(c), i); Poll(d.core).PollRowReady? && ReadsAs(d, table[i])
    {
      TextRowRecovered(table[i]);
      var d := FetchRows(Process(c), i);
      assert ShowsRow(d, TextRows(table)[i]);
      assert d.core.result.row == Some(TextRow(table[i]));
    }
  }
}
