/** Reading result rows: the text rows of src/query.cc and the binary rows of src/statement_getset.cc. */
module Rows {
  import opened Bytes
  import opened Pack
  import opened Types

  datatype Cell = NoValue | Value(data: Data)

  function Contents(c: Cell): seq<byte> {
    if c.NoValue? then [] else c.data
  }

  // ---------------------------------------------------------------- text rows

  function CellBytes(c: Cell): (s: seq<byte>)
    ensures |s| >= 1
  {
    if c.NoValue? then [0xfb] else DataBytes(c.data)
  }

  function TextRow(cells: seq<Cell>): seq<byte> {
    if cells == [] then [] else CellBytes(cells[0]) + TextRow(cells[1..])
  }

  // Where a cell stands in the raw row, and how long it is: attachsql_query_row_st.
  datatype Slot = Slot(at: nat, length: nat)

  predicate Readable(raw: seq<byte>, p: nat, columns: nat)
    decreases columns
  {
    columns == 0 ||
    (HasLength(raw, p) &&
     var u := UnpackLength(raw, p);
     p + u.bytes + u.value <= |raw| && Readable(raw, p + u.bytes + u.value, columns - 1))
  }

  function Slots(raw: seq<byte>, p: nat, columns: nat): (slots: seq<Slot>)
    requires Readable(raw, p, columns)
    ensures |slots| == columns
    decreases columns
  {
    if columns == 0 then []
    else
      var u := UnpackLength(raw, p);
      [Slot(p + u.bytes, u.value)] + Slots(raw, p + u.bytes + u.value, columns - 1)
  }

  // The bytes of a slot are exactly s.
  predicate Holds(raw: seq<byte>, slot: Slot, s: seq<byte>) {
    slot.length == |s| && At(raw, slot.at, s)
  }

  // One by one the slots hold the cells, and between the end of a slot and the next only a length is written.
  predicate AllHold(raw: seq<byte>, slots: seq<Slot>, cells: seq<Cell>, p: nat, end: nat) {
    |slots| == |cells| &&
    if slots == [] then p == end
    else
      && p < slots[0].at <= p + 9
      && Holds(raw, slots[0], Contents(cells[0]))
      && AllHold(raw, slots[1..], cells[1..], slots[0].at + slots[0].length, end)
  }

  lemma {:induction false} AllHoldAt(raw: seq<byte>, slots: seq<Slot>, cells: seq<Cell>, p: nat, end: nat, i: nat)
    requires AllHold(raw, slots, cells, p, end) && i < |cells|
    ensures Holds(raw, slots[i], Contents(cells[i]))
  {
    if i > 0 {
      AllHoldAt(raw, slots[1..], cells[1..], slots[0].at + slots[0].length, end, i - 1);
    }
  }

  lemma CellAt(raw: seq<byte>, p: nat, c: Cell)
    requires At(raw, p, CellBytes(c))
    ensures HasLength(raw, p) && p + |CellBytes(c)| <= |raw|
    ensures var u := UnpackLength(raw, p);
            && u.value == |Contents(c)| && 0 < u.bytes <= 9 && u.bytes + u.value == |CellBytes(c)|
            && At(raw, p + u.bytes, Contents(c)) && (u.isNull <==> c.NoValue?)
  {
    AtByIndex(raw, p, CellBytes(c));
    if c.Value? {
      DataAt(raw, p, c.data);
    }
  }

  lemma {:induction false} SlotsHold(raw: seq<byte>, p: nat, cells: seq<Cell>)
    requires At(raw, p, TextRow(cells))
    ensures Readable(raw, p, |cells|)
    ensures AllHold(raw, Slots(raw, p, |cells|), cells, p, p + |TextRow(cells)|)
    decreases |cells|
  {
    hide CellBytes, UnpackLength, HasLength, At, Contents;
    if cells != [] {
      AtSplit(raw, p, CellBytes(cells[0]), TextRow(cells[1..]));
      CellAt(raw, p, cells[0]);
      SlotsHold(raw, p + |CellBytes(cells[0])|, cells[1..]);
    }
  }

  /** The reading loop finds exactly the cells of any row, NULL read as an empty cell, and stops at its last byte. */
  lemma TextRowRecovered(cells: seq<Cell>)
    ensures var raw := TextRow(cells);
            && Readable(raw, 0, |cells|)
            && var slots := Slots(raw, 0, |cells|);
            && AllHold(raw, slots, cells, 0, |raw|)
            && forall i :: 0 <= i < |cells| ==> Holds(raw, slots[i], Contents(cells[i]))
  {
    hide TextRow, Readable, Slots, Holds;
    var raw := TextRow(cells);
    AtAll(raw);
    SlotsHold(raw, 0, cells);
    forall i | 0 <= i < |cells| ensures Holds(raw, Slots(raw, 0, |cells|)[i], Contents(cells[i])) {
      AllHoldAt(raw, Slots(raw, 0, |cells|), cells, 0, |raw|, i);
    }
  }

  /** A row starts with the end-of-rows mark exactly when its first cell has 2^24 bytes or more. */
  lemma RowMark(cells: seq<Cell>)
    requires cells != []
    ensures TextRow(cells)[0] == 0xfe <==> cells[0].Value? && |cells[0].data| >= 0x100_0000
    ensures |TextRow(cells)| < 0x100_0000 ==> TextRow(cells)[0] != 0xfe
  {
    if cells[0].Value? {
      LengthLead(|cells[0].data|);
    }
  }

  /** A NULL cell and an empty cell are read alike. */
  lemma NullReadsAsEmpty(raw: seq<byte>, p: nat)
    requires p < |raw| && (raw[p] == 0xfb || raw[p] == 0)
    ensures Readable(raw, p, 1) && Slots(raw, p, 1) == [Slot(p + 1, 0)]
  {
    assert Slots(raw, p + 1, 0) == [];
  }

  datatype RowResult = BufferedMode | NoData | RowReady

  // The array of an earlier row is used again, if there is one.
  method RowGet(bufferRows: bool, rowInBuffer: bool, raw: seq<byte>, totalColumns: uint16, conRow: array?<Slot>)
    returns (result: RowResult, row: array?<Slot>)
    requires conRow != null ==> totalColumns <= conRow.Length
    requires !bufferRows && rowInBuffer ==> Readable(raw, 0, totalColumns)
    modifies conRow
    ensures result == if bufferRows then BufferedMode else if !rowInBuffer then NoData else RowReady
    ensures result != RowReady ==> row == conRow && (row != null ==> row[..] == old(row[..]))
    ensures result == RowReady ==>
              && row != null && totalColumns <= row.Length && (conRow != null ==> row == conRow)
              && row[..totalColumns] == Slots(raw, 0, totalColumns)
              && (conRow != null ==> row[totalColumns..] == old(row[totalColumns..]))
  {
    row := conRow;
    if bufferRows {
      return BufferedMode, row;
    }
    if !rowInBuffer {
      return NoData, row;
    }
    if row == null {
      row := new Slot[totalColumns](_ => Slot(0, 0));
    }
    FillRow(raw, totalColumns, row);
    return RowReady, row;
  }

  // The loop over the columns.
  method FillRow(raw: seq<byte>, totalColumns: uint16, row: array<Slot>)
    requires totalColumns <= row.Length && Readable(raw, 0, totalColumns)
    modifies row
    ensures row[..totalColumns] == Slots(raw, 0, totalColumns)
    ensures row[totalColumns..] == old(row[totalColumns..])
  {
    var rawRow: nat := 0;
    var column: nat := 0;
    while column < totalColumns
      invariant column <= totalColumns && Readable(raw, rawRow, totalColumns - column)
      invariant row[..column] + Slots(raw, rawRow, totalColumns - column) == Slots(raw, 0, totalColumns)
      invariant row[totalColumns..] == old(row[totalColumns..])
    {
      var u := UnpackLength(raw, rawRow);
      rawRow := rawRow + u.bytes;
      row[column] := Slot(rawRow, u.value);
      rawRow := rawRow + u.value;
      column := column + 1;
    }
  }

  // ---------------------------------------------------------------- binary rows

  datatype Layout = LengthCoded | ByteCoded | Fixed(width: nat) | BadData

  // How the value of a column is laid out.
  function LayoutOf(t: ColumnType): Layout {
    match t
    case String | VarChar | VarString | Enum | Set | LongBlob | MediumBlob | TinyBlob | Blob | Geometry | Bit
       | Decimal | NewDecimal => LengthCoded
    case Date | DateTime | Timestamp | Time => ByteCoded
    case LongLong | Double => Fixed(8)
    case Long | Int24 | Float => Fixed(4)
    case Short | Year => Fixed(2)
    case Tiny => Fixed(1)
    case Null => Fixed(0)
    case Error => BadData
    case Unknown(_) => BadData
  }

  predicate Fits(t: ColumnType, c: Cell) {
    c.NoValue? ||
    match LayoutOf(t)
    case LengthCoded => true
    case ByteCoded => |c.data| < 0x100
    case Fixed(n) => |c.data| == n
    case BadData => false
  }

  function FieldBytes(t: ColumnType, c: Cell): seq<byte>
    requires Fits(t, c)
  {
    if c.NoValue? then []
    else match LayoutOf(t)
      case LengthCoded => DataBytes(c.data)
      case ByteCoded => [|c.data|] + c.data
      case Fixed(_) => c.data
  }

  predicate AllFit(types: seq<ColumnType>, cells: seq<Cell>) {
    |types| == |cells| && forall i :: 0 <= i < |cells| ==> Fits(types[i], cells[i])
  }

  function FieldsBytes(types: seq<ColumnType>, cells: seq<Cell>): seq<byte>
    requires AllFit(types, cells)
  {
    if cells == [] then [] else FieldBytes(types[0], cells[0]) + FieldsBytes(types[1..], cells[1..])
  }

  function Nulls(cells: seq<Cell>): (nulls: seq<bool>)
    ensures |nulls| == |cells|
  {
    seq(|cells|, i requires 0 <= i < |cells| => cells[i].NoValue?)
  }

  /** The Binary Protocol Resultset Row: a zero byte, the NULL bitmap with offset 2, the values. */
  function BinaryRow(types: seq<ColumnType>, cells: seq<Cell>): seq<byte>
    requires AllFit(types, cells)
  {
    [0] + (Bitmap(Nulls(cells), 2) + FieldsBytes(types, cells))
  }

  // attachsql_stmt_row_st
  datatype Field = Field(at: nat, length: nat, fieldType: ColumnType)

  // The type of a column once the NULL bitmap, which starts at raw[1], has been looked at.
  function TypeIn(raw: seq<byte>, types: seq<ColumnType>, column: nat): ColumnType
    requires column < |types| && 1 + BitmapLength(|types|, 2) <= |raw|
  {
    if BitSet(raw[1 + (column + 2) / 8], (column + 2) % 8) then Null else types[column]
  }

  function TypesIn(raw: seq<byte>, types: seq<ColumnType>): (ts: seq<ColumnType>)
    requires 1 + BitmapLength(|types|, 2) <= |raw|
    ensures |ts| == |types|
  {
    seq(|types|, i requires 0 <= i < |types| => TypeIn(raw, types, i))
  }

  // A value of type t stands at p.
  predicate HasField(raw: seq<byte>, p: nat, t: ColumnType) {
    match LayoutOf(t)
    case LengthCoded => HasLength(raw, p) && var u := UnpackLength(raw, p); p + u.bytes + u.value <= |raw|
    case ByteCoded => p < |raw| && p + 1 + raw[p] <= |raw|
    case Fixed(n) => p + n <= |raw|
    case BadData => false
  }

  function FieldIn(raw: seq<byte>, p: nat, t: ColumnType): (f: Field)
    requires HasField(raw, p, t)
    ensures p <= f.at && f.at + f.length <= |raw|
  {
    match LayoutOf(t)
    case LengthCoded => var u := UnpackLength(raw, p); Field(p + u.bytes, u.value, t)
    case ByteCoded => Field(p + 1, raw[p], t)
    case Fixed(n) => Field(p, n, t)
  }

  function EndOf(f: Field): nat { f.at + f.length }

  // Values of these types stand one after the other from p on, up to the first bad type if there is one.
  predicate FieldsReadable(raw: seq<byte>, ts: seq<ColumnType>, p: nat)
    decreases |ts|
  {
    ts == [] || LayoutOf(ts[0]).BadData? ||
    (HasField(raw, p, ts[0]) && FieldsReadable(raw, ts[1..], EndOf(FieldIn(raw, p, ts[0]))))
  }

  function FieldsFrom(raw: seq<byte>, ts: seq<ColumnType>, p: nat): (fields: seq<Field>)
    requires FieldsReadable(raw, ts, p)
    ensures |fields| <= |ts|
    decreases |ts|
  {
    if ts == [] || LayoutOf(ts[0]).BadData? then []
    else [FieldIn(raw, p, ts[0])] + FieldsFrom(raw, ts[1..], EndOf(FieldIn(raw, p, ts[0])))
  }

  predicate RowReadable(raw: seq<byte>, types: seq<ColumnType>) {
    var start := 1 + BitmapLength(|types|, 2);
    start <= |raw| && FieldsReadable(raw, TypesIn(raw, types), start)
  }

  // The fields read before the first bad type, if there is one.
  function FieldsOf(raw: seq<byte>, types: seq<ColumnType>): (fields: seq<Field>)
    requires RowReadable(raw, types)
    ensures |fields| <= |types|
  {
    FieldsFrom(raw, TypesIn(raw, types), 1 + BitmapLength(|types|, 2))
  }

  lemma FieldsStep(raw: seq<byte>, ts: seq<ColumnType>, column: nat, p: nat)
    requires column < |ts| && FieldsReadable(raw, ts[column..], p)
    ensures LayoutOf(ts[column]).BadData? || HasField(raw, p, ts[column])
    ensures LayoutOf(ts[column]).BadData? ==> FieldsFrom(raw, ts[column..], p) == []
    ensures !LayoutOf(ts[column]).BadData? ==>
              var f := FieldIn(raw, p, ts[column]);
              && FieldsReadable(raw, ts[column + 1..], EndOf(f))
              && FieldsFrom(raw, ts[column..], p) == [f] + FieldsFrom(raw, ts[column + 1..], EndOf(f))
  {
    hide FieldIn, HasField, LayoutOf;
    assert ts[column..][0] == ts[column] && ts[column..][1..] == ts[column + 1..];
  }

  // The switch of the reading loop: the length of a value of type t and where it starts.
  method ReadField(raw: seq<byte>, p: nat, t: ColumnType) returns (ok: bool, at: nat, length: nat)
    requires LayoutOf(t).BadData? || HasField(raw, p, t)
    ensures ok <==> !LayoutOf(t).BadData?
    ensures ok ==> FieldIn(raw, p, t) == Field(at, length, t)
  {
    ok, at, length := true, p, 0;
    match LayoutOf(t) {
      case LengthCoded =>
        var u := UnpackLength(raw, p);
        length := u.value;
        at := p + u.bytes;
      case ByteCoded =>
        length := raw[p];
        at := p + 1;
      case Fixed(n) =>
        length := n;
      case BadData =>
        ok := false;
    }
  }

  method StatementRowGet(raw: seq<byte>, types: seq<ColumnType>, stmtRow: array<Field>) returns (ok: bool)
    requires RowReadable(raw, types) && |types| <= stmtRow.Length
    modifies stmtRow
    ensures ok <==> |FieldsOf(raw, types)| == |types|
    ensures var fields := FieldsOf(raw, types); stmtRow[..] == fields + old(stmtRow[..])[|fields|..]
  {
    hide FieldIn, HasField, LayoutOf, FieldsFrom, FieldsReadable, BitSet;
    var total := |types|;
    var bitmap := 1;
    var rawRow: nat := bitmap + (total + 7 + 2) / 8;
    ghost var was, ts := stmtRow[..], TypesIn(raw, types);
    var column: nat := 0;
    while column < total
      invariant column <= total && FieldsReadable(raw, ts[column..], rawRow)
      invariant stmtRow[..column] + FieldsFrom(raw, ts[column..], rawRow) == FieldsOf(raw, types)
      invariant stmtRow[column..] == was[column..]
    {
      var t := types[column];
      if BitSet(raw[bitmap + (column + 2) / 8], (column + 2) % 8) {
        t := Null;
      }
      assert t == ts[column];
      FieldsStep(raw, ts, column, rawRow);
      var read, at, length := ReadField(raw, rawRow, t);
      if !read {
        assert stmtRow[..] == stmtRow[..column] + was[column..];
        return false;
      }
      ghost var done := stmtRow[..column];
      stmtRow[column] := Field(at, length, t);
      rawRow := at + length;
      column := column + 1;
      assert stmtRow[..column] == done + [Field(at, length, t)] && stmtRow[column..] == was[column..];
    }
    NoFields(raw, ts, rawRow);
    assert stmtRow[..] == stmtRow[..column] + was[column..];
    return true;
  }

  lemma NoFields(raw: seq<byte>, ts: seq<ColumnType>, p: nat)
    ensures FieldsReadable(raw, ts[|ts|..], p) && FieldsFrom(raw, ts[|ts|..], p) == []
  {
  }

  // The field has the type of the column, or NULL, and exactly the bytes of the value.
  predicate FieldHolds(raw: seq<byte>, f: Field, t: ColumnType, c: Cell) {
    && f.length == |Contents(c)| && At(raw, f.at, Contents(c))
    && f.fieldType == SentType(t, c)
  }

  function SentType(t: ColumnType, c: Cell): ColumnType { if c.NoValue? then Null else t }

  lemma FieldAt(raw: seq<byte>, p: nat, t: ColumnType, c: Cell)
    requires Fits(t, c) && At(raw, p, FieldBytes(t, c))
    ensures HasField(raw, p, SentType(t, c)) && FieldHolds(raw, FieldIn(raw, p, SentType(t, c)), t, c)
    ensures !LayoutOf(SentType(t, c)).BadData?
    ensures EndOf(FieldIn(raw, p, SentType(t, c))) == p + |FieldBytes(t, c)|
    ensures FieldIn(raw, p, SentType(t, c)).at <= p + 9
  {
    if c.Value? {
      match LayoutOf(t)
      case LengthCoded => DataAt(raw, p, c.data);
      case ByteCoded => AtSplit(raw, p, [|c.data|], c.data); AtByIndex(raw, p, [|c.data|]);
      case Fixed(_) =>
    }
  }

  function SentTypes(types: seq<ColumnType>, cells: seq<Cell>): (ts: seq<ColumnType>)
    requires |types| == |cells|
    ensures |ts| == |types|
  {
    if types == [] then [] else [SentType(types[0], cells[0])] + SentTypes(types[1..], cells[1..])
  }

  lemma {:induction false} SentTypesAt(types: seq<ColumnType>, cells: seq<Cell>, i: nat)
    requires |types| == |cells| && i < |types|
    ensures SentTypes(types, cells)[i] == SentType(types[i], cells[i])
  {
    if i > 0 {
      SentTypesAt(types[1..], cells[1..], i - 1);
    }
  }

  // One by one the fields hold the cells, and only a length prefix stands before a value: the fields tile the row.
  predicate AllFieldsHold(
    raw: seq<byte>, fields: seq<Field>, types: seq<ColumnType>, cells: seq<Cell>, p: nat, end: nat)
  {
    |fields| == |types| == |cells| &&
    if fields == [] then p == end
    else
      && p <= fields[0].at <= p + 9
      && FieldHolds(raw, fields[0], types[0], cells[0])
      && AllFieldsHold(raw, fields[1..], types[1..], cells[1..], EndOf(fields[0]), end)
  }

  lemma {:induction false} AllFieldsHoldAt(raw: seq<byte>, fields: seq<Field>, types: seq<ColumnType>, cells: seq<Cell>,
                                           p: nat, end: nat, i: nat)
    requires AllFieldsHold(raw, fields, types, cells, p, end) && i < |cells|
    ensures FieldHolds(raw, fields[i], types[i], cells[i])
  {
    if i > 0 {
      AllFieldsHoldAt(raw, fields[1..], types[1..], cells[1..], EndOf(fields[0]), end, i - 1);
    }
  }

  lemma {:induction false} FieldsHold(raw: seq<byte>, types: seq<ColumnType>, cells: seq<Cell>, p: nat)
    requires AllFit(types, cells) && At(raw, p, FieldsBytes(types, cells))
    ensures var ts := SentTypes(types, cells);
            && FieldsReadable(raw, ts, p)
            && AllFieldsHold(raw, FieldsFrom(raw, ts, p), types, cells, p, p + |FieldsBytes(types, cells)|)
    decreases |types|
  {
    hide FieldBytes, Fits, FieldIn, HasField, At, SentType, FieldHolds;
    if types != [] {
      var s := FieldBytes(types[0], cells[0]);
      AtSplit(raw, p, s, FieldsBytes(types[1..], cells[1..]));
      FieldAt(raw, p, types[0], cells[0]);
      FieldsHold(raw, types[1..], cells[1..], p + |s|);
      assert SentTypes(types, cells)[1..] == SentTypes(types[1..], cells[1..]);
    }
  }

  lemma TypeRead(types: seq<ColumnType>, cells: seq<Cell>, raw: seq<byte>, i: nat)
    requires i < |types| == |cells| && At(raw, 1, Bitmap(Nulls(cells), 2))
    ensures TypeIn(raw, types, i) == SentType(types[i], cells[i])
  {
    hide BitSet, Bitmap, Match;
    var bitmap, k := Bitmap(Nulls(cells), 2), (i + 2) / 8;
    AtByIndex(raw, 1, bitmap);
    BitmapBit(Nulls(cells), 2, i);
    assert raw[1 + k] == bitmap[k];
  }

  // The bitmap of an encoded row yields the types that were sent.
  lemma BitmapRead(types: seq<ColumnType>, cells: seq<Cell>, raw: seq<byte>)
    requires |types| == |cells| && At(raw, 1, Bitmap(Nulls(cells), 2))
    ensures TypesIn(raw, types) == SentTypes(types, cells)
  {
    hide TypeIn, Bitmap, SentTypes, BitmapLength, Match;
    forall i | 0 <= i < |types| ensures TypesIn(raw, types)[i] == SentTypes(types, cells)[i] {
      TypeRead(types, cells, raw, i);
      SentTypesAt(types, cells, i);
    }
  }

  /** Reading back a binary row gives every column its type, or NULL, and exactly its bytes; the row is used up. */
  lemma BinaryRowRecovered(types: seq<ColumnType>, cells: seq<Cell>)
    requires AllFit(types, cells)
    ensures var raw := BinaryRow(types, cells);
            && RowReadable(raw, types)
            && var fields := FieldsOf(raw, types);
            && AllFieldsHold(raw, fields, types, cells, 1 + BitmapLength(|types|, 2), |raw|)
            && forall i :: 0 <= i < |types| ==> FieldHolds(raw, fields[i], types[i], cells[i])
  {
    hide SentTypes, FieldsFrom, FieldsReadable, TypesIn, Bitmap, FieldHolds;
    var raw := BinaryRow(types, cells);
    var bitmap, values := Bitmap(Nulls(cells), 2), FieldsBytes(types, cells);
    AtAll(raw);
    AtSplit(raw, 0, [0], bitmap + values);
    AtSplit(raw, 1, bitmap, values);
    BitmapRead(types, cells, raw);
    FieldsHold(raw, types, cells, 1 + |bitmap|);
    forall i | 0 <= i < |types| ensures FieldHolds(raw, FieldsOf(raw, types)[i], types[i], cells[i]) {
      AllFieldsHoldAt(raw, FieldsOf(raw, types), types, cells, 1 + |bitmap|, |raw|, i);
    }
  }
}
