/** The binary row as the protocol documentation defines it, value by value, and what the library reads in it. */
module BinaryValues {
  import opened Arithmetic
  import opened Bytes
  import opened Pack
  import opened Types
  import opened Rows

  // The value of a column; Moment is a date or time without its length byte, Raw a float or a double.
  datatype Binary = NullValue | Integer(n: uint64) | Raw(bytes: seq<byte>) | Moment(bytes: seq<byte>) | Text(data: Data)

  // The number of bytes that an integer of this type takes, or none for another type.
  function IntegerWidth(t: ColumnType): nat {
    match t
    case LongLong => 8
    case Long => 4
    case Int24 => 4
    case Short => 2
    case Year => 2
    case Tiny => 1
    case _ => 0
  }

  predicate IsText(t: ColumnType) {
    t in {String, VarChar, VarString, Enum, Set, LongBlob, MediumBlob, Blob, TinyBlob, Geometry, Bit, Decimal,
          NewDecimal}
  }

  predicate IsMoment(t: ColumnType) {
    t in {Date, ColumnType.DateTime, Timestamp, Time}
  }

  // The value can stand in a column of this type.
  predicate Suits(t: ColumnType, v: Binary) {
    match v
    case NullValue => true
    case Integer(n) => IntegerWidth(t) > 0 && n < Pow256(IntegerWidth(t))
    case Raw(bytes) => (t.Double? && |bytes| == 8) || (t.Float? && |bytes| == 4)
    case Moment(bytes) => IsMoment(t) && |bytes| < 0x100
    case Text(_) => IsText(t)
  }

  // What the server sends for it.
  function Encoded(t: ColumnType, v: Binary): seq<byte>
    requires Suits(t, v)
  {
    match v
    case NullValue => []
    case Integer(n) => Le(n, IntegerWidth(t))
    case Raw(bytes) => bytes
    case Moment(bytes) => [|bytes|] + bytes
    case Text(data) => DataBytes(data)
  }

  predicate AllSuit(types: seq<ColumnType>, values: seq<Binary>) {
    |types| == |values| && forall i :: 0 <= i < |types| ==> Suits(types[i], values[i])
  }

  function AllEncoded(types: seq<ColumnType>, values: seq<Binary>): seq<byte>
    requires AllSuit(types, values)
  {
    if types == [] then [] else Encoded(types[0], values[0]) + AllEncoded(types[1..], values[1..])
  }

  // A zero byte, the bits of the NULL values with two unused bits before them, and the other values.
  predicate IsServerRow(raw: seq<byte>, types: seq<ColumnType>, values: seq<Binary>)
    requires AllSuit(types, values)
  {
    var start := 1 + (|types| + 9) / 8;
    && start + |AllEncoded(types, values)| == |raw| && raw[0] == 0
    && (forall i :: 0 <= i < |types| ==> (BitSet(raw[1 + (i + 2) / 8], (i + 2) % 8) <==> values[i].NullValue?))
    && At(raw, start, AllEncoded(types, values))
  }

  // ---------------------------------------------------------------- as cells

  // The bytes of a value, without a length before them.
  function BytesOf(t: ColumnType, v: Binary): seq<byte>
    requires Suits(t, v)
  {
    match v
    case NullValue => []
    case Integer(n) => Le(n, IntegerWidth(t))
    case Raw(bytes) => bytes
    case Moment(bytes) => bytes
    case Text(data) => data
  }

  function CellOf(t: ColumnType, v: Binary): Cell
    requires Suits(t, v)
  {
    if v.NullValue? then NoValue else Value(BytesOf(t, v))
  }

  lemma EncodedAsCell(t: ColumnType, v: Binary)
    requires Suits(t, v)
    ensures Fits(t, CellOf(t, v)) && FieldBytes(t, CellOf(t, v)) == Encoded(t, v)
  {
  }

  function CellsOf(types: seq<ColumnType>, values: seq<Binary>): (cells: seq<Cell>)
    requires AllSuit(types, values)
    ensures |cells| == |types|
  {
    seq(|types|, i requires 0 <= i < |types| => CellOf(types[i], values[i]))
  }

  lemma {:induction false} EncodedAsCells(types: seq<ColumnType>, values: seq<Binary>)
    requires AllSuit(types, values)
    ensures AllFit(types, CellsOf(types, values))
    ensures FieldsBytes(types, CellsOf(types, values)) == AllEncoded(types, values)
    decreases |types|
  {
    hide Encoded, FieldBytes, Fits, Suits, CellOf;
    forall i | 0 <= i < |types| ensures Fits(types[i], CellsOf(types, values)[i]) {
      EncodedAsCell(types[i], values[i]);
    }
    if types != [] {
      EncodedAsCell(types[0], values[0]);
      EncodedAsCells(types[1..], values[1..]);
      assert CellsOf(types, values)[1..] == CellsOf(types[1..], values[1..]);
    }
  }

  // ---------------------------------------------------------------- reading

  // The field gives back the value: its type or NULL, its width, and its bytes, which make up the integer.
  predicate Gives(raw: seq<byte>, f: Field, t: ColumnType, v: Binary)
    requires Suits(t, v)
  {
    && f.at + f.length <= |raw|
    && raw[f.at..f.at + f.length] == BytesOf(t, v)
    && f.fieldType == (if v.NullValue? then Null else t)
    && (v.Integer? ==> f.length == IntegerWidth(t) && UnpackInt(raw, f.at, f.length) == v.n)
    && (v.Raw? ==> f.length == if t.Double? then 8 else 4)
  }

  lemma FieldGives(raw: seq<byte>, f: Field, t: ColumnType, v: Binary)
    requires Suits(t, v) && FieldHolds(raw, f, t, CellOf(t, v))
    ensures Gives(raw, f, t, v)
  {
    hide Match;
    var s := BytesOf(t, v);
    MatchIs(raw, f.at, s);
    if v.Integer? {
      UnpackPacked(raw, f.at, v.n, IntegerWidth(t));
    }
  }

  lemma ServerTypes(raw: seq<byte>, types: seq<ColumnType>, values: seq<Binary>)
    requires AllSuit(types, values) && IsServerRow(raw, types, values)
    ensures 1 + BitmapLength(|types|, 2) <= |raw|
    ensures TypesIn(raw, types) == SentTypes(types, CellsOf(types, values))
  {
    hide At, BitSet, SentTypes, Suits;
    var cells := CellsOf(types, values);
    forall i | 0 <= i < |types| ensures TypesIn(raw, types)[i] == SentTypes(types, cells)[i] {
      SentTypesAt(types, cells, i);
    }
  }

  /** Whatever row a server sends for these values, every column is read with its type or NULL, its width and its value;
      the fields tile the row, and the call succeeds. */
  lemma ServerRowRead(raw: seq<byte>, types: seq<ColumnType>, values: seq<Binary>)
    requires AllSuit(types, values) && IsServerRow(raw, types, values)
    ensures RowReadable(raw, types) && |FieldsOf(raw, types)| == |types|
    ensures forall i :: 0 <= i < |types| ==> Gives(raw, FieldsOf(raw, types)[i], types[i], values[i])
    ensures AllFieldsHold(raw, FieldsOf(raw, types), types, CellsOf(types, values), 1 + (|types| + 9) / 8, |raw|)
  {
    hide At, BitSet, SentTypes, Suits, Gives, FieldHolds, FieldsFrom, FieldsReadable, TypesIn, Encoded;
    var cells, start := CellsOf(types, values), 1 + (|types| + 9) / 8;
    EncodedAsCells(types, values);
    ServerTypes(raw, types, values);
    FieldsHold(raw, types, cells, start);
    forall i | 0 <= i < |types| ensures Gives(raw, FieldsOf(raw, types)[i], types[i], values[i]) {
      AllFieldsHoldAt(raw, FieldsOf(raw, types), types, cells, start, |raw|, i);
      FieldGives(raw, FieldsOf(raw, types)[i], types[i], values[i]);
    }
  }
}
