/** The layout of the execute packet that the code intends (a type for every parameter that is not NULL), and when the
    packet that it builds has that layout. */
module ExecuteProofs {
  import opened Options
  import opened Arithmetic
  import opened Bytes
  import opened Pack
  import opened Types
  import opened Execute

  // ---------------------------------------------------------------- the layout

  predicate AllNull(params: seq<Param>) {
    forall i :: 0 <= i < |params| ==> params[i].IsNull()
  }

  // No NULL stands before a parameter that is not NULL.
  predicate NullsLast(params: seq<Param>) {
    params == [] || if params[0].IsNull() then AllNull(params) else NullsLast(params[1..])
  }

  // Every parameter is NULL or has a type the switch knows.
  predicate AllSupported(params: seq<Param>) {
    forall i :: 0 <= i < |params| ==> params[i].IsNull() || Supported(params[i].columnType)
  }

  lemma {:induction false} OnlyNulls(b: seq<byte>, slot: nat, pos: nat, params: seq<Param>)
    requires AllWellBound(params) && AllNull(params)
    requires slot + 2 * |params| <= |b| && pos + |Values(params)| <= |b|
    ensures Fill(b, slot, pos, params) == Filled(b, pos)
    ensures TypeSlots(params) == [] && Values(params) == [] && NonNull(params) == 0
    decreases params
  {
    if params != [] {
      assert Values(params) == Values(params[1..]);
      OnlyNulls(b, slot + 2, pos, params[1..]);
    }
  }

  // What one parameter that is not NULL does to the buffer.
  lemma OneFilled(b: seq<byte>, slot: nat, pos: nat, gap: nat, t: seq<byte>, v: seq<byte>)
    requires |t| == 2 && slot + 2 <= gap <= pos && pos + |v| <= |b|
    ensures var c := Splice(Splice(b, slot, t), pos, v);
            && |c| == |b| && c[..slot + 2] == b[..slot] + t && c[gap..pos + |v|] == b[gap..pos] + v
  {
    hide Splice;
    SpliceIs(b, slot, t);
    var a := b[..slot] + t + b[slot + 2..];
    SpliceIs(a, pos, v);
    var c := a[..pos] + v + a[pos + |v|..];
    assert a[..slot + 2] == b[..slot] + t && a[gap..pos] == b[gap..pos];
    assert c[..slot + 2] == a[..slot + 2];
    assert c[gap..pos + |v|] == c[gap..pos] + c[pos..pos + |v|] && c[gap..pos] == a[gap..pos] && c[pos..pos + |v|] == v;
  }

  lemma Interleave(all: seq<byte>, front: seq<byte>, start: seq<byte>, t: seq<byte>, types: seq<byte>,
                   middle: seq<byte>, gap: seq<byte>, v: seq<byte>, values: seq<byte>)
    requires all == front + types + middle + values && front == start + t && middle == gap + v
    ensures all == start + (t + types) + gap + (v + values)
  {
  }

  lemma NoGap(memory: seq<byte>, h: seq<byte>, b: seq<byte>, types: seq<byte>, pos: nat)
    requires |h| <= |memory| && b == h + memory[|h|..] && pos <= |b|
    ensures b[..|h|] + types + b[pos..pos] == h + types
  {
    assert b[..|h|] == h && b[pos..pos] == [];
  }

  lemma NothingSpliced(b: seq<byte>, pos: nat)
    requires pos <= |b|
    ensures Splice(b, pos, []) == b
  {
  }

  lemma FillOne(b: seq<byte>, slot: nat, pos: nat, params: seq<Param>)
    requires AllWellBound(params) && AllSupported(params) && params != [] && !params[0].IsNull()
    requires slot + 2 * |params| <= |b| && pos + |Values(params)| <= |b|
    ensures |Values(params)| == |Sent(params[0])| + |Values(params[1..])|
    ensures var t, v := Le(TypeCode(params[0]), 2), Sent(params[0]);
            Fill(b, slot, pos, params) ==
            Fill(Splice(Splice(b, slot, t), pos, v), slot + 2, pos + |v|, params[1..])
  {
    hide TypeCode, ValueBytes, Splice, Supported, WellBound;
    NothingSpliced(Splice(b, slot, Le(TypeCode(params[0]), 2)), pos);
  }

  // What a first parameter that is not NULL adds to the types and to the values.
  lemma FirstOf(params: seq<Param>)
    requires AllWellBound(params) && params != [] && !params[0].IsNull()
    ensures NonNull(params) == 1 + NonNull(params[1..])
    ensures TypeSlots(params) == Le(TypeCode(params[0]), 2) + TypeSlots(params[1..])
    ensures Values(params) == Sent(params[0]) + Values(params[1..])
  {
  }

  lemma {:induction false} FillLayout(b: seq<byte>, slot: nat, pos: nat, params: seq<Param>)
    requires AllWellBound(params) && AllSupported(params) && NullsLast(params)
    requires slot + 2 * |params| <= |b| && pos + |Values(params)| <= |b|
    requires slot + 2 * NonNull(params) <= pos
    ensures var r := Fill(b, slot, pos, params);
            && r.Filled?
            && r.b[..r.pos] == b[..slot] + TypeSlots(params) + b[slot + 2 * NonNull(params)..pos] + Values(params)
    decreases params
  {
    hide TypeCode, Sent, Splice, Supported, WellBound, AllNull, NullsLast, Fill, Le, Values, TypeSlots, NonNull;
    if AllNull(params) {
      OnlyNulls(b, slot, pos, params);
      assert b[..pos] == b[..slot] + [] + b[slot..pos] + [];
    } else {
      NotNullFirst(params);
      FirstOf(params);
      var p, rest := params[0], params[1..];
      var t, v, gap := Le(TypeCode(p), 2), Sent(p), slot + 2 * NonNull(params);
      FillOne(b, slot, pos, params);
      OneFilled(b, slot, pos, gap, t, v);
      var c := Splice(Splice(b, slot, t), pos, v);
      FillLayout(c, slot + 2, pos + |v|, rest);
      var r := Fill(c, slot + 2, pos + |v|, rest);
      Interleave(r.b[..r.pos], c[..slot + 2], b[..slot], t, TypeSlots(rest), c[gap..pos + |v|], b[gap..pos], v,
                 Values(rest));
    }
  }

  lemma NotNullFirst(params: seq<Param>)
    requires NullsLast(params) && !AllNull(params)
    ensures params != [] && !params[0].IsNull() && NullsLast(params[1..])
  {
  }

  /** When the NULLs come last, the packet is the header, the types and the values, whatever the buffer held. */
  lemma PacketLayout(memory: seq<byte>, id: uint32, params: seq<Param>, newBind: bool)
    requires AllWellBound(params) && AllSupported(params) && NullsLast(params) && Room(params) <= |memory|
    ensures Packet(memory, id, params, newBind).Filled?
    ensures Packet(memory, id, params, newBind).b == Header(id, params, newBind) + TypeSlots(params) + Values(params)
  {
    hide Fill, Values, TypeSlots, Header, Splice, NonNull, NullsLast, BitmapLength, Supported, AllWellBound,
      AllSupported;
    var h := Header(id, params, newBind);
    NonNullAtMost(params);
    HeaderWritten(memory, h);
    var b, pos := Splice(memory, 0, h), |h| + 2 * NonNull(params);
    FillLayout(b, |h|, pos, params);
    NoGap(memory, h, b, TypeSlots(params), pos);
  }

  lemma HeaderWritten(memory: seq<byte>, h: seq<byte>)
    requires |h| <= |memory|
    ensures Splice(memory, 0, h) == h + memory[|h|..]
  {
    SpliceIs(memory, 0, h);
  }

  // ---------------------------------------------------------------- the reader

  datatype ReadParam = ReadNull | ReadParam(columnType: ColumnType, isUnsigned: bool, value: Option<Datum>)

  function FromCode(code: nat): ColumnType {
    if code == 0x01 then Tiny else if code == 0x02 then Short else if code == 0x03 then Long
    else if code == 0x08 then LongLong else if code == 0x04 then Float else if code == 0x05 then Double
    else if code == 0x0b then Time else if code == 0x0a then Date else if code == 0x0c then ColumnType.DateTime
    else if code == 0x07 then Timestamp else if code == 0xfe then String else if code == 0xfc then Blob
    else Error
  }

  // The value of type t at p, and where the next one starts.
  function ReadValue(b: seq<byte>, p: nat, t: ColumnType): Option<(Datum, nat)> {
    match t
    case Tiny => if p < |b| then Some((Int(b[p]), p + 1)) else None
    case Short => ReadInt(b, p, 2)
    case Long => ReadInt(b, p, 4)
    case LongLong => ReadInt(b, p, 8)
    case Float => if p + 4 <= |b| then Some((Raw(b[p..p + 4]), p + 4)) else None
    case Double => if p + 8 <= |b| then Some((Raw(b[p..p + 8]), p + 8)) else None
    case Time =>
      if p < |b| && b[p] in {0, 8, 12} && p + 1 + b[p] <= |b|
      then Some((Moment(UnpackTime(b, p + 1, b[p], ZERO_TIME)), p + 1 + b[p])) else None
    case Date => ReadDateTime(b, p)
    case DateTime => ReadDateTime(b, p)
    case Timestamp => ReadDateTime(b, p)
    case String => ReadText(b, p)
    case Blob => ReadText(b, p)
    case _ => None
  }

  function ReadInt(b: seq<byte>, p: nat, width: nat): Option<(Datum, nat)>
    requires width <= 8
  {
    if p + width <= |b| then
      UnpackBound(b, p, width);
      PowerAtMost8(width);
      Some((Int(UnpackInt(b, p, width)), p + width))
    else None
  }

  lemma {:induction false} PowerAtMost8(width: nat)
    requires width <= 8
    ensures Pow256(width) <= 0x1_0000_0000_0000_0000
    decreases 8 - width
  {
    if width < 8 {
      PowerAtMost8(width + 1);
    } else {
      Powers();
    }
  }

  function ReadDateTime(b: seq<byte>, p: nat): Option<(Datum, nat)> {
    if p < |b| && b[p] in {0, 4, 7, 11} && p + 1 + b[p] <= |b|
    then Some((Moment(UnpackDateTime(b, p + 1, b[p], ZERO_TIME)), p + 1 + b[p])) else None
  }

  function ReadText(b: seq<byte>, p: nat): Option<(Datum, nat)> {
    if !HasLength(b, p) then None
    else
      var u := UnpackLength(b, p);
      if u.isNull || p + u.bytes + u.value > |b| || u.value >= 0x1_0000_0000_0000_0000 then None
      else Some((Text(b[p + u.bytes..p + u.bytes + u.value]), p + u.bytes + u.value))
  }

  // Reads types from t on and values from v on; `long` tells which values were sent ahead as long data.
  function ReadParams(b: seq<byte>, t: nat, v: nat, nulls: seq<bool>, long: seq<bool>): Option<seq<ReadParam>>
    requires |nulls| == |long|
    decreases nulls
  {
    if nulls == [] then if v == |b| then Some([]) else None
    else if nulls[0] then Prepend(ReadNull, ReadParams(b, t, v, nulls[1..], long[1..]))
    else if t + 2 > |b| then None
    else
      var code := UnpackInt(b, t, 2);
      var columnType, isUnsigned := FromCode(code % 0x8000), code >= 0x8000;
      if long[0] then
        Prepend(ReadParam(columnType, isUnsigned, None), ReadParams(b, t + 2, v, nulls[1..], long[1..]))
      else
        match ReadValue(b, v, columnType)
        case None => None
        case Some((value, next)) =>
          Prepend(ReadParam(columnType, isUnsigned, Some(value)), ReadParams(b, t + 2, next, nulls[1..], long[1..]))
  }

  function Prepend(p: ReadParam, rest: Option<seq<ReadParam>>): Option<seq<ReadParam>> {
    if rest.None? then None else Some([p] + rest.value)
  }

  // A reader of the intended layout: no cursor, one iteration, new types.  It knows how many parameters the statement
  // has, and their long data.
  function Read(b: seq<byte>, long: seq<bool>): Option<(nat, seq<ReadParam>)> {
    var n := |long|;
    var at := 9 + BitmapLength(n, 0);
    if at + 1 > |b| || b[4] != 0 || UnpackInt(b, 5, 4) != 1 || b[at] != 1 then None
    else
      var nulls := FlagsAt(b, 9, n);
      match ReadParams(b, at + 1, at + 1 + 2 * CountFalse(nulls), nulls, long)
      case None => None
      case Some(params) => Some((UnpackInt(b, 0, 4), params))
  }

  // The first n bits from byte p on.
  function FlagsAt(b: seq<byte>, p: nat, n: nat): (f: seq<bool>)
    requires p + BitmapLength(n, 0) <= |b|
    ensures |f| == n
  {
    seq(n, i requires 0 <= i < n => BitSet(b[p + i / 8], i % 8))
  }

  function CountFalse(nulls: seq<bool>): nat {
    if nulls == [] then 0 else (if nulls[0] then 0 else 1) + CountFalse(nulls[1..])
  }

  // ---------------------------------------------------------------- what is to be read

  function LongFlags(params: seq<Param>): (long: seq<bool>)
    ensures |long| == |params|
  {
    if params == [] then [] else [params[0].isLongData] + LongFlags(params[1..])
  }

  // A date, time or datetime arrives as far as its encoding carries it.
  function Arriving(p: Param): Datum
    requires WellBound(p)
  {
    match p.columnType
    case Time => Moment(CarriedTime(p.value.dt))
    case Date => Moment(Carried(p.value.dt, true))
    case DateTime => Moment(Carried(p.value.dt, false))
    case Timestamp => Moment(Carried(p.value.dt, false))
    case _ => p.value
  }

  // What the packet says of a parameter.
  function Arrives(p: Param): ReadParam
    requires WellBound(p)
  {
    if p.IsNull() then ReadNull
    else ReadParam(p.columnType, p.isUnsigned, if p.isLongData then None else Some(Arriving(p)))
  }

  function AllArrive(params: seq<Param>): (r: seq<ReadParam>)
    requires AllWellBound(params)
    ensures |r| == |params|
  {
    if params == [] then [] else [Arrives(params[0])] + AllArrive(params[1..])
  }

  // What was bound.
  function Expected(p: Param): ReadParam {
    if p.IsNull() then ReadNull
    else ReadParam(p.columnType, p.isUnsigned, if p.isLongData then None else Some(p.value))
  }

  function AllExpected(params: seq<Param>): (r: seq<ReadParam>)
    ensures |r| == |params|
  {
    if params == [] then [] else [Expected(params[0])] + AllExpected(params[1..])
  }

  // The encoding of the value has a place for all of it.
  predicate Lossless(p: Param)
    requires WellBound(p)
  {
    p.isLongData ||
    match p.columnType
    case Time => TimeKept(p.value.dt)
    case Date => DateTimeKept(p.value.dt) && NoTime(p.value.dt)
    case DateTime => DateTimeKept(p.value.dt)
    case Timestamp => DateTimeKept(p.value.dt)
    case _ => true
  }

  // An hour or a sign needs a day, minute, second or microsecond beside it.
  predicate TimeKept(t: Pack.DateTime) {
    && t.year == 0 && t.month == 0
    && (t.hour > 0 || t.isNegative ==> t.day > 0 || t.minute > 0 || t.second > 0 || t.microsecond > 0)
  }

  predicate DateTimeKept(t: Pack.DateTime) {
    !t.isNegative && t.day < 0x100
  }

  predicate NoTime(t: Pack.DateTime) {
    t.hour == 0 && t.minute == 0 && t.second == 0 && t.microsecond == 0
  }

  predicate AllLossless(params: seq<Param>)
    requires AllWellBound(params)
  {
    forall i :: 0 <= i < |params| ==> Lossless(params[i])
  }

  lemma ArrivesExact(p: Param)
    requires WellBound(p)
    ensures Arrives(p) == Expected(p) <==> Lossless(p)
  {
  }

  // What arrives is what was bound exactly if no value loses anything.
  lemma {:induction false} AllArriveExact(params: seq<Param>)
    requires AllWellBound(params)
    ensures AllArrive(params) == AllExpected(params) <==> AllLossless(params)
  {
    hide Arrives, Expected, Lossless, WellBound;
    if params != [] {
      var rest := params[1..];
      ArrivesExact(params[0]);
      AllArriveExact(rest);
      assert AllArrive(params)[1..] == AllArrive(rest) && AllExpected(params)[1..] == AllExpected(rest);
      assert AllArrive(params)[0] == Arrives(params[0]) && AllExpected(params)[0] == Expected(params[0]);
      assert forall i :: 0 <= i < |rest| ==> rest[i] == params[i + 1];
      assert forall i :: 1 <= i < |params| ==> params[i] == rest[i - 1];
    }
  }

  // ---------------------------------------------------------------- reading back

  lemma TypeRead(b: seq<byte>, t: nat, p: Param)
    requires Supported(p.columnType) && At(b, t, Le(TypeCode(p), 2))
    ensures var code := UnpackInt(b, t, 2);
            FromCode(code % 0x8000) == p.columnType && (code >= 0x8000 <==> p.isUnsigned)
  {
    Powers();
    UnpackIntAt(b, t, TypeCode(p), 2);
  }

  lemma IntRead(b: seq<byte>, p: nat, n: uint64, width: nat)
    requires width <= 8 && n < Pow256(width) && At(b, p, Le(n, width))
    ensures ReadInt(b, p, width) == Some((Int(n), p + width))
  {
    UnpackIntAt(b, p, n, width);
  }

  lemma RawRead(b: seq<byte>, p: nat, s: seq<byte>)
    requires At(b, p, s)
    ensures b[p..p + |s|] == s
  {
    MatchIs(b, p, s);
  }

  lemma TextRead(b: seq<byte>, p: nat, s: Data)
    requires At(b, p, DataBytes(s))
    ensures ReadText(b, p) == Some((Text(s), p + |DataBytes(s)|))
  {
    hide UnpackLength, HasLength, LengthBytes;
    DataAt(b, p, s);
    RawRead(b, p + UnpackLength(b, p).bytes, s);
  }

  lemma DateTimeRead(b: seq<byte>, p: nat, dt: Pack.DateTime, dateOnly: bool)
    requires At(b, p, DateTimeBytes(dt, dateOnly))
    ensures ReadDateTime(b, p) == Some((Moment(Carried(dt, dateOnly)), p + |DateTimeBytes(dt, dateOnly)|))
  {
    hide UnpackDateTime, Carried, Match;
    DateTimeAt(b, p, dt, dateOnly);
  }

  lemma ValueRead(b: seq<byte>, v: nat, p: Param)
    requires WellBound(p) && Supported(p.columnType) && At(b, v, ValueBytes(p))
    ensures ReadValue(b, v, p.columnType) == Some((Arriving(p), v + |ValueBytes(p)|))
  {
    hide At, ReadInt, ReadText, ReadDateTime, UnpackTime, DataBytes, DateTimeBytes, CarriedTime, Carried;
    Powers();
    match p.columnType
    case Tiny => OneAt(b, v, p.value.n);
    case Short => IntRead(b, v, p.value.n, 2);
    case Long => IntRead(b, v, p.value.n, 4);
    case LongLong => IntRead(b, v, p.value.n, 8);
    case Float => RawRead(b, v, p.value.bytes); AtInside(b, v, p.value.bytes);
    case Double => RawRead(b, v, p.value.bytes); AtInside(b, v, p.value.bytes);
    case Time => TimeAt(b, v, p.value.dt); AtInside(b, v, TimeBytes(p.value.dt));
    case Date => DateTimeRead(b, v, p.value.dt, true);
    case DateTime => DateTimeRead(b, v, p.value.dt, false);
    case Timestamp => DateTimeRead(b, v, p.value.dt, false);
    case String => TextRead(b, v, p.value.data);
    case Blob => TextRead(b, v, p.value.data);
  }

  lemma AtInside(b: seq<byte>, p: nat, s: seq<byte>)
    requires At(b, p, s)
    ensures p + |s| <= |b|
  {
  }

  // One parameter that is not NULL.
  lemma OneRead(b: seq<byte>, t: nat, v: nat, params: seq<Param>)
    requires params != [] && WellBound(params[0]) && Supported(params[0].columnType)
    requires At(b, t, Le(TypeCode(params[0]), 2)) && At(b, v, Sent(params[0]))
    ensures ReadParams(b, t, v, Nulls(params), LongFlags(params)) ==
            Prepend(Arrives(params[0]),
                    ReadParams(b, t + 2, v + |Sent(params[0])|, Nulls(params[1..]), LongFlags(params[1..])))
  {
    hide At, WellBound, ReadValue, ValueBytes, Arriving, FromCode, TypeCode, Le, UnpackInt, Prepend;
    var p := params[0];
    assert Nulls(params)[1..] == Nulls(params[1..]) && LongFlags(params)[1..] == LongFlags(params[1..]);
    AtInside(b, t, Le(TypeCode(p), 2));
    TypeRead(b, t, p);
    if !p.isLongData {
      ValueRead(b, v, p);
    }
  }

  lemma {:induction false} ParamsRead(b: seq<byte>, t: nat, v: nat, params: seq<Param>)
    requires AllWellBound(params) && AllSupported(params)
    requires At(b, t, TypeSlots(params)) && At(b, v, Values(params)) && v + |Values(params)| == |b|
    ensures ReadParams(b, t, v, Nulls(params), LongFlags(params)) == Some(AllArrive(params))
    decreases params
  {
    hide At, WellBound, Supported, Sent, Arrives, TypeCode, Le, UnpackInt, ReadValue, FromCode;
    if params != [] {
      var p, rest := params[0], params[1..];
      AtSplit(b, v, Sent(p), Values(rest));
      if p.IsNull() {
        assert Nulls(params)[1..] == Nulls(rest) && LongFlags(params)[1..] == LongFlags(rest);
        NullSendsNothing(p);
        assert TypeSlots(params) == TypeSlots(rest) && Values(params) == Values(rest);
        ParamsRead(b, t, v, rest);
      } else {
        AtSplit(b, t, Le(TypeCode(p), 2), TypeSlots(rest));
        OneRead(b, t, v, params);
        ParamsRead(b, t + 2, v + |Sent(p)|, rest);
      }
    }
  }

  lemma NullSendsNothing(p: Param)
    requires WellBound(p) && p.IsNull()
    ensures Sent(p) == [] && Arrives(p) == ReadNull
  {
  }

  lemma {:induction false} FalseCount(params: seq<Param>)
    ensures CountFalse(Nulls(params)) == NonNull(params)
  {
    if params != [] {
      assert Nulls(params)[1..] == Nulls(params[1..]);
      FalseCount(params[1..]);
    }
  }

  lemma HeaderParts(b: seq<byte>, id: uint32, params: seq<Param>)
    requires At(b, 0, Header(id, params, true))
    ensures var bitmap := Bitmap(Nulls(params), 0);
            At(b, 0, Le(id, 4)) && At(b, 4, [0]) && At(b, 5, Le(1, 4)) && At(b, 9, bitmap) && At(b, 9 + |bitmap|, [1])
  {
    hide Bitmap, Nulls, At;
    var bitmap := Bitmap(Nulls(params), 0);
    var start := Le(id, 4) + [0] + Le(1, 4);
    AtSplit(b, 0, start + bitmap, [1]);
    AtSplit(b, 0, start, bitmap);
    AtSplit(b, 0, Le(id, 4) + [0], Le(1, 4));
    AtSplit(b, 0, Le(id, 4), [0]);
  }

  // The header alone determines what the reader knows before it comes to the types.
  lemma HeaderRead(b: seq<byte>, id: uint32, params: seq<Param>)
    requires At(b, 0, Header(id, params, true))
    ensures var n := |params|; var at := 9 + BitmapLength(n, 0);
            && at + 1 <= |b| && b[at] == 1 && UnpackInt(b, 0, 4) == id && b[4] == 0 && UnpackInt(b, 5, 4) == 1
            && FlagsAt(b, 9, n) == Nulls(params)
  {
    hide Bitmap, FlagsAt, Nulls, Header, At, BitmapLength, Le, UnpackInt, Pow256;
    HeaderParts(b, id, params);
    Powers();
    UnpackIntAt(b, 0, id, 4);
    OneAt(b, 4, 0);
    UnpackIntAt(b, 5, 1, 4);
    OneAt(b, 9 + BitmapLength(|params|, 0), 1);
    FlagsRead(b, 9, Nulls(params));
  }

  lemma OneAt(b: seq<byte>, p: nat, x: byte)
    requires At(b, p, [x])
    ensures p < |b| && b[p] == x
  {
    AtByIndex(b, p, [x]);
    assert b[p] == [x][0];
  }

  lemma FlagsRead(b: seq<byte>, p: nat, nulls: seq<bool>)
    requires At(b, p, Bitmap(nulls, 0))
    ensures p + BitmapLength(|nulls|, 0) <= |b| && FlagsAt(b, p, |nulls|) == nulls
  {
    hide BitSet, Bitmap, Match;
    forall i | 0 <= i < |nulls| ensures FlagsAt(b, p, |nulls|)[i] == nulls[i] {
      FlagRead(b, p, nulls, i);
    }
  }

  lemma FlagRead(b: seq<byte>, p: nat, nulls: seq<bool>, i: nat)
    requires i < |nulls| && At(b, p, Bitmap(nulls, 0))
    ensures p + i / 8 < |b| && BitSet(b[p + i / 8], i % 8) == nulls[i]
  {
    hide BitSet, Bitmap, Match;
    var bitmap := Bitmap(nulls, 0);
    AtByIndex(b, p, bitmap);
    BitmapBit(nulls, 0, i);
    assert b[p + i / 8] == bitmap[i / 8];
  }

  /** The reader recovers the statement id, the NULL set, every type with its sign, and every value. */
  lemma PacketRead(memory: seq<byte>, id: uint32, params: seq<Param>)
    requires AllWellBound(params) && AllSupported(params) && NullsLast(params) && Room(params) <= |memory|
    ensures Packet(memory, id, params, true).Filled?
    ensures Read(Packet(memory, id, params, true).b, LongFlags(params)) == Some((id, AllArrive(params)))
  {
    hide Header, Packet, ReadParams, Values, TypeSlots, BitSet, AllArrive, At, Nulls;
    var h, types, values := Header(id, params, true), TypeSlots(params), Values(params);
    PacketLayout(memory, id, params, true);
    var b := Packet(memory, id, params, true).b;
    AtAll(b);
    AtSplit(b, 0, h + types, values);
    AtSplit(b, 0, h, types);
    HeaderRead(b, id, params);
    FalseCount(params);
    ParamsRead(b, |h|, |h| + |types|, params);
  }

  // ---------------------------------------------------------------- the limit of the layout

  predicate SameAt(b: seq<byte>, c: seq<byte>, k: nat) {
    k < |b| == |c| && b[k] == c[k]
  }

  lemma SpliceElsewhere(b: seq<byte>, pos: nat, s: seq<byte>, k: nat)
    requires pos + |s| <= |b| && k < |b| && !(pos <= k < pos + |s|)
    ensures SameAt(Splice(b, pos, s), b, k)
  {
    SpliceIs(b, pos, s);
  }

  // A byte that lies before the values and in no slot of the remaining parameters is never written.
  lemma {:induction false} FillKeeps(b: seq<byte>, slot: nat, pos: nat, params: seq<Param>, k: nat)
    requires AllWellBound(params) && slot + 2 * |params| <= |b| && pos + |Values(params)| <= |b|
    requires k < pos && k < |b|
    requires forall i :: 0 <= i < |params| && !params[i].IsNull() ==> !(slot + 2 * i <= k < slot + 2 * i + 2)
    ensures var r := Fill(b, slot, pos, params); r.Filled? ==> SameAt(r.b, b, k)
    decreases params
  {
    hide Splice, WellBound, TypeCode, ValueBytes, Supported;
    if params != [] {
      var p, rest := params[0], params[1..];
      assert Values(params) == Sent(p) + Values(rest);
      forall i | 0 <= i < |rest| && !rest[i].IsNull()
        ensures !(slot + 2 + 2 * i <= k < slot + 2 + 2 * i + 2)
      {
        assert rest[i] == params[i + 1];
      }
      if p.IsNull() {
        FillKeeps(b, slot + 2, pos, rest, k);
      } else {
        var typed := Splice(b, slot, Le(TypeCode(p), 2));
        SpliceElsewhere(b, slot, Le(TypeCode(p), 2), k);
        if p.isLongData {
          FillKeeps(typed, slot + 2, pos, rest, k);
        } else if Supported(p.columnType) {
          SpliceElsewhere(typed, pos, ValueBytes(p), k);
          FillKeeps(Splice(typed, pos, ValueBytes(p)), slot + 2, pos + |ValueBytes(p)|, rest, k);
        }
      }
    }
  }

  // The first NULL, when some parameter that is not NULL comes after it.
  lemma {:induction false} FirstNull(params: seq<Param>) returns (i: nat)
    requires !NullsLast(params)
    ensures i < |params| && params[i].IsNull() && NonNull(params) > i
    ensures forall k :: 0 <= k < i ==> !params[k].IsNull()
  {
    if params[0].IsNull() {
      i := 0;
      SomeNonNull(params);
    } else {
      i := FirstNull(params[1..]);
      i := i + 1;
      forall k | 0 <= k < i ensures !params[k].IsNull() {
        assert k > 0 ==> params[k] == params[1..][k - 1];
      }
    }
  }

  lemma {:induction false} SomeNonNull(params: seq<Param>)
    requires !AllNull(params)
    ensures NonNull(params) > 0
  {
    if params[0].IsNull() {
      forall i | 0 <= i < |params| && !params[i].IsNull() ensures !AllNull(params[1..]) {
        assert params[i] == params[1..][i - 1];
      }
      SomeNonNull(params[1..]);
    }
  }

  // The reader takes the type of the k-th parameter that is not NULL from slot k.
  lemma {:induction false} SlotRead(b: seq<byte>, t: nat, v: nat, params: seq<Param>, k: nat, r: seq<ReadParam>)
    requires k < NonNull(params) && (forall i :: 0 <= i < |params| && i < k ==> !params[i].IsNull())
    requires ReadParams(b, t, v, Nulls(params), LongFlags(params)) == Some(r)
    ensures t + 2 * k + 2 <= |b|
    ensures exists i :: 0 <= i < |r| && r[i].ReadParam?
              && r[i].columnType == FromCode(UnpackInt(b, t + 2 * k, 2) % 0x8000)
    decreases params
  {
    hide ReadValue, FromCode;
    var p, rest := params[0], params[1..];
    assert Nulls(params)[1..] == Nulls(rest) && LongFlags(params)[1..] == LongFlags(rest);
    if k == 0 && !p.IsNull() {
      assert r[0].ReadParam? && r[0].columnType == FromCode(UnpackInt(b, t, 2) % 0x8000);
    } else {
      assert forall i :: 0 <= i < |rest| ==> rest[i] == params[i + 1];
      var t', k' := if p.IsNull() then t else t + 2, if p.IsNull() then k else k - 1;
      var v' := if p.IsNull() || p.isLongData then v
                else ReadValue(b, v, FromCode(UnpackInt(b, t, 2) % 0x8000)).value.1;
      assert |r| > 0 && ReadParams(b, t', v', Nulls(rest), LongFlags(rest)) == Some(r[1..]);
      SlotRead(b, t', v', rest, k', r[1..]);
      var i :| 0 <= i < |r[1..]| && r[1..][i].ReadParam?
               && r[1..][i].columnType == FromCode(UnpackInt(b, t' + 2 * k', 2) % 0x8000);
      assert r[i + 1] == r[1..][i];
    }
  }

  lemma {:induction false} ExpectedTypes(params: seq<Param>, i: nat)
    requires i < |params|
    ensures AllExpected(params)[i] == Expected(params[i])
  {
    if i > 0 {
      ExpectedTypes(params[1..], i - 1);
    }
  }

  /** With a NULL before another parameter, one type is whatever the buffer held before: here, no type at all. */
  lemma PacketGarbled(memory: seq<byte>, id: uint32, params: seq<Param>)
    requires AllWellBound(params) && AllSupported(params) && !NullsLast(params) && Room(params) <= |memory|
    requires forall k :: 0 <= k < |memory| ==> memory[k] == 0xee
    ensures var r := Packet(memory, id, params, true);
            r.Filled? ==> Read(r.b, LongFlags(params)) != Some((id, AllExpected(params)))
  {
    hide Header, Splice, Values, BitSet, FromCode, ReadParams, Fill, Nulls, LongFlags, WellBound, Supported, NullsLast;
    var r := Packet(memory, id, params, true);
    if r.Filled? && Read(r.b, LongFlags(params)) == Some((id, AllExpected(params))) {
      var i := FirstNull(params);
      SlotGarbled(memory, id, params, i);
      ReadKnowsNulls(memory, id, params);
      var t := |Header(id, params, true)|;
      SlotRead(r.b, t, t + 2 * NonNull(params), params, i, AllExpected(params));
      NoSuchType(r.b, t + 2 * i);
      var j :| 0 <= j < |params| && AllExpected(params)[j].ReadParam? && AllExpected(params)[j].columnType == Error;
      ExpectedTypes(params, j);
      ErrorUnsupported(params[j]);
    }
  }

  lemma ErrorUnsupported(p: Param)
    requires WellBound(p) && (p.IsNull() || Supported(p.columnType)) && Expected(p).ReadParam?
    ensures Expected(p).columnType != Error
  {
  }

  lemma NoSuchType(b: seq<byte>, p: nat)
    requires p + 2 <= |b| && b[p] == 0xee && b[p + 1] == 0xee
    ensures FromCode(UnpackInt(b, p, 2) % 0x8000) == Error
  {
    UnpackInt2(b, p);
  }

  lemma SlotGarbled(memory: seq<byte>, id: uint32, params: seq<Param>, i: nat)
    requires AllWellBound(params) && Room(params) <= |memory|
    requires forall k :: 0 <= k < |memory| ==> memory[k] == 0xee
    requires i < |params| && params[i].IsNull() && NonNull(params) > i
    ensures var r := Packet(memory, id, params, true); var at := |Header(id, params, true)| + 2 * i;
            r.Filled? ==> at + 2 <= |r.b| && r.b[at] == 0xee && r.b[at + 1] == 0xee
  {
    hide Header, Splice, Values, Fill, WellBound;
    var h := Header(id, params, true);
    var b, at, pos := Splice(memory, 0, h), |h| + 2 * i, |h| + 2 * NonNull(params);
    NonNullAtMost(params);
    SpliceElsewhere(memory, 0, h, at);
    SpliceElsewhere(memory, 0, h, at + 1);
    FillKeeps(b, |h|, pos, params, at);
    FillKeeps(b, |h|, pos, params, at + 1);
  }

  // Whatever the slots hold, the reader finds the NULL set of the header.
  lemma ReadKnowsNulls(memory: seq<byte>, id: uint32, params: seq<Param>)
    requires AllWellBound(params) && Room(params) <= |memory| && Packet(memory, id, params, true).Filled?
    requires Read(Packet(memory, id, params, true).b, LongFlags(params)) == Some((id, AllExpected(params)))
    ensures var b := Packet(memory, id, params, true).b; var t := |Header(id, params, true)|;
            ReadParams(b, t, t + 2 * NonNull(params), Nulls(params), LongFlags(params)) == Some(AllExpected(params))
  {
    hide Header, Values, FlagsAt, ReadParams, Nulls, LongFlags, WellBound, AllExpected, Packet, CountFalse, UnpackInt;
    var b, h := Packet(memory, id, params, true).b, Header(id, params, true);
    HeaderKept(memory, id, params);
    HeaderRead(b, id, params);
    FalseCount(params);
  }

  lemma HeaderKept(memory: seq<byte>, id: uint32, params: seq<Param>)
    requires AllWellBound(params) && Room(params) <= |memory| && Packet(memory, id, params, true).Filled?
    ensures At(Packet(memory, id, params, true).b, 0, Header(id, params, true))
  {
    hide Header, Splice, Values, Fill, WellBound;
    var h := Header(id, params, true);
    var start, pos := Splice(memory, 0, h), |h| + 2 * NonNull(params);
    NonNullAtMost(params);
    SpliceIs(memory, 0, h);
    var full := Fill(start, |h|, pos, params).b;
    forall k | 0 <= k < |h| ensures full[k] == h[k] {
      FillKeeps(start, |h|, pos, params, k);
      assert start[..|h|][k] == h[k];
    }
    var b := Packet(memory, id, params, true).b;
    assert b[0..|h|] == h;
    MatchIs(b, 0, h);
  }

  predicate ReadsBack(memory: seq<byte>, id: uint32, params: seq<Param>)
    requires AllWellBound(params) && Room(params) <= |memory|
  {
    var r := Packet(memory, id, params, true);
    r.Filled? && Read(r.b, LongFlags(params)) == Some((id, AllExpected(params)))
  }

  /** Read in the intended layout, the packet holds what was bound, whatever the buffer held, exactly if no NULL comes
      before another value and no value loses anything in its encoding. */
  lemma ExecuteExact(id: uint32, params: seq<Param>)
    requires AllWellBound(params) && AllSupported(params)
    ensures (forall memory: seq<byte> :: |memory| >= Room(params) ==> ReadsBack(memory, id, params))
            <==> NullsLast(params) && AllLossless(params)
  {
    hide Read, Packet, AllExpected, AllArrive, LongFlags, Values, AllLossless, NullsLast, Room, AllWellBound,
        AllSupported;
    var memory: seq<byte> := seq(Room(params), _ => 0xee);
    AllArriveExact(params);
    if NullsLast(params) {
      PacketRead(memory, id, params);
      assert ReadsBack(memory, id, params) <==> AllLossless(params);
      forall memory: seq<byte> | |memory| >= Room(params) && AllLossless(params) ensures ReadsBack(memory, id, params) {
        PacketRead(memory, id, params);
      }
    } else {
      PacketGarbled(memory, id, params);
      assert !ReadsBack(memory, id, params);
    }
  }
}
