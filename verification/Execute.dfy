/** The execute packet that src/statement.cc builds, and an independent reading of it. */
module Execute {
  import opened Bytes
  import opened Pack
  import opened Types

  // The data union of attachsql_stmt_param_st; Raw holds the bytes of a float or a double.
  datatype Datum = Int(n: uint64) | Raw(bytes: seq<byte>) | Moment(dt: DateTime) | Text(data: Data)

  datatype Param = Param(columnType: ColumnType, isUnsigned: bool, isLongData: bool, value: Datum) {
    predicate IsNull() { columnType.Null? }
  }

  // The types the switch knows.
  predicate Supported(t: ColumnType) {
    match t
    case Tiny | Short | Long | LongLong | Float | Double | Time | Date | DateTime | Timestamp | String | Blob => true
    case _ => false
  }

  // The union member that belongs to the type is the one that was set.
  predicate WellBound(p: Param) {
    match p.columnType
    case Tiny => p.value.Int? && p.value.n < 0x100
    case Short => p.value.Int? && p.value.n < 0x1_0000
    case Long => p.value.Int? && p.value.n < 0x1_0000_0000
    case LongLong => p.value.Int?
    case Float => p.value.Raw? && |p.value.bytes| == 4
    case Double => p.value.Raw? && |p.value.bytes| == 8
    case Time | Date | DateTime | Timestamp => p.value.Moment?
    case String | Blob => p.value.Text?
    case _ => true
  }

  predicate AllWellBound(params: seq<Param>) {
    forall i :: 0 <= i < |params| ==> WellBound(params[i])
  }

  const UNSIGNED_BIT := 0x8000

  // type |= ATTACHSQL_STMT_PARAM_UNSIGNED_BIT; no supported type has that bit itself.
  function TypeCode(p: Param): uint16 {
    if p.isUnsigned && p.columnType.Code() < UNSIGNED_BIT then p.columnType.Code() + UNSIGNED_BIT
    else p.columnType.Code()
  }

  function ValueBytes(p: Param): seq<byte>
    requires WellBound(p)
  {
    match p.columnType
    case Tiny => [p.value.n]
    case Short => Le(p.value.n, 2)
    case Long => Le(p.value.n, 4)
    case LongLong => Le(p.value.n, 8)
    case Float => p.value.bytes
    case Double => p.value.bytes
    case Time => TimeBytes(p.value.dt)
    case Date => DateTimeBytes(p.value.dt, true)
    case DateTime => DateTimeBytes(p.value.dt, false)
    case Timestamp => DateTimeBytes(p.value.dt, false)
    case String => DataBytes(p.value.data)
    case Blob => DataBytes(p.value.data)
    case _ => []
  }

  // What a parameter adds after the types.
  function Sent(p: Param): seq<byte>
    requires WellBound(p)
  {
    if p.IsNull() || p.isLongData then [] else ValueBytes(p)
  }

  function Values(params: seq<Param>): seq<byte>
    requires AllWellBound(params)
  {
    if params == [] then [] else Sent(params[0]) + Values(params[1..])
  }

  function TypeSlots(params: seq<Param>): (s: seq<byte>)
    ensures |s| == 2 * NonNull(params)
  {
    if params == [] then []
    else (if params[0].IsNull() then [] else Le(TypeCode(params[0]), 2)) + TypeSlots(params[1..])
  }

  function NonNull(params: seq<Param>): nat {
    if params == [] then 0 else (if params[0].IsNull() then 0 else 1) + NonNull(params[1..])
  }

  function Nulls(params: seq<Param>): (nulls: seq<bool>)
    ensures |nulls| == |params|
  {
    if params == [] then [] else [params[0].IsNull()] + Nulls(params[1..])
  }

  // ---------------------------------------------------------------- what the code writes

  datatype Filled = Filled(b: seq<byte>, pos: nat) | BadParameter

  // The loop over the parameters: slot is where the type of the next parameter goes, pos where its value goes.
  // The slot advances for every parameter, although space was reserved for the non-NULL ones only.
  function Fill(b: seq<byte>, slot: nat, pos: nat, params: seq<Param>): (r: Filled)
    requires AllWellBound(params)
    requires slot + 2 * |params| <= |b| && pos + |Values(params)| <= |b|
    ensures r.Filled? ==> |r.b| == |b| && r.pos == pos + |Values(params)|
    decreases params
  {
    if params == [] then Filled(b, pos)
    else
      var p := params[0];
      if p.IsNull() then Fill(b, slot + 2, pos, params[1..])
      else
        var typed := Splice(b, slot, Le(TypeCode(p), 2));
        if p.isLongData then Fill(typed, slot + 2, pos, params[1..])
        else if !Supported(p.columnType) then BadParameter
        else Fill(Splice(typed, pos, ValueBytes(p)), slot + 2, pos + |ValueBytes(p)|, params[1..])
  }

  function Header(id: uint32, params: seq<Param>, newBind: bool): (h: seq<byte>)
    ensures |h| == 10 + BitmapLength(|params|, 0)
  {
    Le(id, 4) + [0] + Le(1, 4) + Bitmap(Nulls(params), 0) + [if newBind then 1 else 0]
  }

  // Enough room for the header, a slot for every parameter, and all values.
  function Room(params: seq<Param>): nat
    requires AllWellBound(params)
  {
    10 + BitmapLength(|params|, 0) + 2 * |params| + |Values(params)|
  }

  lemma {:induction false} NonNullAtMost(params: seq<Param>)
    ensures NonNull(params) <= |params|
  {
    if params != [] {
      NonNullAtMost(params[1..]);
    }
  }

  // The packet built in a buffer that holds the bytes `memory` at first.
  function Packet(memory: seq<byte>, id: uint32, params: seq<Param>, newBind: bool): Filled
    requires AllWellBound(params) && Room(params) <= |memory|
  {
    var h := Header(id, params, newBind);
    NonNullAtMost(params);
    match Fill(Splice(memory, 0, h), |h|, |h| + 2 * NonNull(params), params)
    case BadParameter => BadParameter
    case Filled(b, pos) => Filled(b[..pos], pos)
  }

  // What |= does to the bitmap byte of a parameter.
  lemma BitmapStep(nulls: seq<bool>, i: nat)
    requires i < |nulls| && nulls[i]
    ensures var before := Marked(nulls, i); var after := Marked(nulls, i + 1);
            && i / 8 < |before| && WithBit(before[i / 8], i % 8) < 0x100
            && after == before[i / 8 := WithBit(before[i / 8], i % 8)]
  {
    hide BitSet;
    var was, now := Masked(nulls, i), Masked(nulls, i + 1);
    forall j | 0 <= j < BitmapLength(|nulls|, 0) && j != i / 8
      ensures BitmapByte(now, 0, j) == BitmapByte(was, 0, j)
    {
      assert Flags(now, 0, j) == Flags(was, 0, j);
    }
    var f := Flags(was, 0, i / 8);
    assert Flags(now, 0, i / 8) == f[i % 8 := true];
    assert !f[i % 8];
    BitOfBits(f, i % 8);
    BitsUpdate(f, i % 8);
    assert BitmapByte(now, 0, i / 8) == WithBit(BitmapByte(was, 0, i / 8), i % 8);
    var before, after := Marked(nulls, i), Marked(nulls, i + 1);
    assert after == before[i / 8 := WithBit(before[i / 8], i % 8)];
  }

  // The flags of the parameters below i; the others are not marked yet.
  function Masked(nulls: seq<bool>, i: nat): (m: seq<bool>)
    ensures |m| == |nulls|
  {
    seq(|nulls|, k requires 0 <= k < |nulls| => k < i && nulls[k])
  }

  function Marked(nulls: seq<bool>, i: nat): (s: seq<byte>)
    ensures |s| == BitmapLength(|nulls|, 0)
  {
    Bitmap(Masked(nulls, i), 0)
  }

  lemma MarkedEnds(nulls: seq<bool>)
    ensures Marked(nulls, 0) == seq(BitmapLength(|nulls|, 0), _ => 0)
    ensures Marked(nulls, |nulls|) == Bitmap(nulls, 0)
  {
    forall j | 0 <= j < BitmapLength(|nulls|, 0) ensures BitmapByte(Masked(nulls, 0), 0, j) == 0 {
      assert Flags(Masked(nulls, 0), 0, j) == seq(8, _ => false);
      NoBits(8);
    }
    assert Masked(nulls, |nulls|) == nulls;
  }

  lemma {:induction false} NullsAt(params: seq<Param>, i: nat)
    requires i < |params|
    ensures Nulls(params)[i] == params[i].IsNull()
    ensures NonNull(params[..i + 1]) == NonNull(params[..i]) + if params[i].IsNull() then 0 else 1
  {
    if i > 0 {
      NullsAt(params[1..], i - 1);
      assert params[..i + 1][1..] == params[1..][..i] && params[..i][1..] == params[1..][..i - 1];
    }
  }

  // Clears the bitmap at pos, sets the bit of every NULL parameter, and counts the others.
  method MarkNulls(buffer: array<byte>, pos: nat, params: seq<Param>) returns (paramCount: nat)
    requires pos + BitmapLength(|params|, 0) <= buffer.Length
    modifies buffer
    ensures buffer[..] == Splice(old(buffer[..]), pos, Bitmap(Nulls(params), 0))
    ensures paramCount == NonNull(params)
  {
    hide Bitmap, BitSet, Marked, Nulls, NonNull, Splice, WithBit;
    ghost var was, nulls := buffer[..], Nulls(params);
    MarkedEnds(nulls);
    Write(buffer, pos, seq((|params| + 7) / 8, _ => 0));
    paramCount := |params|;
    assert params[..0] == [];
    NonNullOfNone();
    for param := 0 to |params|
      invariant buffer[..] == Splice(was, pos, Marked(nulls, param))
      invariant paramCount == |params| - param + NonNull(params[..param])
    {
      NullsAt(params, param);
      if params[param].IsNull() {
        BitmapStep(nulls, param);
        ghost var before, j := Marked(nulls, param), param / 8;
        SpliceUpdate(was, pos, before, j, WithBit(before[j], param % 8));
        buffer[pos + param / 8] := WithBit(buffer[pos + param / 8], param % 8);
        paramCount := paramCount - 1;
      } else {
        MarkedSame(nulls, param);
      }
    }
    assert params[..|params|] == params;
  }

  lemma NonNullOfNone()
    ensures NonNull([]) == 0
  {
  }

  lemma MarkedSame(nulls: seq<bool>, i: nat)
    requires i < |nulls| && !nulls[i]
    ensures Marked(nulls, i + 1) == Marked(nulls, i)
  {
    assert Masked(nulls, i + 1) == Masked(nulls, i);
  }

  // The switch over the type.
  method WriteValue(buffer: array<byte>, pos: nat, p: Param) returns (ok: bool, next: nat)
    requires WellBound(p) && pos + |ValueBytes(p)| <= buffer.Length
    modifies buffer
    ensures ok <==> Supported(p.columnType)
    ensures ok ==> next == pos + |ValueBytes(p)| && buffer[..] == Splice(old(buffer[..]), pos, ValueBytes(p))
  {
    hide TimeBytes, DateTimeBytes, DataBytes;
    ok, next := true, pos;
    match p.columnType {
      case Tiny =>
        Write(buffer, pos, [p.value.n]);
        next := pos + 1;
      case Short =>
        PackInt2(buffer, pos, p.value.n);
        next := pos + 2;
      case Long =>
        PackInt4(buffer, pos, p.value.n);
        next := pos + 4;
      case LongLong =>
        PackInt8(buffer, pos, p.value.n);
        next := pos + 8;
      case Float =>
        Write(buffer, pos, p.value.bytes);
        next := pos + 4;
      case Double =>
        Write(buffer, pos, p.value.bytes);
        next := pos + 8;
      case Time =>
        next := PackTime(buffer, pos, p.value.dt);
      case Date =>
        next := PackDateTime(buffer, pos, p.value.dt, true);
      case DateTime =>
        next := PackDateTime(buffer, pos, p.value.dt, false);
      case Timestamp =>
        next := PackDateTime(buffer, pos, p.value.dt, false);
      case String =>
        next := PackData(buffer, pos, p.value.data);
      case Blob =>
        next := PackData(buffer, pos, p.value.data);
      case _ =>
        ok := false;
    }
  }

  // What remains to be done from parameter i on.
  ghost function FillRest(b: seq<byte>, slots: nat, pos: nat, params: seq<Param>, i: nat): Filled
    requires i <= |params| && AllWellBound(params)
    requires slots + 2 * |params| <= |b| && pos + |Values(params[i..])| <= |b|
  {
    Fill(b, slots + 2 * i, pos, params[i..])
  }

  lemma FillStep(b: seq<byte>, slots: nat, pos: nat, params: seq<Param>, i: nat)
    requires i < |params| && AllWellBound(params)
    requires slots + 2 * |params| <= |b| && pos + |Values(params[i..])| <= |b|
    ensures |Values(params[i..])| == |Sent(params[i])| + |Values(params[i + 1..])|
    ensures var p := params[i]; var typed := Splice(b, slots + 2 * i, Le(TypeCode(p), 2));
            FillRest(b, slots, pos, params, i) ==
            if p.IsNull() then FillRest(b, slots, pos, params, i + 1)
            else if p.isLongData then FillRest(typed, slots, pos, params, i + 1)
            else if !Supported(p.columnType) then BadParameter
            else FillRest(Splice(typed, pos, ValueBytes(p)), slots, pos + |ValueBytes(p)|, params, i + 1)
  {
    hide ValueBytes, TypeCode, Splice, Supported;
    assert params[i..][1..] == params[i + 1..] && params[i..][0] == params[i];
  }

  /** Builds the packet in buffer.  The bytes below `len` are what is handed to attachsql_command_send. */
  method StmtExecute(buffer: array<byte>, id: uint32, params: seq<Param>, newBind: bool) returns (ok: bool, len: nat)
    requires AllWellBound(params) && Room(params) <= buffer.Length
    modifies buffer
    ensures ok <==> Packet(old(buffer[..]), id, params, newBind).Filled?
    ensures ok ==> len <= buffer.Length && Filled(buffer[..len], len) == Packet(old(buffer[..]), id, params, newBind)
  {
    hide TypeCode, ValueBytes, Splice, Bitmap, Fill, Supported, Values, Sent;
    ghost var memory := buffer[..];
    var slots, paramCount := WriteHeader(buffer, id, params, newBind);
    NonNullAtMost(params);
    var bufferPos: nat := slots + paramCount * 2;
    ghost var all := Fill(buffer[..], slots, bufferPos, params);
    assert params[0..] == params;
    for param := 0 to |params|
      invariant bufferPos + |Values(params[param..])| <= buffer.Length
      invariant FillRest(buffer[..], slots, bufferPos, params, param) == all
    {
      FillStep(buffer[..], slots, bufferPos, params, param);
      var p := params[param];
      if p.columnType == Null {
        continue;
      }
      PackInt2(buffer, slots + param * 2, TypeCode(p));
      if p.isLongData {
        continue;
      }
      SentIsValue(p);
      var written, next := WriteValue(buffer, bufferPos, p);
      if !written {
        return false, 0;
      }
      bufferPos := next;
    }
    FillEnds(buffer[..], slots, bufferPos, params);
    return true, bufferPos;
  }

  lemma SentIsValue(p: Param)
    requires WellBound(p) && !p.IsNull() && !p.isLongData
    ensures Sent(p) == ValueBytes(p)
  {
  }

  lemma FillEnds(b: seq<byte>, slots: nat, pos: nat, params: seq<Param>)
    requires AllWellBound(params) && slots + 2 * |params| <= |b| && pos <= |b|
    ensures Values(params[|params|..]) == []
    ensures FillRest(b, slots, pos, params, |params|) == Filled(b, pos)
  {
  }

  method WriteHeader(buffer: array<byte>, id: uint32, params: seq<Param>, newBind: bool)
    returns (slots: nat, paramCount: nat)
    requires 10 + BitmapLength(|params|, 0) <= buffer.Length
    modifies buffer
    ensures slots == |Header(id, params, newBind)| && paramCount == NonNull(params)
    ensures buffer[..] == Splice(old(buffer[..]), 0, Header(id, params, newBind))
  {
    hide Bitmap, Nulls, Splice;
    ghost var memory := buffer[..];
    PackInt4(buffer, 0, id);
    Write(buffer, 4, [0]);
    SpliceSplice(memory, 0, Le(id, 4), [0]);
    PackInt4(buffer, 5, 1);
    SpliceSplice(memory, 0, Le(id, 4) + [0], Le(1, 4));
    slots := 9;
    paramCount := MarkNulls(buffer, slots, params);
    ghost var bitmap := Bitmap(Nulls(params), 0);
    SpliceSplice(memory, 0, Le(id, 4) + [0] + Le(1, 4), bitmap);
    slots := slots + (|params| + 7) / 8;
    Write(buffer, slots, [if newBind then 1 else 0]);
    SpliceSplice(memory, 0, Le(id, 4) + [0] + Le(1, 4) + bitmap, [if newBind then 1 else 0]);
    slots := slots + 1;
  }
}
