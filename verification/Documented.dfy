/** The execute packet as the protocol documentation lays it out: a type for every parameter, the NULL ones included. */
module Documented {
  import opened Options
  import opened Bytes
  import opened Pack
  import opened Types
  import opened Execute
  import opened ExecuteProofs

  // ---------------------------------------------------------------- the reader

  // Reads a type for every parameter from t on, and a value for those that are not NULL from v on.
  function ReadTyped(b: seq<byte>, t: nat, v: nat, nulls: seq<bool>, long: seq<bool>): Option<seq<ReadParam>>
    requires |nulls| == |long|
    decreases nulls
  {
    if nulls == [] then if v == |b| then Some([]) else None
    else if t + 2 > |b| then None
    else if nulls[0] then Prepend(ReadNull, ReadTyped(b, t + 2, v, nulls[1..], long[1..]))
    else
      var code := UnpackInt(b, t, 2);
      var columnType, isUnsigned := FromCode(code % 0x8000), code >= 0x8000;
      if long[0] then
        Prepend(ReadParam(columnType, isUnsigned, None), ReadTyped(b, t + 2, v, nulls[1..], long[1..]))
      else
        match ReadValue(b, v, columnType)
        case None => None
        case Some((value, next)) =>
          Prepend(ReadParam(columnType, isUnsigned, Some(value)), ReadTyped(b, t + 2, next, nulls[1..], long[1..]))
  }

  // No cursor and one iteration; the bitmap and what follows it are there only if the statement has parameters.
  function ServerRead(b: seq<byte>, long: seq<bool>): Option<(nat, seq<ReadParam>)> {
    var n := |long|;
    var at := 9 + BitmapLength(n, 0);
    if |b| < 9 || b[4] != 0 || UnpackInt(b, 5, 4) != 1 then None
    else if n == 0 then if |b| == 9 then Some((UnpackInt(b, 0, 4), [])) else None
    else if at + 1 > |b| || b[at] != 1 then None
    else
      match ReadTyped(b, at + 1, at + 1 + 2 * n, FlagsAt(b, 9, n), long)
      case None => None
      case Some(params) => Some((UnpackInt(b, 0, 4), params))
  }

  predicate ServerReads(memory: seq<byte>, id: uint32, params: seq<Param>)
    requires AllWellBound(params) && Room(params) <= |memory|
  {
    var r := Packet(memory, id, params, true);
    r.Filled? && ServerRead(r.b, LongFlags(params)) == Some((id, AllExpected(params)))
  }

  predicate NoNulls(params: seq<Param>) {
    forall i :: 0 <= i < |params| ==> !params[i].IsNull()
  }

  // ---------------------------------------------------------------- without NULLs

  lemma {:induction false} NoNullsLast(params: seq<Param>)
    requires NoNulls(params)
    ensures NullsLast(params) && NonNull(params) == |params|
  {
    if params != [] {
      assert forall i :: 0 <= i < |params| - 1 ==> params[1..][i] == params[i + 1];
      NoNullsLast(params[1..]);
    }
  }

  lemma {:induction false} SameReading(b: seq<byte>, t: nat, v: nat, nulls: seq<bool>, long: seq<bool>)
    requires |nulls| == |long| && forall i :: 0 <= i < |nulls| ==> !nulls[i]
    ensures ReadTyped(b, t, v, nulls, long) == ReadParams(b, t, v, nulls, long)
    decreases nulls
  {
    hide ReadValue, FromCode, UnpackInt, Prepend;
    if nulls != [] {
      assert forall i :: 0 <= i < |nulls| - 1 ==> nulls[1..][i] == nulls[i + 1];
      SameReading(b, t + 2, v, nulls[1..], long[1..]);
      if t + 2 <= |b| {
        var r := ReadValue(b, v, FromCode(UnpackInt(b, t, 2) % 0x8000));
        if r.Some? {
          SameReading(b, t + 2, r.value.1, nulls[1..], long[1..]);
        }
      }
    }
  }

  lemma ReadWithoutNulls(memory: seq<byte>, id: uint32, params: seq<Param>)
    requires AllWellBound(params) && AllSupported(params) && NoNulls(params) && params != []
    requires Room(params) <= |memory|
    ensures ServerReads(memory, id, params) <==> AllLossless(params)
  {
    hide Packet, ReadTyped, ReadParams, Nulls, AllExpected, AllArrive, AllLossless, FlagsAt, BitmapLength,
        UnpackInt, Room;
    NoNullsLast(params);
    PacketRead(memory, id, params);
    AllArriveExact(params);
    var b := Packet(memory, id, params, true).b;
    KeptFlags(memory, id, params);
    FalseCount(params);
    forall i | 0 <= i < |params| ensures !Nulls(params)[i] {
      NullsAt(params, i);
    }
    var t := 10 + BitmapLength(|params|, 0);
    SameReading(b, t, t + 2 * |params|, Nulls(params), LongFlags(params));
  }

  lemma KeptFlags(memory: seq<byte>, id: uint32, params: seq<Param>)
    requires AllWellBound(params) && Room(params) <= |memory| && Packet(memory, id, params, true).Filled?
    ensures var b := Packet(memory, id, params, true).b; var at := 9 + BitmapLength(|params|, 0);
            && at + 1 <= |b| && b[at] == 1 && UnpackInt(b, 0, 4) == id && b[4] == 0 && UnpackInt(b, 5, 4) == 1
            && FlagsAt(b, 9, |params|) == Nulls(params)
  {
    hide Packet, Header, FlagsAt, Nulls, Room, UnpackInt;
    HeaderKept(memory, id, params);
    HeaderRead(Packet(memory, id, params, true).b, id, params);
  }

  // ---------------------------------------------------------------- with NULLs

  lemma LengthLeast(b: seq<byte>, p: nat, n: uint64)
    requires HasLength(b, p) && !UnpackLength(b, p).isNull && UnpackLength(b, p).value == n
    ensures UnpackLength(b, p).bytes >= |LengthBytes(n)|
  {
    if b[p] >= 0xfc {
      Powers();
      UnpackBound(b, p + 1, Width(b[p]) - 1);
    }
  }

  lemma TextLeast(b: seq<byte>, v: nat, s: Data)
    requires ReadText(b, v).Some? && ReadText(b, v).value.0 == Text(s)
    ensures ReadText(b, v).value.1 >= v + |DataBytes(s)|
  {
    hide UnpackLength, LengthBytes;
    var u := UnpackLength(b, v);
    assert |b[v + u.bytes..v + u.bytes + u.value]| == u.value;
    LengthLeast(b, v, |s|);
  }

  lemma DateTimeLeast(b: seq<byte>, v: nat, dt: Pack.DateTime, dateOnly: bool)
    requires ReadDateTime(b, v).Some? && ReadDateTime(b, v).value.0 == Moment(dt)
    ensures ReadDateTime(b, v).value.1 >= v + |DateTimeBytes(dt, dateOnly)|
  {
    hide DateTimeFields;
    assert UnpackDateTime(b, v + 1, b[v], ZERO_TIME) == dt;
  }

  lemma TimeLeast(b: seq<byte>, v: nat, t: Pack.DateTime)
    requires ReadValue(b, v, Time).Some? && ReadValue(b, v, Time).value.0 == Moment(t)
    ensures ReadValue(b, v, Time).value.1 >= v + |TimeBytes(t)|
  {
    hide TimeFields;
    assert UnpackTime(b, v + 1, b[v], ZERO_TIME) == t;
  }

  // A reading of the bound value uses no fewer bytes than were sent.
  lemma ValueLeast(b: seq<byte>, v: nat, p: Param)
    requires WellBound(p) && Supported(p.columnType)
    requires ReadValue(b, v, p.columnType).Some? && ReadValue(b, v, p.columnType).value.0 == p.value
    ensures ReadValue(b, v, p.columnType).value.1 >= v + |ValueBytes(p)|
  {
    hide ReadText, ReadDateTime, UnpackTime, DataBytes, DateTimeBytes, TimeBytes, UnpackInt;
    match p.columnType
    case Time => TimeLeast(b, v, p.value.dt);
    case Date => DateTimeLeast(b, v, p.value.dt, true);
    case DateTime => DateTimeLeast(b, v, p.value.dt, false);
    case Timestamp => DateTimeLeast(b, v, p.value.dt, false);
    case String => TextLeast(b, v, p.value.data);
    case Blob => TextLeast(b, v, p.value.data);
    case _ =>
  }

  // What reading one parameter leaves to be read.
  lemma TypedFirst(b: seq<byte>, t: nat, v: nat, params: seq<Param>)
    returns (next: nat)
    requires AllWellBound(params) && AllSupported(params) && params != []
    requires ReadTyped(b, t, v, Nulls(params), LongFlags(params)) == Some(AllExpected(params))
    ensures next >= v + |Sent(params[0])|
    ensures ReadTyped(b, t + 2, next, Nulls(params[1..]), LongFlags(params[1..])) == Some(AllExpected(params[1..]))
  {
    hide ReadValue, FromCode, UnpackInt, Supported, WellBound, ValueBytes;
    var p, rest := params[0], params[1..];
    assert Nulls(params)[1..] == Nulls(rest) && LongFlags(params)[1..] == LongFlags(rest);
    assert AllExpected(params)[1..] == AllExpected(rest) && AllExpected(params)[0] == Expected(p);
    next := v;
    if !p.IsNull() && !p.isLongData {
      var columnType := FromCode(UnpackInt(b, t, 2) % 0x8000);
      var r := ReadValue(b, v, columnType);
      next := r.value.1;
      assert Expected(p) == ReadParam(columnType, UnpackInt(b, t, 2) >= 0x8000, Some(r.value.0));
      ValueLeast(b, v, p);
    }
  }

  lemma {:induction false} TypedNeeds(b: seq<byte>, t: nat, v: nat, params: seq<Param>)
    requires AllWellBound(params) && AllSupported(params)
    requires ReadTyped(b, t, v, Nulls(params), LongFlags(params)) == Some(AllExpected(params))
    ensures v + |Values(params)| <= |b|
    decreases params
  {
    hide Sent, WellBound, Supported;
    if params != [] {
      var next := TypedFirst(b, t, v, params);
      TypedNeeds(b, t + 2, next, params[1..]);
    }
  }

  lemma {:induction false} AllNonNull(params: seq<Param>)
    requires NonNull(params) == |params|
    ensures NoNulls(params)
  {
    if params != [] {
      NonNullAtMost(params[1..]);
      AllNonNull(params[1..]);
      assert forall i :: 1 <= i < |params| ==> params[i] == params[1..][i - 1];
    }
  }

  lemma PacketSize(memory: seq<byte>, id: uint32, params: seq<Param>)
    requires AllWellBound(params) && Room(params) <= |memory| && Packet(memory, id, params, true).Filled?
    ensures |Packet(memory, id, params, true).b|
            == 10 + BitmapLength(|params|, 0) + 2 * NonNull(params) + |Values(params)|
  {
    hide Fill, Splice, Header, Values, NonNull, WellBound, BitmapLength;
    NonNullAtMost(params);
  }

  /** In whatever memory the packet is built, the documented reading gives what was bound exactly if nothing is NULL and
      no value loses anything in its encoding. */
  lemma DocumentedExact(memory: seq<byte>, id: uint32, params: seq<Param>)
    requires AllWellBound(params) && AllSupported(params) && params != []
    requires Room(params) <= |memory|
    ensures ServerReads(memory, id, params) <==> NoNulls(params) && AllLossless(params)
  {
    hide Packet, ReadTyped, Nulls, AllExpected, FlagsAt, BitmapLength, Values, Room, UnpackInt, LongFlags, NonNull,
      AllLossless;
    if NoNulls(params) {
      ReadWithoutNulls(memory, id, params);
    } else if ServerReads(memory, id, params) {
      KeptFlags(memory, id, params);
      var b, t := Packet(memory, id, params, true).b, 10 + BitmapLength(|params|, 0);
      TypedNeeds(b, t, t + 2 * |params|, params);
      PacketSize(memory, id, params);
      NonNullAtMost(params);
      AllNonNull(params);
    }
  }

  /** Without parameters the packet is one byte longer than documented: it ends with the flag of the bitmap. */
  lemma NoParameters(memory: seq<byte>, id: uint32)
    requires |memory| >= 10
    ensures AllWellBound([]) && Room([]) == 10 && Packet(memory, id, [], true).Filled?
    ensures var b := Packet(memory, id, [], true).b; |b| == 10 && b[9] == 1 && ServerRead(b, []) == None
  {
    hide Splice, FlagsAt;
    PacketSize(memory, id, []);
    KeptFlags(memory, id, []);
  }
}
