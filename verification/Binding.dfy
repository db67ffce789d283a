/** Binding parameters with the setters of src/statement_getset.cc, and what is then read in the execute packet. */
module Binding {
  import opened Options
  import opened Bytes
  import opened Pack
  import opened Types
  import opened Execute
  import opened ExecuteProofs
  import opened Documented

  type DoubleBytes = s: seq<byte> | |s| == 8 witness seq(8, _ => 0)

  // One alternative for every setter.
  datatype Setting =
    | SetInt(word: uint32, isUnsigned: bool)
    | SetBigInt(long: uint64, isUnsigned: bool)
    | SetDouble(bytes: DoubleBytes)
    | SetString(text: Data)
    | SetBinary(blob: Data)
    | SetNull
    | SetDateTime(year: uint16, month: byte, day: byte, hour: byte, minute: byte, second: byte, microsecond: uint32)
    | SetTime(hour: byte, minute: byte, second: byte, microsecond: uint32, isNegative: bool)

  // attachsql_stmt_param_st as constructed.
  const UNSET := Param(Null, false, false, Int(0))

  // The type that goes with a setter, and the value it was given.
  function TypeSet(s: Setting): ColumnType {
    match s
    case SetInt(_, _) => Long
    case SetBigInt(_, _) => LongLong
    case SetDouble(_) => Double
    case SetString(_) => String
    case SetBinary(_) => Blob
    case SetNull => Null
    case SetDateTime(_, _, _, _, _, _, _) => ColumnType.DateTime
    case SetTime(_, _, _, _, _) => Time
  }

  function ValueSet(s: Setting): Datum
    requires !s.SetNull?
  {
    match s
    case SetInt(word, _) => Int(word)
    case SetBigInt(long, _) => Int(long)
    case SetDouble(bytes) => Raw(bytes)
    case SetString(text) => Text(text)
    case SetBinary(blob) => Text(blob)
    case SetDateTime(y, mo, d, h, m, s, us) => Moment(Pack.DateTime(y, mo, d, h, m, s, us, false))
    case SetTime(h, m, s, us, neg) => Moment(Pack.DateTime(0, 0, 0, h, m, s, us, neg))
  }

  // The sign of a number; a double has none.
  function SignSet(s: Setting): Option<bool> {
    match s
    case SetInt(_, isUnsigned) => Some(isUnsigned)
    case SetBigInt(_, isUnsigned) => Some(isUnsigned)
    case SetDouble(_) => Some(false)
    case _ => None
  }

  // The sign survives strings, NULLs and times; the value survives a NULL.
  function Bound(p: Param, s: Setting): Param {
    Param(TypeSet(s), if SignSet(s).Some? then SignSet(s).value else p.isUnsigned, p.isLongData,
          if s.SetNull? then p.value else ValueSet(s))
  }

  /** The parameter takes the type and the value, and of a number the sign; everything else stays as it is.  A parameter
      that does not exist is reported. */
  method SetParam(paramData: array<Param>, param: nat, s: Setting) returns (ok: bool)
    modifies paramData
    ensures ok <==> param < paramData.Length
    ensures ok ==> paramData[param].columnType == TypeSet(s) && (!s.SetNull? ==> paramData[param].value == ValueSet(s))
    ensures ok && s.SetDateTime? ==>
              var p := paramData[param];
              p.value == Moment(Pack.DateTime(s.year, s.month, s.day, s.hour, s.minute, s.second, s.microsecond, false))
    ensures ok && s.SetTime? ==>
              var p := paramData[param];
              p.value == Moment(Pack.DateTime(0, 0, 0, s.hour, s.minute, s.second, s.microsecond, s.isNegative))
    ensures paramData[..] == AfterCall(old(paramData[..]), Call(param, s))
  {
    if param >= paramData.Length {
      return false;
    }
    var p := paramData[param];
    match s {
      case SetInt(word, isUnsigned) =>
        p := p.(value := Int(word));
        p := p.(isUnsigned := isUnsigned);
        p := p.(columnType := Long);
      case SetBigInt(long, isUnsigned) =>
        p := p.(value := Int(long));
        p := p.(isUnsigned := isUnsigned);
        p := p.(columnType := LongLong);
      case SetDouble(bytes) =>
        p := p.(value := Raw(bytes));
        p := p.(isUnsigned := false);
        p := p.(columnType := Double);
      case SetString(text) =>
        p := p.(value := Text(text));
        p := p.(columnType := String);
      case SetBinary(blob) =>
        p := p.(value := Text(blob));
        p := p.(columnType := Blob);
      case SetNull =>
        p := p.(columnType := Null);
      case SetDateTime(year, month, day, hour, minute, second, microsecond) =>
        p := p.(value := Moment(Pack.DateTime(year, month, day, hour, minute, second, microsecond, false)));
        p := p.(columnType := ColumnType.DateTime);
      case SetTime(hour, minute, second, microsecond, isNegative) =>
        p := p.(value := Moment(Pack.DateTime(0, 0, 0, hour, minute, second, microsecond, isNegative)));
        p := p.(columnType := Time);
    }
    paramData[param] := p;
    return true;
  }

  datatype Call = Call(param: nat, setting: Setting)

  function AfterCall(params: seq<Param>, c: Call): (r: seq<Param>)
    ensures |r| == |params|
  {
    if c.param < |params| then params[c.param := Bound(params[c.param], c.setting)] else params
  }

  // A statement of n parameters after these calls.
  function AfterCalls(n: nat, calls: seq<Call>): (r: seq<Param>)
    ensures |r| == n
  {
    if calls == [] then seq(n, _ => UNSET) else AfterCall(AfterCalls(n, calls[..|calls| - 1]), calls[|calls| - 1])
  }

  // The last setting of parameter i.
  function LastSet(calls: seq<Call>, i: nat): Option<Setting> {
    if calls == [] then None
    else
      var c := calls[|calls| - 1];
      if c.param == i then Some(c.setting) else LastSet(calls[..|calls| - 1], i)
  }

  // Whether the last number that was set for parameter i was unsigned.
  predicate LastSign(calls: seq<Call>, i: nat) {
    if calls == [] then false
    else
      var c := calls[|calls| - 1];
      if c.param == i && SignSet(c.setting).Some? then SignSet(c.setting).value
      else LastSign(calls[..|calls| - 1], i)
  }

  /** After any calls, every parameter has the type and value of its own last setting, and the sign of its last
      number. */
  lemma {:induction false} LastWins(n: nat, calls: seq<Call>, i: nat)
    requires i < n
    ensures var p := AfterCalls(n, calls)[i];
            && p.isUnsigned == LastSign(calls, i) && !p.isLongData
            && match LastSet(calls, i)
               case None => p == UNSET
               case Some(s) => p.columnType == TypeSet(s) && (s.SetNull? || p.value == ValueSet(s))
  {
    if calls != [] {
      LastWins(n, calls[..|calls| - 1], i);
    }
  }

  lemma Usable(n: nat, calls: seq<Call>)
    ensures var params := AfterCalls(n, calls); AllWellBound(params) && AllSupported(params)
  {
    hide AfterCalls;
    forall i | 0 <= i < n
      ensures var p := AfterCalls(n, calls)[i];
              WellBound(p) && (p.IsNull() || Supported(p.columnType))
    {
      LastWins(n, calls, i);
    }
  }

  // What is to be read for a parameter: exactly what was set.
  function Meant(calls: seq<Call>, i: nat): ReadParam {
    match LastSet(calls, i)
    case None => ReadNull
    case Some(SetNull) => ReadNull
    case Some(s) => ReadParam(TypeSet(s), LastSign(calls, i), Some(ValueSet(s)))
  }

  /** What is to be read is what the setter was given, argument by argument. */
  lemma MeantArguments(calls: seq<Call>, i: nat)
    ensures match LastSet(calls, i)
            case None => Meant(calls, i) == ReadNull
            case Some(SetNull) => Meant(calls, i) == ReadNull
            case Some(SetInt(n, u)) => Meant(calls, i) == ReadParam(Long, u, Some(Int(n)))
            case Some(SetBigInt(n, u)) => Meant(calls, i) == ReadParam(LongLong, u, Some(Int(n)))
            case Some(SetDouble(bytes)) => Meant(calls, i) == ReadParam(Double, false, Some(Raw(bytes)))
            case Some(SetString(text)) =>
              Meant(calls, i) == ReadParam(String, LastSign(calls, i), Some(Text(text)))
            case Some(SetBinary(blob)) =>
              Meant(calls, i) == ReadParam(Blob, LastSign(calls, i), Some(Text(blob)))
            case Some(SetDateTime(y, mo, d, h, m, s, us)) =>
              Meant(calls, i) == ReadParam(ColumnType.DateTime, LastSign(calls, i),
                                           Some(Moment(Pack.DateTime(y, mo, d, h, m, s, us, false))))
            case Some(SetTime(h, m, s, us, neg)) =>
              Meant(calls, i) == ReadParam(Time, LastSign(calls, i),
                                           Some(Moment(Pack.DateTime(0, 0, 0, h, m, s, us, neg))))
  {
    if calls != [] {
      SignOfNumber(calls, i);
    }
  }

  lemma {:induction false} SignOfNumber(calls: seq<Call>, i: nat)
    ensures LastSet(calls, i).Some? && SignSet(LastSet(calls, i).value).Some? ==>
              LastSign(calls, i) == SignSet(LastSet(calls, i).value).value
  {
    if calls != [] && calls[|calls| - 1].param != i {
      SignOfNumber(calls[..|calls| - 1], i);
    }
  }

  // A time of whole hours, or of nothing but a sign.
  predicate LosesTime(s: Setting) {
    s.SetTime? && s.minute == 0 && s.second == 0 && s.microsecond == 0 && (s.hour > 0 || s.isNegative)
  }

  predicate KeepsTimes(n: nat, calls: seq<Call>) {
    forall i :: 0 <= i < n && LastSet(calls, i).Some? ==> !LosesTime(LastSet(calls, i).value)
  }

  lemma MeantIsExpected(n: nat, calls: seq<Call>, i: nat)
    requires i < n && AllWellBound(AfterCalls(n, calls))
    ensures AllExpected(AfterCalls(n, calls))[i] == Meant(calls, i)
  {
    hide AfterCalls;
    LastWins(n, calls, i);
    ExpectedTypes(AfterCalls(n, calls), i);
  }

  // No parameter that was left or set to NULL comes before one that has a value.
  predicate ValuesFirst(n: nat, calls: seq<Call>) {
    forall i, j :: 0 <= i < j < n && Meant(calls, i).ReadNull? ==> Meant(calls, j).ReadNull?
  }

  lemma {:induction false} NullsLastIs(params: seq<Param>)
    ensures NullsLast(params) <==> forall i, j :: 0 <= i < j < |params| && params[i].IsNull() ==> params[j].IsNull()
  {
    if params != [] {
      var rest := params[1..];
      NullsLastIs(rest);
      assert forall i :: 0 <= i < |rest| ==> rest[i] == params[i + 1];
      assert forall i :: 1 <= i < |params| ==> params[i] == rest[i - 1];
    }
  }

  function AllMeant(n: nat, calls: seq<Call>): (r: seq<ReadParam>)
    ensures |r| == n
  {
    seq(n, i requires 0 <= i < n => Meant(calls, i))
  }

  lemma ExpectedIsMeant(n: nat, calls: seq<Call>)
    requires AllWellBound(AfterCalls(n, calls))
    ensures var params := AfterCalls(n, calls);
            && AllExpected(params) == AllMeant(n, calls) && (AllLossless(params) <==> KeepsTimes(n, calls))
            && forall i :: 0 <= i < n ==> (params[i].IsNull() <==> Meant(calls, i).ReadNull?)
  {
    hide AfterCalls, Meant, LosesTime, Lossless;
    var params := AfterCalls(n, calls);
    forall i | 0 <= i < n
      ensures AllExpected(params)[i] == Meant(calls, i) && (params[i].IsNull() <==> Meant(calls, i).ReadNull?)
      ensures Lossless(params[i]) <==> LastSet(calls, i).None? || !LosesTime(LastSet(calls, i).value)
    {
      MeantIsExpected(n, calls, i);
      ExpectedTypes(params, i);
      LosslessSetting(n, calls, i);
    }
  }

  lemma LosslessSetting(n: nat, calls: seq<Call>, i: nat)
    requires i < n && WellBound(AfterCalls(n, calls)[i])
    ensures Lossless(AfterCalls(n, calls)[i]) <==> LastSet(calls, i).None? || !LosesTime(LastSet(calls, i).value)
  {
    hide AfterCalls;
    LastWins(n, calls, i);
  }

  /** From the setters to the layout the code intends: in whatever memory the packet is built, it holds for each
      parameter
      what was set last, exactly if no NULL comes before a value and no time has nothing but hours or a sign. */
  lemma SettersAsIntended(n: nat, calls: seq<Call>, id: uint32)
    ensures AllWellBound(AfterCalls(n, calls)) && AllSupported(AfterCalls(n, calls))
    ensures var params := AfterCalls(n, calls);
            (forall memory: seq<byte> :: |memory| >= Room(params) ==>
               && Packet(memory, id, params, true).Filled?
               && Read(Packet(memory, id, params, true).b, LongFlags(params)) == Some((id, AllMeant(n, calls))))
            <==> ValuesFirst(n, calls) && KeepsTimes(n, calls)
  {
    hide AfterCalls, Packet, Read, LongFlags, Room, Meant, LosesTime, Lossless;
    Usable(n, calls);
    ExpectedIsMeant(n, calls);
    NullsLastIs(AfterCalls(n, calls));
    ExecuteExact(id, AfterCalls(n, calls));
  }

  // Every parameter has a value.
  predicate AllSet(n: nat, calls: seq<Call>) {
    forall i :: 0 <= i < n ==> !Meant(calls, i).ReadNull?
  }

  /** From the setters to the server, which expects the documented layout: for all calls and in any memory it reads for
      each parameter what was set last, exactly if every parameter was last set to a value and no time has nothing but
      hours or a sign. */
  lemma SettersToServer(n: nat, calls: seq<Call>, id: uint32, memory: seq<byte>)
    requires n > 0 && AllWellBound(AfterCalls(n, calls)) && Room(AfterCalls(n, calls)) <= |memory|
    ensures var params := AfterCalls(n, calls); var r := Packet(memory, id, params, true);
            r.Filled? && ServerRead(r.b, LongFlags(params)) == Some((id, AllMeant(n, calls)))
            <==> AllSet(n, calls) && KeepsTimes(n, calls)
  {
    hide AfterCalls, Packet, ServerRead, LongFlags, Room, Meant, LosesTime, Lossless;
    Usable(n, calls);
    ExpectedIsMeant(n, calls);
    DocumentedExact(memory, id, AfterCalls(n, calls));
  }
}
