/** The variable-length codecs of src/pack.cc: length-encoded integers and strings, dates and times. */
module Pack {
  import opened Arithmetic
  import opened Bytes

  // ---------------------------------------------------------------- length-encoded integers

  // An encoding is a first byte that tells how many more bytes follow, and those bytes.

  function Lead(n: uint64): byte {
    if n <= 0xfa then n else if n <= 0xffff then 0xfc else if n <= 0xff_ffff then 0xfd else 0xfe
  }

  function Width(lead: byte): (w: nat)
    ensures w > 0
  {
    if lead <= 0xfb then 1 else if lead == 0xfc then 3 else if lead == 0xfd then 4 else 9
  }

  function LengthBytes(n: uint64): (s: seq<byte>)
    ensures |s| == Width(Lead(n))
  {
    [Lead(n)] + Le(n, Width(Lead(n)) - 1)
  }

  datatype Unpacked = Unpacked(value: nat, bytes: nat, isNull: bool)

  predicate HasLength(b: seq<byte>, p: nat) {
    p < |b| && p + Width(b[p]) <= |b|
  }

  function UnpackLength(b: seq<byte>, p: nat): (u: Unpacked)
    requires HasLength(b, p)
    ensures u.bytes == Width(b[p])
  {
    if b[p] < 0xfb then Unpacked(b[p], 1, false)
    else if b[p] == 0xfb then Unpacked(0, 1, true)
    else Unpacked(UnpackInt(b, p + 1, Width(b[p]) - 1), Width(b[p]), false)
  }

  // The bytes of s stand in b from p on.
  predicate At(b: seq<byte>, p: nat, s: seq<byte>) {
    p + |s| <= |b| && Match(b, p, s)
  }

  predicate Match(b: seq<byte>, p: nat, s: seq<byte>)
    requires p + |s| <= |b|
    decreases |s|
  {
    s == [] || (b[p] == s[0] && Match(b, p + 1, s[1..]))
  }

  lemma {:induction false} MatchIs(b: seq<byte>, p: nat, s: seq<byte>)
    requires p + |s| <= |b|
    ensures Match(b, p, s) <==> b[p..p + |s|] == s
    decreases |s|
  {
    if s != [] {
      MatchIs(b, p + 1, s[1..]);
      assert b[p..p + |s|] == [b[p]] + b[p + 1..p + 1 + |s[1..]|];
      assert s == [s[0]] + s[1..];
    }
  }

  lemma AtSplit(b: seq<byte>, p: nat, s: seq<byte>, t: seq<byte>)
    ensures At(b, p, s + t) <==> At(b, p, s) && At(b, p + |s|, t)
  {
    if p + |s| + |t| <= |b| {
      MatchSplit(b, p, s, t);
    }
  }

  lemma {:induction false} MatchSplit(b: seq<byte>, p: nat, s: seq<byte>, t: seq<byte>)
    requires p + |s| + |t| <= |b|
    ensures Match(b, p, s + t) <==> Match(b, p, s) && Match(b, p + |s|, t)
    decreases |s|
  {
    if s == [] {
      assert s + t == t;
    } else {
      assert (s + t)[1..] == s[1..] + t;
      MatchSplit(b, p + 1, s[1..], t);
    }
  }

  lemma AtByIndex(b: seq<byte>, p: nat, s: seq<byte>)
    requires At(b, p, s)
    ensures forall k :: 0 <= k < |s| ==> b[p + k] == s[k]
  {
    MatchIs(b, p, s);
    forall k | 0 <= k < |s| ensures b[p + k] == s[k] {
      assert b[p..p + |s|][k] == s[k];
    }
  }

  lemma AtAll(s: seq<byte>)
    ensures At(s, 0, s)
  {
    MatchIs(s, 0, s);
    assert s[0..|s|] == s;
  }

  lemma UnpackIntAt(b: seq<byte>, p: nat, n: nat, width: nat)
    requires n < Pow256(width) && At(b, p, Le(n, width))
    ensures UnpackInt(b, p, width) == n
  {
    MatchIs(b, p, Le(n, width));
    UnpackPacked(b, p, n, width);
  }

  /** Every 64-bit value is read back, and exactly the bytes that were written are consumed. */
  lemma LengthRoundTrip(b: seq<byte>, p: nat, n: uint64)
    requires At(b, p, LengthBytes(n))
    ensures HasLength(b, p) && UnpackLength(b, p) == Unpacked(n, |LengthBytes(n)|, false)
  {
    AtSplit(b, p, [Lead(n)], Le(n, Width(Lead(n)) - 1));
    if n > 0xfa {
      Powers();
      UnpackIntAt(b, p + 1, n, Width(Lead(n)) - 1);
    }
  }

  /** No encoding is a prefix of another. */
  lemma LengthPrefixFree(m: uint64, n: uint64)
    ensures LengthBytes(m) <= LengthBytes(n) <==> m == n
  {
    var b := LengthBytes(n);
    AtAll(b);
    LengthRoundTrip(b, 0, n);
    if LengthBytes(m) <= b {
      MatchIs(b, 0, LengthBytes(m));
      LengthRoundTrip(b, 0, m);
    }
  }

  /** The first byte tells the size class; it is never the NULL mark 0xfb and never the error mark 0xff. */
  lemma LengthLead(n: uint64)
    ensures var lead := LengthBytes(n)[0];
            && lead != 0xfb && lead != 0xff
            && (lead <= 0xfa <==> n <= 0xfa)
            && (lead == 0xfe <==> n >= 0x100_0000)
  {
  }

  /** The bytes on the wire: a number below 251 stands for itself, others follow 0xfc, 0xfd or 0xfe, least significant
      byte first. */
  lemma LengthWire(n: uint64)
    ensures LengthBytes(n) ==
            if n < 251 then [n]
            else if n < 0x1_0000 then [0xfc, n % 256, n / 256]
            else if n < 0x100_0000 then [0xfd, n % 256, n / 256 % 256, n / 0x1_0000]
            else [0xfe] + Le(n, 8)
  {
    Le2(n);
    Le3(n);
  }

  method PackLength(buffer: array<byte>, pos: nat, length: uint64) returns (next: nat)
    requires pos + |LengthBytes(length)| <= buffer.Length
    modifies buffer
    ensures next == pos + |LengthBytes(length)|
    ensures buffer[..] == Splice(old(buffer[..]), pos, LengthBytes(length))
  {
    ghost var was := buffer[..];
    if length <= 0xfa {
      Write(buffer, pos, [length]);
      next := pos + 1;
    } else if length <= 0xffff {
      Write(buffer, pos, [0xfc]);
      PackInt2(buffer, pos + 1, length);
      SpliceSplice(was, pos, [0xfc], Le(length, 2));
      next := pos + 3;
    } else if length <= 0xff_ffff {
      Write(buffer, pos, [0xfd]);
      PackInt3(buffer, pos + 1, length);
      SpliceSplice(was, pos, [0xfd], Le(length, 3));
      next := pos + 4;
    } else {
      Write(buffer, pos, [0xfe]);
      PackInt8(buffer, pos + 1, length);
      SpliceSplice(was, pos, [0xfe], Le(length, 8));
      next := pos + 9;
    }
  }

  // ---------------------------------------------------------------- length-encoded strings

  type Data = s: seq<byte> | |s| < 0x1_0000_0000_0000_0000

  function DataBytes(s: Data): (r: seq<byte>) {
    LengthBytes(|s|) + s
  }

  method PackData(buffer: array<byte>, pos: nat, data: Data) returns (next: nat)
    requires pos + |DataBytes(data)| <= buffer.Length
    modifies buffer
    ensures next == pos + |DataBytes(data)|
    ensures buffer[..] == Splice(old(buffer[..]), pos, DataBytes(data))
  {
    ghost var was := buffer[..];
    next := PackLength(buffer, pos, |data|);
    SpliceSplice(was, pos, LengthBytes(|data|), data);
    if |data| > 0 {
      Write(buffer, next, data);
      next := next + |data|;
    } else {
      assert LengthBytes(0) + data == LengthBytes(0);
    }
  }

  lemma DataAt(b: seq<byte>, p: nat, s: Data)
    requires At(b, p, DataBytes(s))
    ensures HasLength(b, p)
    ensures var u := UnpackLength(b, p); !u.isNull && u.value == |s| && At(b, p + u.bytes, s)
    ensures UnpackLength(b, p).bytes + |s| == |DataBytes(s)|
  {
    AtSplit(b, p, LengthBytes(|s|), s);
    LengthRoundTrip(b, p, |s|);
  }

  function Stream(items: seq<Data>): seq<byte> {
    if items == [] then [] else DataBytes(items[0]) + Stream(items[1..])
  }

  /** A stream of packed strings has one reading only. */
  lemma {:induction false} StreamUnique(a: seq<Data>, b: seq<Data>)
    requires Stream(a) == Stream(b)
    ensures a == b
  {
    if a != [] && b != [] {
      var s := Stream(a);
      AtSplit(s, 0, DataBytes(a[0]), Stream(a[1..]));
      AtSplit(s, 0, DataBytes(b[0]), Stream(b[1..]));
      AtAll(s);
      DataAt(s, 0, a[0]);
      DataAt(s, 0, b[0]);
      var u, n := UnpackLength(s, 0).bytes, |DataBytes(a[0])|;
      MatchIs(s, u, a[0]);
      MatchIs(s, u, b[0]);
      MatchIs(s, n, Stream(a[1..]));
      MatchIs(s, n, Stream(b[1..]));
      StreamUnique(a[1..], b[1..]);
      assert a == [a[0]] + a[1..] && b == [b[0]] + b[1..];
    }
  }

  // ---------------------------------------------------------------- dates and times

  datatype DateTime = DateTime(
    year: uint16, month: byte, day: uint32, hour: byte, minute: byte, second: byte,
    microsecond: uint32, isNegative: bool)

  const ZERO_TIME := DateTime(0, 0, 0, 0, 0, 0, 0, false)

  // The number of bytes after the length byte.
  function DateTimeLength(dt: DateTime, dateOnly: bool): byte {
    if !dateOnly && dt.microsecond > 0 then 11
    else if !dateOnly && (dt.hour > 0 || dt.minute > 0 || dt.second > 0) then 7
    else if dt.year > 0 || dt.month > 0 || dt.day > 0 then 4
    else 0
  }

  // A narrowing assignment to a char.
  function Char(n: nat): byte { n % 0x100 }

  function DatePart(dt: DateTime): seq<byte> { Le(dt.year, 2) + [dt.month, Char(dt.day)] }

  function TimePart(dt: DateTime): (s: seq<byte>)
    ensures |s| == 3
  {
    [dt.hour, dt.minute, dt.second]
  }

  function DateTimeFields(dt: DateTime, n: byte): seq<byte> {
    if n == 11 then DatePart(dt) + (TimePart(dt) + Le(dt.microsecond, 4))
    else if n == 7 then DatePart(dt) + TimePart(dt)
    else if n == 4 then DatePart(dt)
    else []
  }

  function DateTimeBytes(dt: DateTime, dateOnly: bool): (s: seq<byte>)
    ensures |s| == 1 + DateTimeLength(dt, dateOnly) && s[0] == DateTimeLength(dt, dateOnly)
  {
    [DateTimeLength(dt, dateOnly)] + DateTimeFields(dt, DateTimeLength(dt, dateOnly))
  }

  // A number of 32 bits, least significant byte first.
  function Wire4(n: uint32): seq<byte> {
    [n % 256, n / 256 % 256, n / 0x1_0000 % 256, n / 0x100_0000]
  }

  lemma Wire4Is(n: uint32)
    ensures Le(n, 4) == Wire4(n)
  {
    Le4(n);
  }

  lemma DatePartWire(dt: DateTime)
    ensures DatePart(dt) == [dt.year % 256, dt.year / 256, dt.month, dt.day % 256]
  {
    hide Le;
    assert dt.year / 256 % 256 == dt.year / 256;
    Le2(dt.year);
  }

  /** The bytes on the wire: length, year, month, day, hour, minute, second, microsecond, as far as they are needed. */
  lemma DateTimeWire(dt: DateTime, dateOnly: bool)
    ensures var date := [dt.year % 256, dt.year / 256, dt.month, dt.day % 256];
            var clock := [dt.hour, dt.minute, dt.second];
            DateTimeBytes(dt, dateOnly) ==
            if !dateOnly && dt.microsecond > 0 then [11] + (date + (clock + Wire4(dt.microsecond)))
            else if !dateOnly && (dt.hour > 0 || dt.minute > 0 || dt.second > 0) then [7] + (date + clock)
            else if dt.year > 0 || dt.month > 0 || dt.day > 0 then [4] + date
            else [0]
  {
    hide DatePart, Le, Wire4;
    DatePartWire(dt);
    Wire4Is(dt.microsecond);
    assert [0] + [] == [0];
  }

  method PackDatePart(buffer: array<byte>, pos: nat, dt: DateTime)
    requires pos + 4 <= buffer.Length
    modifies buffer
    ensures buffer[..] == Splice(old(buffer[..]), pos, DatePart(dt))
  {
    SpliceSplice(buffer[..], pos, Le(dt.year, 2), [dt.month, Char(dt.day)]);
    PackInt2(buffer, pos, dt.year);
    Write(buffer, pos + 2, [dt.month, Char(dt.day)]);
  }

  method PackDateTime(buffer: array<byte>, pos: nat, dt: DateTime, dateOnly: bool) returns (next: nat)
    requires pos + |DateTimeBytes(dt, dateOnly)| <= buffer.Length
    modifies buffer
    ensures next == pos + |DateTimeBytes(dt, dateOnly)|
    ensures buffer[..] == Splice(old(buffer[..]), pos, DateTimeBytes(dt, dateOnly))
  {
    hide Splice, DatePart, Le;
    ghost var was, done := buffer[..], [];
    SpliceNothing(was, pos + 1);
    var length: byte := 0;
    if !dateOnly {
      if dt.microsecond > 0 {
        PackInt4(buffer, pos + 8, dt.microsecond);
        length, done := 11, Le(dt.microsecond, 4);
      }
      if length > 0 || dt.hour > 0 || dt.minute > 0 || dt.second > 0 {
        SpliceNothing(was, pos + 8);
        Write(buffer, pos + 5, [dt.hour, dt.minute, dt.second]);
        SpliceBefore(was, pos + 5, TimePart(dt), done);
        done := TimePart(dt) + done;
        if length == 0 {
          length := 7;
        }
      }
    }
    if length > 0 || dt.year > 0 || dt.month > 0 || dt.day > 0 {
      SpliceNothing(was, pos + 5);
      PackDatePart(buffer, pos + 1, dt);
      SpliceBefore(was, pos + 1, DatePart(dt), done);
      done := DatePart(dt) + done;
      if length == 0 {
        length := 4;
      }
    }
    Write(buffer, pos, [length]);
    SpliceBefore(was, pos, [length], done);
    assert done == DateTimeFields(dt, length) && [length] + done == DateTimeBytes(dt, dateOnly);
    next := pos + length + 1;
  }

  // Fills the fields that a datetime of this length carries; b[p] is the first byte after the length byte.
  function UnpackDateTime(b: seq<byte>, p: nat, length: nat, dt: DateTime): DateTime
    requires length == 0 || (4 <= length && p + 4 <= |b|)
    requires length > 4 ==> p + 7 <= |b|
    requires length > 7 ==> p + 11 <= |b|
  {
    if length == 0 then dt
    else
      var d := dt.(isNegative := false, year := UnpackUint16(b, p), month := b[p + 2], day := b[p + 3]);
      if length <= 4 then d
      else
        var t := d.(hour := b[p + 4], minute := b[p + 5], second := b[p + 6]);
        if length <= 7 then t else t.(microsecond := UnpackUint32(b, p + 7))
  }

  // What is left of a datetime after packing: one byte of the day, no sign, no time when only the date is sent.
  function Carried(dt: DateTime, dateOnly: bool): DateTime {
    var d := dt.(day := Char(dt.day), isNegative := false);
    if dateOnly then d.(hour := 0, minute := 0, second := 0, microsecond := 0) else d
  }

  lemma DateTimeAt(b: seq<byte>, p: nat, dt: DateTime, dateOnly: bool)
    requires At(b, p, DateTimeBytes(dt, dateOnly))
    ensures b[p] == DateTimeLength(dt, dateOnly)
    ensures UnpackDateTime(b, p + 1, b[p], ZERO_TIME) == Carried(dt, dateOnly)
  {
    var n := DateTimeLength(dt, dateOnly);
    AtSplit(b, p, [n], DateTimeFields(dt, n));
    AtByIndex(b, p, [n]);
    if n == 4 {
      DatePartAt(b, p + 1, dt);
    } else if n == 7 {
      AtSplit(b, p + 1, DatePart(dt), TimePart(dt));
      DatePartAt(b, p + 1, dt);
      TimePartAt(b, p + 5, dt);
    } else if n == 11 {
      AtSplit(b, p + 1, DatePart(dt), TimePart(dt) + Le(dt.microsecond, 4));
      AtSplit(b, p + 5, TimePart(dt), Le(dt.microsecond, 4));
      DatePartAt(b, p + 1, dt);
      TimePartAt(b, p + 5, dt);
      UnpackIntAt(b, p + 8, dt.microsecond, 4);
    }
  }

  lemma DatePartAt(b: seq<byte>, p: nat, dt: DateTime)
    requires At(b, p, DatePart(dt))
    ensures p + 4 <= |b| && UnpackInt(b, p, 2) == dt.year && b[p + 2] == dt.month && b[p + 3] == Char(dt.day)
  {
    AtSplit(b, p, Le(dt.year, 2), [dt.month, Char(dt.day)]);
    UnpackIntAt(b, p, dt.year, 2);
    AtByIndex(b, p + 2, [dt.month, Char(dt.day)]);
    assert b[p + 3] == [dt.month, Char(dt.day)][1];
  }

  lemma TimePartAt(b: seq<byte>, p: nat, t: DateTime)
    requires At(b, p, TimePart(t))
    ensures b[p] == t.hour && b[p + 1] == t.minute && b[p + 2] == t.second
  {
    AtByIndex(b, p, TimePart(t));
    assert b[p + 1] == TimePart(t)[1] && b[p + 2] == TimePart(t)[2];
  }

  /** Packing a full datetime loses nothing exactly when it is not negative and its day fits one byte. */
  lemma DateTimeRoundTrip(dt: DateTime)
    ensures var s := DateTimeBytes(dt, false);
            UnpackDateTime(s, 1, s[0], ZERO_TIME) == dt <==> !dt.isNegative && dt.day < 0x100
  {
    var s := DateTimeBytes(dt, false);
    AtAll(s);
    DateTimeAt(s, 0, dt, false);
  }

  // The hour does not count: a time of whole hours is taken for zero.
  function TimeLength(t: DateTime): byte {
    if t.microsecond > 0 then 12
    else if t.day > 0 || t.minute > 0 || t.second > 0 then 8
    else 0
  }

  function SignedDay(t: DateTime): (s: seq<byte>)
    ensures |s| == 5
  {
    [if t.isNegative then 1 else 0] + Le(t.day, 4)
  }

  function TimeFields(t: DateTime, n: byte): seq<byte> {
    if n == 12 then SignedDay(t) + (TimePart(t) + Le(t.microsecond, 4))
    else if n == 8 then SignedDay(t) + TimePart(t)
    else []
  }

  function TimeBytes(t: DateTime): (s: seq<byte>)
    ensures |s| == 1 + TimeLength(t) && s[0] == TimeLength(t)
  {
    [TimeLength(t)] + TimeFields(t, TimeLength(t))
  }

  /** The bytes on the wire: length, sign, days, hour, minute, second, microsecond, as far as they are needed. */
  lemma TimeWire(t: DateTime)
    ensures var signed := [if t.isNegative then 1 else 0] + Wire4(t.day);
            var clock := [t.hour, t.minute, t.second];
            TimeBytes(t) ==
            if t.microsecond > 0 then [12] + (signed + (clock + Wire4(t.microsecond)))
            else if t.day > 0 || t.minute > 0 || t.second > 0 then [8] + (signed + clock)
            else [0]
  {
    hide Le, Wire4;
    Wire4Is(t.day);
    Wire4Is(t.microsecond);
    assert [0] + [] == [0];
  }

  method PackSignedTime(buffer: array<byte>, pos: nat, t: DateTime)
    requires pos + 8 <= buffer.Length
    modifies buffer
    ensures buffer[..] == Splice(old(buffer[..]), pos, SignedDay(t) + TimePart(t))
  {
    ghost var was := buffer[..];
    Write(buffer, pos, [if t.isNegative then 1 else 0]);
    PackInt4(buffer, pos + 1, t.day);
    SpliceSplice(was, pos, [if t.isNegative then 1 else 0], Le(t.day, 4));
    Write(buffer, pos + 5, [t.hour, t.minute, t.second]);
    SpliceSplice(was, pos, SignedDay(t), TimePart(t));
  }

  lemma TimeParts(t: DateTime)
    ensures TimeFields(t, 12) == SignedDay(t) + TimePart(t) + Le(t.microsecond, 4)
    ensures TimeFields(t, 8) == SignedDay(t) + TimePart(t) + [] && TimeFields(t, 0) == []
  {
    hide SignedDay, TimePart, Le;
    assert SignedDay(t) + TimePart(t) + [] == SignedDay(t) + TimePart(t);
  }

  method PackTime(buffer: array<byte>, pos: nat, t: DateTime) returns (next: nat)
    requires pos + |TimeBytes(t)| <= buffer.Length
    modifies buffer
    ensures next == pos + |TimeBytes(t)|
    ensures buffer[..] == Splice(old(buffer[..]), pos, TimeBytes(t))
  {
    hide Splice, SignedDay, TimePart, TimeFields, Le;
    ghost var was, done := buffer[..], [];
    SpliceNothing(was, pos + 1);
    var length: byte := 0;
    if t.microsecond > 0 {
      PackInt4(buffer, pos + 9, t.microsecond);
      length, done := 12, Le(t.microsecond, 4);
    }
    if length > 0 || t.day > 0 || t.minute > 0 || t.second > 0 {
      SpliceNothing(was, pos + 9);
      PackSignedTime(buffer, pos + 1, t);
      SpliceBefore(was, pos + 1, SignedDay(t) + TimePart(t), done);
      done := SignedDay(t) + TimePart(t) + done;
      if length == 0 {
        length := 8;
      }
    }
    Write(buffer, pos, [length]);
    TimeParts(t);
    assert [length] + done == TimeBytes(t);
    SpliceBefore(was, pos, [length], done);
    next := pos + length + 1;
  }

  function UnpackTime(b: seq<byte>, p: nat, length: nat, t: DateTime): DateTime
    requires length == 0 || p + 8 <= |b|
    requires length > 8 ==> p + 12 <= |b|
  {
    if length == 0 then t
    else
      var d := t.(isNegative := b[p] != 0, day := UnpackUint32(b, p + 1),
                  hour := b[p + 5], minute := b[p + 6], second := b[p + 7]);
      if length <= 8 then d else d.(microsecond := UnpackUint32(b, p + 8))
  }

  function CarriedTime(t: DateTime): DateTime {
    if TimeLength(t) == 0 then ZERO_TIME else t.(year := 0, month := 0)
  }

  lemma TimeAt(b: seq<byte>, p: nat, t: DateTime)
    requires At(b, p, TimeBytes(t))
    ensures b[p] == TimeLength(t)
    ensures UnpackTime(b, p + 1, b[p], ZERO_TIME) == CarriedTime(t)
  {
    var n := TimeLength(t);
    AtSplit(b, p, [n], TimeFields(t, n));
    AtByIndex(b, p, [n]);
    if n == 8 {
      AtSplit(b, p + 1, SignedDay(t), TimePart(t));
      SignedDayAt(b, p + 1, t);
      TimePartAt(b, p + 6, t);
    } else if n == 12 {
      AtSplit(b, p + 1, SignedDay(t), TimePart(t) + Le(t.microsecond, 4));
      AtSplit(b, p + 6, TimePart(t), Le(t.microsecond, 4));
      SignedDayAt(b, p + 1, t);
      TimePartAt(b, p + 6, t);
      UnpackIntAt(b, p + 9, t.microsecond, 4);
    }
  }

  lemma SignedDayAt(b: seq<byte>, p: nat, t: DateTime)
    requires At(b, p, SignedDay(t))
    ensures p + 5 <= |b| && (b[p] != 0 <==> t.isNegative) && UnpackInt(b, p + 1, 4) == t.day
  {
    AtSplit(b, p, [if t.isNegative then 1 else 0], Le(t.day, 4));
    AtByIndex(b, p, [if t.isNegative then 1 else 0]);
    UnpackIntAt(b, p + 1, t.day, 4);
  }

  /** Packing a time loses nothing exactly when it has no date part and an hour or a sign never stands alone. */
  lemma TimeRoundTrip(t: DateTime)
    ensures var s := TimeBytes(t);
            UnpackTime(s, 1, s[0], ZERO_TIME) == t <==>
            && t.year == 0 && t.month == 0
            && (t.hour > 0 || t.isNegative ==> t.day > 0 || t.minute > 0 || t.second > 0 || t.microsecond > 0)
  {
    var s := TimeBytes(t);
    AtAll(s);
    TimeAt(s, 0, t);
  }

  /** Five o'clock is sent as midnight. */
  lemma WholeHourIsLost()
    ensures var t := ZERO_TIME.(hour := 5); var s := TimeBytes(t);
            s == [0] && UnpackTime(s, 1, s[0], ZERO_TIME) == ZERO_TIME != t
  {
    var t := ZERO_TIME.(hour := 5);
    assert TimeLength(t) == 0;
    TimeRoundTrip(t);
  }
}
