/** The statement that attachsql_query in src/query.cc builds from a template and its parameters. */
module Query {
  import opened Bytes
  import opened Literals

  // One alternative for every escape type; the text of a Float or a Double is what snprintf makes of it.
  datatype Param =
    | Verbatim(data: seq<byte>)
    | Char(data: seq<byte>)
    | Like(data: seq<byte>)
    | Int(word: uint32, isUnsigned: bool)
    | BigInt(long: uint64, isUnsigned: bool)
    | Float(text: seq<byte>)
    | Double(text: seq<byte>)

  const MARK: byte := 63
  const MINUS: byte := 45
  const FLOAT_MAX_LEN := 3 + 24 + 125
  const DOUBLE_MAX_LEN := 3 + 53 + 1021

  function Decimal(n: nat): (s: seq<byte>)
    ensures |s| > 0 && '0' as byte <= s[0] <= '9' as byte
  {
    if n < 10 then ['0' as byte + n] else Decimal(n / 10) + ['0' as byte + n % 10]
  }

  function SignedDecimal(n: int): seq<byte> {
    if n < 0 then [MINUS] + Decimal(-n) else Decimal(n)
  }

  // The int and the int64_t with these bits.
  function Int32(word: uint32): int {
    if word < 0x8000_0000 then word else word - 0x1_0000_0000
  }

  function Int64(long: uint64): int {
    if long < 0x8000_0000_0000_0000 then long else long - 0x1_0000_0000_0000_0000
  }

  // The two formats of a BigInt are the wrong way round: an unsigned one is printed as signed.
  function Text(mode: Mode, p: Param): seq<byte> {
    match p
    case Verbatim(data) => data
    case Char(data) => Quoted(mode, data)
    case Like(data) => Escaped(mode, data)
    case Int(word, isUnsigned) => if isUnsigned then Decimal(word) else SignedDecimal(Int32(word))
    case BigInt(long, isUnsigned) => if isUnsigned then SignedDecimal(Int64(long)) else Decimal(long)
    case Float(text) => text
    case Double(text) => text
  }

  // snprintf is given these lengths, the terminating NUL included.
  predicate Printable(p: Param) {
    match p
    case Float(text) => |text| < FLOAT_MAX_LEN
    case Double(text) => |text| < DOUBLE_MAX_LEN
    case _ => true
  }

  predicate AllPrintable(params: seq<Param>) {
    forall i :: 0 <= i < |params| ==> Printable(params[i])
  }

  function Marks(s: seq<byte>): nat {
    if s == [] then 0 else (if s[0] == MARK then 1 else 0) + Marks(s[1..])
  }

  // The template with the texts of the parameters put in place of the question marks, in order.
  function Rendered(mode: Mode, s: seq<byte>, params: seq<Param>): seq<byte>
    requires Marks(s) <= |params|
    decreases s
  {
    if s == [] then []
    else if s[0] != MARK then [s[0]] + Rendered(mode, s[1..], params)
    else Text(mode, params[0]) + Rendered(mode, s[1..], params[1..])
  }

  // ---------------------------------------------------------------- pieces

  // The stretches between the question marks.
  function Split(s: seq<byte>): (pieces: seq<seq<byte>>)
    ensures |pieces| == Marks(s) + 1
  {
    if s == [] then [[]]
    else
      var rest := Split(s[1..]);
      if s[0] == MARK then [[]] + rest else [[s[0]] + rest[0]] + rest[1..]
  }

  function Interleaved(pieces: seq<seq<byte>>, texts: seq<seq<byte>>): seq<byte>
    requires 0 < |pieces| <= |texts| + 1
  {
    if |pieces| == 1 then pieces[0] else pieces[0] + texts[0] + Interleaved(pieces[1..], texts[1..])
  }

  function Texts(mode: Mode, params: seq<Param>): (texts: seq<seq<byte>>)
    ensures |texts| == |params|
  {
    if params == [] then [] else [Text(mode, params[0])] + Texts(mode, params[1..])
  }

  /** The pieces are the template cut at its question marks. */
  lemma {:induction false} SplitAtMarks(s: seq<byte>)
    ensures Interleaved(Split(s), seq(Marks(s), _ => [MARK])) == s
    ensures forall i :: 0 <= i <= Marks(s) ==> MARK !in Split(s)[i]
  {
    if s != [] {
      SplitAtMarks(s[1..]);
      var rest, marks := Split(s[1..]), seq(Marks(s[1..]), _ => [MARK]);
      if s[0] == MARK {
        assert Split(s)[1..] == rest && seq(Marks(s), _ => [MARK])[1..] == marks;
        assert [] + [MARK] + s[1..] == s;
      } else {
        PieceGrows([s[0]], rest, marks);
        assert [s[0]] + s[1..] == s;
      }
    }
  }

  lemma PieceGrows(front: seq<byte>, pieces: seq<seq<byte>>, texts: seq<seq<byte>>)
    requires 0 < |pieces| <= |texts| + 1
    ensures Interleaved([front + pieces[0]] + pieces[1..], texts) == front + Interleaved(pieces, texts)
  {
    var grown := [front + pieces[0]] + pieces[1..];
    assert grown[1..] == pieces[1..];
    if |pieces| > 1 {
      assert front + pieces[0] + texts[0] + Interleaved(pieces[1..], texts[1..])
          == front + (pieces[0] + texts[0] + Interleaved(pieces[1..], texts[1..]));
    }
  }

  lemma LastPiece(piece: seq<byte>, texts: seq<seq<byte>>)
    ensures Interleaved([piece], texts) == piece
  {
  }

  lemma FirstPiece(piece: seq<byte>, pieces: seq<seq<byte>>, text: seq<byte>, texts: seq<seq<byte>>)
    requires 0 < |pieces| <= |texts| + 1
    ensures Interleaved([piece] + pieces, [text] + texts) == piece + text + Interleaved(pieces, texts)
  {
    assert ([piece] + pieces)[1..] == pieces && ([text] + texts)[1..] == texts;
  }

  /** The result is the pieces of the template interleaved with the texts of the parameters, in order. */
  lemma {:induction false} RenderedInterleaves(mode: Mode, s: seq<byte>, params: seq<Param>)
    requires Marks(s) <= |params|
    ensures Rendered(mode, s, params) == Interleaved(Split(s), Texts(mode, params))
    decreases s
  {
    hide Text, Interleaved;
    if s == [] {
      LastPiece([], Texts(mode, params));
    } else {
      if s[0] == MARK {
        RenderedInterleaves(mode, s[1..], params[1..]);
        FirstPiece([], Split(s[1..]), Text(mode, params[0]), Texts(mode, params[1..]));
      } else {
        RenderedInterleaves(mode, s[1..], params);
        PieceGrows([s[0]], Split(s[1..]), Texts(mode, params));
      }
    }
  }

  /** A question mark, byte 63, stands for the text of a parameter, and every other byte for itself. */
  lemma MarkIsReplaced(mode: Mode, b: byte, p: Param)
    ensures Marks([b]) <= 1 && Rendered(mode, [b], [p]) == if b == 63 then Text(mode, p) else [b]
  {
    assert [b][1..] == [];
    assert Text(mode, p) + [] == Text(mode, p);
  }

  // The bytes of a parameter that go into the statement as they are.
  predicate AsItIs(p: Param) {
    p.Verbatim? || p.Float? || p.Double?
  }

  function OwnBytes(p: Param): seq<byte>
    requires AsItIs(p)
  {
    if p.Verbatim? then p.data else p.text
  }

  predicate AllAsTheyAre(params: seq<Param>) {
    forall i :: 0 <= i < |params| ==> AsItIs(params[i])
  }

  function AllOwnBytes(params: seq<Param>): (datas: seq<seq<byte>>)
    requires AllAsTheyAre(params)
    ensures |datas| == |params|
  {
    seq(|params|, i requires 0 <= i < |params| => OwnBytes(params[i]))
  }

  lemma {:induction false} TextsAreOwnBytes(mode: Mode, params: seq<Param>)
    requires AllAsTheyAre(params)
    ensures Texts(mode, params) == AllOwnBytes(params)
  {
    if params != [] {
      TextsAreOwnBytes(mode, params[1..]);
      assert Text(mode, params[0]) == OwnBytes(params[0]);
      assert AllOwnBytes(params) == [OwnBytes(params[0])] + AllOwnBytes(params[1..]);
    }
  }

  /** Parameters that are not escaped go into the statement byte for byte: what is sent is the pieces of the template
      with the parameters' own bytes between them, and without parameters the statement itself. */
  lemma SentAsItIs(mode: Mode, s: seq<byte>, params: seq<Param>)
    requires AllAsTheyAre(params) && (params != [] ==> Marks(s) <= |params|)
    ensures params == [] ==> Sent(mode, s, params) == s
    ensures params != [] ==> Sent(mode, s, params) == Interleaved(Split(s), AllOwnBytes(params))
  {
    if params != [] {
      RenderedInterleaves(mode, s, params);
      TextsAreOwnBytes(mode, params);
    }
  }

  // ---------------------------------------------------------------- the size

  function Allotted(p: Param): nat {
    match p
    case Verbatim(data) => |data|
    case Char(data) => 2 * |data| + 2
    case Like(data) => 2 * |data|
    case Int(_, _) => 10
    case BigInt(_, _) => 20
    case Float(_) => FLOAT_MAX_LEN
    case Double(_) => DOUBLE_MAX_LEN
  }

  function AllAllotted(params: seq<Param>): nat {
    if params == [] then 0 else Allotted(params[0]) + AllAllotted(params[1..])
  }

  function OutLen(s: seq<byte>, params: seq<Param>): nat {
    |s| + 1 + AllAllotted(params)
  }

  function Pow10(k: nat): nat {
    if k == 0 then 1 else 10 * Pow10(k - 1)
  }

  lemma {:induction false} DigitCount(n: nat, k: nat)
    requires k > 0
    ensures n < Pow10(k) <==> |Decimal(n)| <= k
  {
    if n >= 10 && k > 1 {
      DigitCount(n / 10, k - 1);
    } else {
      AtLeastTen(k);
    }
  }

  lemma {:induction false} AtLeastTen(k: nat)
    requires k > 0
    ensures Pow10(k) >= 10 && (k == 1 ==> Pow10(k) == 10)
  {
    if k > 1 {
      AtLeastTen(k - 1);
    }
  }

  lemma PowersOfTen()
    ensures Pow10(9) == 1_000_000_000 && Pow10(10) == 10_000_000_000 && Pow10(19) == 10_000_000_000_000_000_000
    ensures Pow10(20) == 100_000_000_000_000_000_000
  {
  }

  // The longest int: ten digits and a sign.
  predicate Longest(p: Param) {
    p.Int? && !p.isUnsigned && Int32(p.word) <= -1_000_000_000
  }

  /** The space for a parameter and its question mark holds the text of the parameter, and only such ints fill it. */
  lemma TextFits(mode: Mode, p: Param)
    requires Printable(p)
    ensures |Text(mode, p)| <= Allotted(p) + 1
    ensures |Text(mode, p)| == Allotted(p) + 1 <==> Longest(p)
  {
    PowersOfTen();
    match p
    case Int(word, isUnsigned) =>
      DigitCount(word, 10);
      DigitCount(if Int32(word) < 0 then -Int32(word) else Int32(word), 10);
      DigitCount(if Int32(word) < 0 then -Int32(word) else Int32(word), 9);
    case BigInt(long, isUnsigned) =>
      DigitCount(long, 20);
      DigitCount(if Int64(long) < 0 then -Int64(long) else Int64(long), 19);
    case _ =>
  }

  /** The size of the first pass suffices for the text and the NUL that sprintf puts behind its last number. */
  lemma {:induction false} SizeSuffices(mode: Mode, s: seq<byte>, params: seq<Param>)
    requires Marks(s) <= |params| && AllPrintable(params)
    ensures |Rendered(mode, s, params)| + 1 <= OutLen(s, params)
    decreases s
  {
    hide Text, Allotted, Printable;
    if s != [] {
      if s[0] == MARK {
        TextFits(mode, params[0]);
        SizeSuffices(mode, s[1..], params[1..]);
      } else {
        SizeSuffices(mode, s[1..], params);
      }
    }
  }

  // Every parameter that is used is one of the longest ints, and no space is allotted to the others.
  predicate Filling(s: seq<byte>, params: seq<Param>)
    requires Marks(s) <= |params|
  {
    && (forall i :: 0 <= i < Marks(s) ==> Longest(params[i]))
    && (forall i :: Marks(s) <= i < |params| ==> Allotted(params[i]) == 0)
  }

  lemma {:induction false} NothingAllotted(params: seq<Param>)
    ensures AllAllotted(params) == 0 <==> forall i :: 0 <= i < |params| ==> Allotted(params[i]) == 0
  {
    hide Allotted;
    if params != [] {
      NothingAllotted(params[1..]);
      assert forall i :: 0 < i < |params| ==> params[i] == params[1..][i - 1];
      if AllAllotted(params[1..]) != 0 {
        var i :| 0 <= i < |params[1..]| && Allotted(params[1..][i]) != 0;
        assert Allotted(params[i + 1]) != 0;
      }
    }
  }

  lemma FillingStep(s: seq<byte>, params: seq<Param>)
    requires s != [] && Marks(s) <= |params|
    ensures s[0] != MARK ==> (Filling(s, params) <==> Filling(s[1..], params))
    ensures s[0] == MARK ==> (Filling(s, params) <==> Longest(params[0]) && Filling(s[1..], params[1..]))
  {
    hide Longest, Allotted;
    if s[0] == MARK {
      assert forall i :: 0 <= i < |params| - 1 ==> params[1..][i] == params[i + 1];
      if Longest(params[0]) && Filling(s[1..], params[1..]) {
        forall i | 0 <= i < |params| ensures if i < Marks(s) then Longest(params[i]) else Allotted(params[i]) == 0 {
          assert i > 0 ==> params[i] == params[1..][i - 1];
        }
      }
    }
  }

  /** The size is tight: exactly these parameter lists leave no byte of the buffer unused. */
  lemma {:induction false} SizeTight(mode: Mode, s: seq<byte>, params: seq<Param>)
    requires Marks(s) <= |params| && AllPrintable(params)
    ensures |Rendered(mode, s, params)| + 1 == OutLen(s, params) <==> Filling(s, params)
    decreases s
  {
    hide Text, Allotted, Longest, Filling, Printable;
    if s == [] {
      NothingAllotted(params);
      FillingNothing(params);
    } else {
      FillingStep(s, params);
      if s[0] == MARK {
        TextFits(mode, params[0]);
        SizeTight(mode, s[1..], params[1..]);
        SizeSuffices(mode, s[1..], params[1..]);
      } else {
        SizeTight(mode, s[1..], params);
      }
    }
  }

  lemma FillingNothing(params: seq<Param>)
    ensures Filling([], params) <==> forall i :: 0 <= i < |params| ==> Allotted(params[i]) == 0
  {
  }

  // ---------------------------------------------------------------- numbers

  function Value(digits: seq<byte>): int {
    if digits == [] then 0 else 10 * Value(digits[..|digits| - 1]) + (digits[|digits| - 1] - '0' as int)
  }

  function SignedValue(text: seq<byte>): int {
    if text != [] && text[0] == MINUS then -Value(text[1..]) else Value(text)
  }

  lemma {:induction false} DecimalValue(n: nat)
    ensures Value(Decimal(n)) == n
  {
    if n >= 10 {
      DecimalValue(n / 10);
      assert Decimal(n)[..|Decimal(n)| - 1] == Decimal(n / 10);
    } else {
      assert Decimal(n)[..0] == [];
    }
  }

  lemma SignedDecimalValue(n: int)
    ensures SignedValue(SignedDecimal(n)) == n
  {
    if n < 0 {
      assert SignedDecimal(n)[1..] == Decimal(-n);
      DecimalValue(-n);
    } else {
      DecimalValue(n);
    }
  }

  // The number that a parameter stands for.
  function Number(p: Param): int
    requires p.Int? || p.BigInt?
  {
    match p
    case Int(word, isUnsigned) => if isUnsigned then word else Int32(word)
    case BigInt(long, isUnsigned) => if isUnsigned then long else Int64(long)
    case _ => 0
  }

  /** An int is always sent as its value; a bigint exactly when its sign bit is clear. */
  lemma NumberSent(mode: Mode, p: Param)
    requires p.Int? || p.BigInt?
    ensures SignedValue(Text(mode, p)) == Number(p) <==> (p.BigInt? ==> p.long < 0x8000_0000_0000_0000)
  {
    match p
    case Int(word, isUnsigned) =>
      SignedDecimalValue(word);
      SignedDecimalValue(Int32(word));
    case BigInt(long, isUnsigned) =>
      SignedDecimalValue(long);
      SignedDecimalValue(Int64(long));
  }

  // ---------------------------------------------------------------- the second pass

  lemma Appended(b: seq<byte>, pos: nat, s: seq<byte>)
    requires pos + |s| <= |b|
    ensures Splice(b, pos, s)[..pos + |s|] == b[..pos] + s
  {
    SpliceIs(b, pos, s);
  }

  // Puts quotes around the data for Char, none for Like.
  method WriteEscaped(buffer: array<byte>, pos: nat, mode: Mode, data: seq<byte>) returns (next: nat)
    requires pos + |Escaped(mode, data)| <= buffer.Length
    modifies buffer
    ensures next == pos + |Escaped(mode, data)|
    ensures buffer[..] == Splice(old(buffer[..]), pos, Escaped(mode, data))
  {
    var written;
    if mode.NoBackslash? {
      written := NoBackslashEscapeData(buffer, pos, data);
    } else {
      written := EscapeData(buffer, pos, data);
    }
    next := pos + written;
  }

  method WriteParam(buffer: array<byte>, pos: nat, mode: Mode, p: Param) returns (next: nat)
    requires pos + |Text(mode, p)| < buffer.Length
    modifies buffer
    ensures next == pos + |Text(mode, p)|
    ensures buffer[..next] == old(buffer[..pos]) + Text(mode, p)
  {
    hide Escaped, Splice, Decimal, SignedDecimal;
    ghost var was := buffer[..];
    Appended(was, pos, Text(mode, p));
    match p {
      case Verbatim(data) =>
        Write(buffer, pos, data);
        next := pos + |data|;
      case Char(data) =>
        ghost var e := Escaped(mode, data);
        Write(buffer, pos, [QUOTE]);
        next := WriteEscaped(buffer, pos + 1, mode, data);
        SpliceSplice(was, pos, [QUOTE], e);
        Write(buffer, next, [QUOTE]);
        SpliceSplice(was, pos, [QUOTE] + e, [QUOTE]);
        next := next + 1;
      case Like(data) =>
        next := WriteEscaped(buffer, pos, mode, data);
      case _ =>
        next := Print(buffer, pos, Text(mode, p));
    }
  }

  // sprintf: the text and a NUL behind it.
  method Print(buffer: array<byte>, pos: nat, text: seq<byte>) returns (next: nat)
    requires pos + |text| < buffer.Length
    modifies buffer
    ensures next == pos + |text|
    ensures buffer[..] == Splice(old(buffer[..]), pos, text)[next := 0]
  {
    Write(buffer, pos, text);
    next := pos + |text|;
    buffer[next] := 0;
  }

  function Sent(mode: Mode, s: seq<byte>, params: seq<Param>): seq<byte>
    requires params != [] ==> Marks(s) <= |params|
  {
    if params == [] then s else Rendered(mode, s, params)
  }

  lemma RenderedStep(mode: Mode, s: seq<byte>, params: seq<Param>, pos: nat, param: nat)
    requires pos < |s| && param <= |params| && Marks(s[pos..]) <= |params| - param
    ensures Marks(s[pos..]) == (if s[pos] == MARK then 1 else 0) + Marks(s[pos + 1..])
    ensures s[pos] == MARK ==> Rendered(mode, s[pos..], params[param..]) ==
                               Text(mode, params[param]) + Rendered(mode, s[pos + 1..], params[param + 1..])
    ensures s[pos] != MARK ==> Rendered(mode, s[pos..], params[param..]) ==
                               [s[pos]] + Rendered(mode, s[pos + 1..], params[param..])
  {
    hide Text;
    assert s[pos..][1..] == s[pos + 1..];
    assert param < |params| ==> params[param..][1..] == params[param + 1..];
  }

  lemma RenderedEnds(mode: Mode, params: seq<Param>)
    ensures Marks([]) == 0 && Rendered(mode, [], params) == []
  {
  }

  /** Without parameters the statement itself is sent; otherwise a new buffer with the parameters in place. */
  method MakeQuery(mode: Mode, statement: array<byte>, length: nat, params: seq<Param>)
    returns (query: array<byte>, queryLength: nat)
    requires length <= statement.Length && |params| < 0x1_0000 && AllPrintable(params)
    requires params != [] ==> Marks(statement[..length]) <= |params|
    ensures queryLength <= query.Length
    ensures query[..queryLength] == Sent(mode, statement[..length], params)
    ensures params != [] ==> query.Length == OutLen(statement[..length], params)
  {
    hide Text, Allotted, Printable, Rendered, Marks, AllAllotted;
    if |params| == 0 {
      return statement, length;
    }
    var outLen := Size(length, params);
    query := new byte[outLen];
    ghost var s := statement[..length];
    SizeSuffices(mode, s, params);
    var bufferPos: nat, param: nat := 0, 0;
    assert s[0..] == s && params[0..] == params;
    for pos := 0 to length
      invariant param <= |params| && Marks(s[pos..]) <= |params| - param
      invariant bufferPos + |Rendered(mode, s[pos..], params[param..])| < query.Length
      invariant query[..bufferPos] + Rendered(mode, s[pos..], params[param..]) == Rendered(mode, s, params)
    {
      RenderedStep(mode, s, params, pos, param);
      if statement[pos] != MARK {
        ghost var done := query[..bufferPos];
        query[bufferPos] := statement[pos];
        bufferPos := bufferPos + 1;
        assert query[..bufferPos] == done + [s[pos]];
      } else {
        bufferPos := WriteParam(query, bufferPos, mode, params[param]);
        param := param + 1;
      }
    }
    assert s[length..] == [];
    RenderedEnds(mode, params[param..]);
    assert query[..bufferPos] + [] == query[..bufferPos];
    queryLength := bufferPos;
  }

  lemma AllottedTo(params: seq<Param>, i: nat)
    requires i < |params|
    ensures AllAllotted(params[i..]) == Allotted(params[i]) + AllAllotted(params[i + 1..])
  {
    assert params[i..][1..] == params[i + 1..];
  }

  // The first pass.
  method Size(length: nat, params: seq<Param>) returns (outLen: nat)
    ensures outLen == length + 1 + AllAllotted(params)
  {
    hide Allotted;
    outLen := length + 1;
    assert params[0..] == params;
    for param := 0 to |params|
      invariant outLen + AllAllotted(params[param..]) == length + 1 + AllAllotted(params)
    {
      AllottedTo(params, param);
      outLen := outLen + Allotted(params[param]);
    }
  }
}
