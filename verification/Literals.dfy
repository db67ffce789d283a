/** How a server reads the string literals of a statement: section 9.1.1 of the MySQL 5.7 Reference Manual. */
module Literals {
  import opened Bytes

  type quote = b: int | b == 34 || b == 39 witness 39

  const QUOTE: quote := 39
  const DOUBLE_QUOTE: quote := 34
  const BACKSLASH: byte := 92

  // NoBackslash is the SQL mode NO_BACKSLASH_ESCAPES.
  datatype Mode = Backslash | NoBackslash

  // A statement is a sequence of literals and of bytes outside all literals.
  datatype Token = Raw(b: byte) | Str(quote: quote, value: seq<byte>)

  // MaybeEnd: a quote was read, and the next byte tells whether it ends the literal.
  datatype State =
    | Plain
    | Lit(quote: quote, value: seq<byte>)
    | Esc(quote: quote, value: seq<byte>)
    | MaybeEnd(quote: quote, value: seq<byte>)

  datatype Lexed = Lexed(tokens: seq<Token>, state: State)

  predicate IsQuote(b: byte) {
    b == QUOTE || b == DOUBLE_QUOTE
  }

  // What a backslash and b stand for; \% and \_ stand for themselves, and an unknown escape for its second byte.
  function Unescaped(b: byte): seq<byte> {
    if b == '0' as byte then [0]
    else if b == 'b' as byte then [8]
    else if b == 'n' as byte then [10]
    else if b == 'r' as byte then [13]
    else if b == 't' as byte then [9]
    else if b == 'Z' as byte then [26]
    else if b == '%' as byte || b == '_' as byte then [BACKSLASH, b]
    else [b]
  }

  function PlainStep(tokens: seq<Token>, b: byte): Lexed {
    if IsQuote(b) then Lexed(tokens, Lit(b, [])) else Lexed(tokens + [Raw(b)], Plain)
  }

  function Step(mode: Mode, lx: Lexed, b: byte): Lexed {
    match lx.state
    case Plain => PlainStep(lx.tokens, b)
    case Lit(q, v) =>
      if b == q then lx.(state := MaybeEnd(q, v))
      else if b == BACKSLASH && mode.Backslash? then lx.(state := Esc(q, v))
      else lx.(state := Lit(q, v + [b]))
    case Esc(q, v) => lx.(state := Lit(q, v + Unescaped(b)))
    case MaybeEnd(q, v) =>
      if b == q then lx.(state := Lit(q, v + [q]))
      else PlainStep(lx.tokens + [Str(q, v)], b)
  }

  function Run(mode: Mode, lx: Lexed, s: seq<byte>): Lexed
    decreases s
  {
    if s == [] then lx else Run(mode, Step(mode, lx, s[0]), s[1..])
  }

  datatype Reading = Tokens(tokens: seq<Token>) | Unterminated

  // A literal whose last quote has been read is over.
  function Settled(lx: Lexed): Lexed {
    if lx.state.MaybeEnd? then Lexed(lx.tokens + [Str(lx.state.quote, lx.state.value)], Plain) else lx
  }

  function Finish(lx: Lexed): Reading {
    var done := Settled(lx);
    if done.state.Plain? then Tokens(done.tokens) else Unterminated
  }

  function Read(mode: Mode, s: seq<byte>): Reading {
    Finish(Run(mode, Lexed([], Plain), s))
  }

  lemma {:induction false} RunJoins(mode: Mode, lx: Lexed, s: seq<byte>, t: seq<byte>)
    ensures Run(mode, lx, s + t) == Run(mode, Run(mode, lx, s), t)
    decreases s
  {
    if s == [] {
      assert s + t == t;
    } else {
      assert (s + t)[0] == s[0] && (s + t)[1..] == s[1..] + t;
      RunJoins(mode, Step(mode, lx, s[0]), s[1..], t);
    }
  }

  // ---------------------------------------------------------------- the two escape functions

  const NEVER: byte := 0

  // The letter that stands for b after a backslash, or NEVER.  A byte with its high bit set has none.
  function Letter(b: byte): byte {
    if b >= 0x80 then NEVER
    else if b == 0 then '0' as byte
    else if b == 10 then 'n' as byte
    else if b == 13 then 'r' as byte
    else if b == 26 then 'Z' as byte
    else if b == BACKSLASH || b == QUOTE || b == DOUBLE_QUOTE then b
    else NEVER
  }

  function EscapedByte(mode: Mode, b: byte): (e: seq<byte>)
    ensures 1 <= |e| <= 2
  {
    match mode
    case Backslash => if Letter(b) != NEVER then [BACKSLASH, Letter(b)] else [b]
    case NoBackslash => if b == QUOTE then [QUOTE, b] else [b]
  }

  function Escaped(mode: Mode, data: seq<byte>): (e: seq<byte>)
    ensures |data| <= |e| <= 2 * |data|
  {
    if data == [] then [] else EscapedByte(mode, data[0]) + Escaped(mode, data[1..])
  }

  /** The bytes that are sent for a byte of data, in either mode, and the quotes around it. */
  lemma EscapeTable(b: byte)
    ensures EscapedByte(Backslash, b) ==
            if b == 0 then [92, 48]
            else if b == 10 then [92, 110]
            else if b == 13 then [92, 114]
            else if b == 26 then [92, 90]
            else if b == 34 || b == 39 || b == 92 then [92, b]
            else [b]
    ensures EscapedByte(NoBackslash, b) == if b == 39 then [39, 39] else [b]
    ensures forall mode: Mode :: Quoted(mode, []) == [39, 39]
  {
    assert forall mode: Mode :: Escaped(mode, []) == [];
  }

  lemma {:induction false} EscapedJoins(mode: Mode, s: seq<byte>, t: seq<byte>)
    ensures Escaped(mode, s + t) == Escaped(mode, s) + Escaped(mode, t)
  {
    hide EscapedByte;
    if s == [] {
      assert s + t == t;
    } else {
      assert (s + t)[0] == s[0] && (s + t)[1..] == s[1..] + t;
      EscapedJoins(mode, s[1..], t);
    }
  }

  lemma EscapedOne(mode: Mode, b: byte)
    ensures Escaped(mode, [b]) == EscapedByte(mode, b)
  {
    assert [b][1..] == [];
  }

  lemma EscapedGrows(mode: Mode, data: seq<byte>, n: nat)
    requires n < |data|
    ensures Escaped(mode, data[..n + 1]) == Escaped(mode, data[..n]) + EscapedByte(mode, data[n])
    ensures |Escaped(mode, data[..n + 1])| <= |Escaped(mode, data)|
  {
    hide Escaped, EscapedByte;
    assert data[..n + 1] == data[..n] + [data[n]] && data == data[..n + 1] + data[n + 1..];
    EscapedJoins(mode, data[..n], [data[n]]);
    EscapedJoins(mode, data[..n + 1], data[n + 1..]);
    EscapedOne(mode, data[n]);
  }

  method EscapeData(buffer: array<byte>, pos: nat, data: seq<byte>) returns (written: nat)
    requires pos + |Escaped(Backslash, data)| <= buffer.Length
    modifies buffer
    ensures written == |Escaped(Backslash, data)|
    ensures buffer[..] == Splice(old(buffer[..]), pos, Escaped(Backslash, data))
  {
    hide Escaped, Splice;
    ghost var was := buffer[..];
    var bufferPos := pos;
    NothingEscaped(Backslash, was, pos, data);
    for i := 0 to |data|
      invariant bufferPos == pos + |Escaped(Backslash, data[..i])| && bufferPos <= buffer.Length
      invariant buffer[..] == Splice(was, pos, Escaped(Backslash, data[..i]))
    {
      EscapedGrows(Backslash, data, i);
      SpliceSplice(was, pos, Escaped(Backslash, data[..i]), EscapedByte(Backslash, data[i]));
      var letter := Letter(data[i]);
      if letter != NEVER {
        Write(buffer, bufferPos, [BACKSLASH, letter]);
        bufferPos := bufferPos + 2;
      } else {
        Write(buffer, bufferPos, [data[i]]);
        bufferPos := bufferPos + 1;
      }
    }
    assert data[..|data|] == data;
    written := bufferPos - pos;
  }

  lemma NothingEscaped(mode: Mode, b: seq<byte>, pos: nat, data: seq<byte>)
    requires pos <= |b|
    ensures Escaped(mode, data[..0]) == [] && Splice(b, pos, []) == b
  {
  }

  method NoBackslashEscapeData(buffer: array<byte>, pos: nat, data: seq<byte>) returns (written: nat)
    requires pos + |Escaped(NoBackslash, data)| <= buffer.Length
    modifies buffer
    ensures written == |Escaped(NoBackslash, data)|
    ensures buffer[..] == Splice(old(buffer[..]), pos, Escaped(NoBackslash, data))
  {
    hide Escaped, Splice;
    ghost var was := buffer[..];
    var bufferPos := pos;
    NothingEscaped(NoBackslash, was, pos, data);
    for i := 0 to |data|
      invariant bufferPos == pos + |Escaped(NoBackslash, data[..i])| && bufferPos <= buffer.Length
      invariant buffer[..] == Splice(was, pos, Escaped(NoBackslash, data[..i]))
    {
      EscapedGrows(NoBackslash, data, i);
      SpliceSplice(was, pos, Escaped(NoBackslash, data[..i]), EscapedByte(NoBackslash, data[i]));
      if data[i] == QUOTE {
        SpliceSplice(was, pos, Escaped(NoBackslash, data[..i]), [QUOTE]);
        Write(buffer, bufferPos, [QUOTE]);
        SpliceSplice(was, pos, Escaped(NoBackslash, data[..i]) + [QUOTE], [data[i]]);
        assert Escaped(NoBackslash, data[..i]) + [QUOTE] + [data[i]] == Escaped(NoBackslash, data[..i + 1]);
        bufferPos := bufferPos + 1;
      }
      Write(buffer, bufferPos, [data[i]]);
      bufferPos := bufferPos + 1;
    }
    assert data[..|data|] == data;
    written := bufferPos - pos;
  }

  // ---------------------------------------------------------------- escaped data inside a literal

  // Escaped data is read back in this literal whatever the bytes are.
  predicate Safe(mode: Mode, q: quote) {
    mode.Backslash? || q == QUOTE
  }

  lemma RunOne(mode: Mode, lx: Lexed, b: byte)
    ensures Run(mode, lx, [b]) == Step(mode, lx, b)
  {
    assert [b][1..] == [];
  }

  lemma RunTwo(mode: Mode, lx: Lexed, a: byte, b: byte)
    ensures Run(mode, lx, [a, b]) == Step(mode, Step(mode, lx, a), b)
  {
    assert [a, b][1..] == [b];
    RunOne(mode, Step(mode, lx, a), b);
  }

  lemma ByteReadBack(mode: Mode, tokens: seq<Token>, q: quote, v: seq<byte>, b: byte)
    requires Safe(mode, q) || !IsQuote(b)
    ensures Run(mode, Lexed(tokens, Lit(q, v)), EscapedByte(mode, b)) == Lexed(tokens, Lit(q, v + [b]))
  {
    var lx := Lexed(tokens, Lit(q, v));
    RunOne(mode, lx, b);
    RunTwo(mode, lx, BACKSLASH, Letter(b));
    RunTwo(mode, lx, QUOTE, b);
  }

  lemma {:induction false} ReadBack(mode: Mode, tokens: seq<Token>, q: quote, v: seq<byte>, data: seq<byte>)
    requires Safe(mode, q) || forall i :: 0 <= i < |data| ==> !IsQuote(data[i])
    ensures Run(mode, Lexed(tokens, Lit(q, v)), Escaped(mode, data)) == Lexed(tokens, Lit(q, v + data))
    decreases data
  {
    hide Step, EscapedByte;
    if data == [] {
      assert v + data == v;
    } else {
      var lx := Lexed(tokens, Lit(q, v));
      RunJoins(mode, lx, EscapedByte(mode, data[0]), Escaped(mode, data[1..]));
      ByteReadBack(mode, tokens, q, v, data[0]);
      ReadBack(mode, tokens, q, v + [data[0]], data[1..]);
      assert v + [data[0]] + data[1..] == v + data;
    }
  }

  function Count(s: seq<byte>, b: byte): nat {
    if s == [] then 0 else (if s[0] == b then 1 else 0) + Count(s[1..], b)
  }

  lemma {:induction false} CountJoins(s: seq<byte>, t: seq<byte>, b: byte)
    ensures Count(s + t, b) == Count(s, b) + Count(t, b)
  {
    if s == [] {
      assert s + t == t;
    } else {
      assert (s + t)[1..] == s[1..] + t;
      CountJoins(s[1..], t, b);
    }
  }

  lemma {:induction false} CountsAll(s: seq<byte>, b: byte)
    ensures Count(s, b) == 0 <==> forall i :: 0 <= i < |s| ==> s[i] != b
  {
    if s != [] {
      CountsAll(s[1..], b);
      if Count(s, b) == 0 {
        forall i | 0 <= i < |s| ensures s[i] != b {
          assert i > 0 ==> s[i] == s[1..][i - 1];
        }
      } else if s[0] != b {
        var i :| 0 <= i < |s[1..]| && s[1..][i] == b;
        assert s[i + 1] == b;
      }
    }
  }

  lemma CountOne(v: seq<byte>, x: byte, b: byte)
    ensures Count(v + [x], b) == Count(v, b) + if x == b then 1 else 0
  {
    CountJoins(v, [x], b);
    assert [x][1..] == [];
  }

  lemma {:induction false} TokensStay(mode: Mode, lx: Lexed, s: seq<byte>)
    ensures |lx.tokens| <= |Run(mode, lx, s).tokens|
    decreases s
  {
    if s != [] {
      TokensStay(mode, Step(mode, lx, s[0]), s[1..]);
    }
  }

  // In a literal between double quotes and without backslash escapes, no single quote is ever dropped, and of the
  // double quotes every second one is.
  lemma {:induction false} QuotesKept(lx: Lexed, s: seq<byte>)
    requires (lx.state.Lit? || lx.state.MaybeEnd?) && lx.state.quote == DOUBLE_QUOTE
    ensures var end := Run(NoBackslash, lx, s);
            |end.tokens| == |lx.tokens| ==>
              && (end.state.Lit? || end.state.MaybeEnd?)
              && Count(end.state.value, QUOTE) == Count(lx.state.value, QUOTE) + Count(s, QUOTE)
              && 2 * Count(end.state.value, DOUBLE_QUOTE) + Half(end.state)
                 == 2 * Count(lx.state.value, DOUBLE_QUOTE) + Half(lx.state) + Count(s, DOUBLE_QUOTE)
    decreases s
  {
    if s != [] {
      var next := Step(NoBackslash, lx, s[0]);
      TokensStay(NoBackslash, next, s[1..]);
      CountOne(lx.state.value, s[0], QUOTE);
      CountOne(lx.state.value, s[0], DOUBLE_QUOTE);
      if |next.tokens| == |lx.tokens| {
        QuotesKept(next, s[1..]);
      }
    }
  }

  function Half(st: State): nat {
    if st.MaybeEnd? then 1 else 0
  }

  lemma {:induction false} EscapedQuotes(data: seq<byte>)
    ensures Count(Escaped(NoBackslash, data), QUOTE) == 2 * Count(data, QUOTE)
    ensures Count(Escaped(NoBackslash, data), DOUBLE_QUOTE) == Count(data, DOUBLE_QUOTE)
  {
    if data != [] {
      var first := EscapedByte(NoBackslash, data[0]);
      CountJoins(first, Escaped(NoBackslash, data[1..]), QUOTE);
      CountJoins(first, Escaped(NoBackslash, data[1..]), DOUBLE_QUOTE);
      EscapedQuotes(data[1..]);
      assert first[1..] == [] || (first[1..] == [data[0]] && first[1..][1..] == []);
    }
  }

  /** Inside a literal, escaped data is read back as the data, and the literal goes on, exactly in these cases. */
  lemma LikeExact(mode: Mode, tokens: seq<Token>, q: quote, v: seq<byte>, data: seq<byte>)
    ensures Run(mode, Lexed(tokens, Lit(q, v)), Escaped(mode, data)) == Lexed(tokens, Lit(q, v + data))
            <==> Safe(mode, q) || (QUOTE !in data && DOUBLE_QUOTE !in data)
  {
    if Safe(mode, q) || (QUOTE !in data && DOUBLE_QUOTE !in data) {
      ReadBack(mode, tokens, q, v, data);
    } else if Run(mode, Lexed(tokens, Lit(q, v)), Escaped(mode, data)) == Lexed(tokens, Lit(q, v + data)) {
      QuotesKept(Lexed(tokens, Lit(q, v)), Escaped(mode, data));
      EscapedQuotes(data);
      CountJoins(v, data, QUOTE);
      CountJoins(v, data, DOUBLE_QUOTE);
      CountsAll(data, QUOTE);
      CountsAll(data, DOUBLE_QUOTE);
      assert false;
    }
  }

  // Escaped data behind a backslash: the first byte that is not a backslash itself must be there, be sent as it is, and
  // have no meaning behind a backslash.
  predicate Survives(data: seq<byte>) {
    data != [] &&
    if data[0] == BACKSLASH then Survives(data[1..])
    else Letter(data[0]) == NEVER && Unescaped(data[0]) == [data[0]]
  }

  // Behind a backslash, a byte that is sent as it is takes the backslash's meaning.
  lemma PlainBehind(tokens: seq<Token>, q: quote, v: seq<byte>, data: seq<byte>)
    requires data != [] && Letter(data[0]) == NEVER
    ensures Run(Backslash, Lexed(tokens, Esc(q, v)), Escaped(Backslash, data))
            == Lexed(tokens, Lit(q, v + Unescaped(data[0]) + data[1..]))
  {
    hide Escaped, Letter, Unescaped;
    EscapedFirst(Backslash, data);
    RunJoins(Backslash, Lexed(tokens, Esc(q, v)), [data[0]], Escaped(Backslash, data[1..]));
    RunOne(Backslash, Lexed(tokens, Esc(q, v)), data[0]);
    ReadBack(Backslash, tokens, q, v + Unescaped(data[0]), data[1..]);
  }

  lemma EscapedFirst(mode: Mode, data: seq<byte>)
    requires data != []
    ensures Escaped(mode, data) == EscapedByte(mode, data[0]) + Escaped(mode, data[1..])
  {
  }

  // Behind a backslash, the backslash that was put before a byte is taken for the data, and the byte stands alone.
  lemma LetterBehind(tokens: seq<Token>, q: quote, v: seq<byte>, data: seq<byte>)
    requires data != [] && Letter(data[0]) != NEVER
    ensures var lx := Step(Backslash, Lexed(tokens, Lit(q, v + [BACKSLASH])), Letter(data[0]));
            Run(Backslash, Lexed(tokens, Esc(q, v)), Escaped(Backslash, data))
            == Run(Backslash, lx, Escaped(Backslash, data[1..]))
  {
    hide Escaped, Letter;
    var e := [BACKSLASH, Letter(data[0])];
    EscapedFirst(Backslash, data);
    RunJoins(Backslash, Lexed(tokens, Esc(q, v)), e, Escaped(Backslash, data[1..]));
    RunTwo(Backslash, Lexed(tokens, Esc(q, v)), BACKSLASH, Letter(data[0]));
  }

  // A literal whose quote came out bare is over with the next byte.
  lemma EndsBehind(tokens: seq<Token>, q: quote, v: seq<byte>, data: seq<byte>)
    ensures var end := Run(Backslash, Lexed(tokens, MaybeEnd(q, v)), Escaped(Backslash, data));
            end.state.MaybeEnd? || |end.tokens| > |tokens|
  {
    if data != [] {
      EscapedFirst(Backslash, data);
      var e := Escaped(Backslash, data);
      TokensStay(Backslash, Step(Backslash, Lexed(tokens, MaybeEnd(q, v)), e[0]), e[1..]);
    }
  }

  /** In a literal and behind a backslash of the template, escaped data is read back as the data exactly if the data
      survives: its first byte that is not a backslash is neither escaped nor has a meaning behind one. */
  lemma {:induction false} BehindBackslashExact(tokens: seq<Token>, q: quote, v: seq<byte>, data: seq<byte>)
    ensures Run(Backslash, Lexed(tokens, Esc(q, v)), Escaped(Backslash, data)) == Lexed(tokens, Lit(q, v + data))
            <==> Survives(data)
    decreases data
  {
    hide Escaped, Run;
    if data == [] {
      NothingBehind(tokens, q, v);
    } else if Letter(data[0]) == NEVER {
      PlainBehind(tokens, q, v, data);
      var was, now := v + data, v + Unescaped(data[0]) + data[1..];
      assert was == v + [data[0]] + data[1..];
      if |Unescaped(data[0])| == 1 {
        assert was[|v|] == data[0] && now[|v|] == Unescaped(data[0])[0];
      } else {
        assert |now| != |was|;
      }
    } else {
      LetterBehind(tokens, q, v, data);
      if data[0] == BACKSLASH {
        BehindBackslashExact(tokens, q, v + [BACKSLASH], data[1..]);
        assert v + [BACKSLASH] + data[1..] == v + data;
      } else if Letter(data[0]) == q {
        EndsBehind(tokens, q, v + [BACKSLASH], data[1..]);
      } else {
        ReadBack(Backslash, tokens, q, v + [BACKSLASH] + [Letter(data[0])], data[1..]);
        assert |v + [BACKSLASH] + [Letter(data[0])] + data[1..]| != |v + data|;
      }
    }
  }

  lemma NothingBehind(tokens: seq<Token>, q: quote, v: seq<byte>)
    ensures Run(Backslash, Lexed(tokens, Esc(q, v)), Escaped(Backslash, [])) == Lexed(tokens, Esc(q, v))
  {
  }

  // ---------------------------------------------------------------- quoted data outside a literal

  function Quoted(mode: Mode, data: seq<byte>): seq<byte> {
    [QUOTE] + Escaped(mode, data) + [QUOTE]
  }

  // Outside all literals, where a single quote begins a new one.
  predicate Outside(st: State) {
    st.Plain? || (st.MaybeEnd? && st.quote != QUOTE)
  }

  /** Outside a literal, quoted data becomes one literal with that value, exactly when no single quote stands before. */
  lemma CharExact(mode: Mode, lx: Lexed, data: seq<byte>)
    requires lx.state.Plain? || lx.state.MaybeEnd?
    ensures Run(mode, lx, Quoted(mode, data)) == Lexed(Settled(lx).tokens, MaybeEnd(QUOTE, data)) <==> Outside(lx.state)
  {
    hide Escaped;
    var e := Escaped(mode, data);
    RunJoins(mode, lx, [QUOTE] + e, [QUOTE]);
    RunJoins(mode, lx, [QUOTE], e);
    RunOne(mode, lx, QUOTE);
    var open := Step(mode, lx, QUOTE);
    ReadBack(mode, open.tokens, QUOTE, open.state.value, data);
    RunOne(mode, Run(mode, open, e), QUOTE);
    assert [] + data == data;
  }

  /** The byte after the closing quote is read as if the literal were over, exactly when it is no single quote. */
  lemma AfterExact(mode: Mode, tokens: seq<Token>, data: seq<byte>, next: byte)
    ensures Step(mode, Lexed(tokens, MaybeEnd(QUOTE, data)), next)
            == Step(mode, Lexed(tokens + [Str(QUOTE, data)], Plain), next)
            <==> next != QUOTE
  {
    if next == QUOTE {
      assert |tokens| < |tokens + [Str(QUOTE, data)]|;
    }
  }

  lemma {:induction false} RunSettled(mode: Mode, tokens: seq<Token>, data: seq<byte>, s: seq<byte>)
    requires s != [] ==> s[0] != QUOTE
    ensures Finish(Run(mode, Lexed(tokens, MaybeEnd(QUOTE, data)), s))
            == Finish(Run(mode, Lexed(tokens + [Str(QUOTE, data)], Plain), s))
  {
    if s != [] {
      AfterExact(mode, tokens, data, s[0]);
    }
  }

  /** Reading is the inverse of quoting, in either mode and for all bytes. */
  lemma QuotedReadsBack(mode: Mode, data: seq<byte>)
    ensures Read(mode, Quoted(mode, data)) == Tokens([Str(QUOTE, data)])
  {
    CharExact(mode, Lexed([], Plain), data);
  }

  // ---------------------------------------------------------------- escaping for the wrong mode

  // How many bytes of data get a backslash.
  function Letters(data: seq<byte>): nat {
    if data == [] then 0 else (if Letter(data[0]) != NEVER then 1 else 0) + Letters(data[1..])
  }

  lemma {:induction false} NoLetters(data: seq<byte>)
    ensures Letters(data) == 0 <==> forall i :: 0 <= i < |data| ==> Letter(data[i]) == NEVER
  {
    hide Letter;
    if data != [] {
      NoLetters(data[1..]);
      assert forall i :: 0 < i < |data| ==> data[i] == data[1..][i - 1];
      assert forall i :: 0 <= i < |data| - 1 ==> data[1..][i] == data[i + 1];
    }
  }

  lemma {:induction false} NothingToEscape(mode: Mode, data: seq<byte>)
    requires Letters(data) == 0
    ensures Escaped(mode, data) == data
  {
    if data != [] {
      NothingToEscape(mode, data[1..]);
      assert data == [data[0]] + data[1..];
    }
  }

  lemma {:induction false} EscapedBackslashes(data: seq<byte>)
    ensures Count(Escaped(Backslash, data), BACKSLASH) == Count(data, BACKSLASH) + Letters(data)
  {
    if data != [] {
      var first := EscapedByte(Backslash, data[0]);
      CountJoins(first, Escaped(Backslash, data[1..]), BACKSLASH);
      EscapedBackslashes(data[1..]);
      assert first[1..] == [] || (first[1..] == [Letter(data[0])] && first[1..][1..] == []);
    }
  }

  // Without backslash escapes a literal keeps all its backslashes.
  lemma {:induction false} BackslashesKept(lx: Lexed, s: seq<byte>)
    requires lx.state.Lit? || lx.state.MaybeEnd?
    ensures var end := Run(NoBackslash, lx, s);
            |end.tokens| == |lx.tokens| ==>
              && (end.state.Lit? || end.state.MaybeEnd?)
              && Count(end.state.value, BACKSLASH) == Count(lx.state.value, BACKSLASH) + Count(s, BACKSLASH)
    decreases s
  {
    if s != [] {
      var next := Step(NoBackslash, lx, s[0]);
      TokensStay(NoBackslash, next, s[1..]);
      CountOne(lx.state.value, s[0], BACKSLASH);
      if |next.tokens| == |lx.tokens| {
        BackslashesKept(next, s[1..]);
      }
    }
  }

  // A literal that is read to its end is at least one token, and what follows it is another one.
  lemma AtLeastOne(lx: Lexed, s: seq<byte>)
    requires lx.state.Lit? || lx.state.MaybeEnd?
    ensures var r := Finish(Run(NoBackslash, lx, s)); r.Tokens? ==> |r.tokens| > |lx.tokens|
  {
    BackslashesKept(lx, s);
    TokensStay(NoBackslash, lx, s);
  }

  lemma {:induction false} OneOrMore(lx: Lexed, s: seq<byte>)
    requires lx.state.Lit? || lx.state.MaybeEnd?
    ensures var end := Run(NoBackslash, lx, s);
            |end.tokens| == |lx.tokens| || !Finish(end).Tokens? || |Finish(end).tokens| > |lx.tokens| + 1
    decreases s
  {
    if s != [] {
      var next := Step(NoBackslash, lx, s[0]);
      if |next.tokens| == |lx.tokens| {
        OneOrMore(next, s[1..]);
      } else if next.state.Lit? {
        AtLeastOne(next, s[1..]);
      } else {
        TokensStay(NoBackslash, next, s[1..]);
      }
    }
  }

  /** A server without backslash escapes reads backslash-escaped data right exactly if nothing had to be escaped. */
  lemma WrongMode(data: seq<byte>)
    ensures Read(NoBackslash, Quoted(Backslash, data)) == Tokens([Str(QUOTE, data)])
            <==> forall i :: 0 <= i < |data| ==> Letter(data[i]) == NEVER
  {
    hide Escaped, Letter;
    NoLetters(data);
    if Letters(data) == 0 {
      NothingToEscape(Backslash, data);
      NothingToEscape(NoBackslash, data);
      QuotedReadsBack(NoBackslash, data);
    } else if Read(NoBackslash, Quoted(Backslash, data)) == Tokens([Str(QUOTE, data)]) {
      WrongModeCounts(data);
    }
  }

  lemma WrongModeCounts(data: seq<byte>)
    requires Read(NoBackslash, Quoted(Backslash, data)) == Tokens([Str(QUOTE, data)])
    ensures Letters(data) == 0
  {
    hide Escaped, Run;
    var start, rest := Lexed([], Plain), Escaped(Backslash, data) + [QUOTE];
    assert Quoted(Backslash, data) == [QUOTE] + rest;
    RunJoins(NoBackslash, start, [QUOTE], rest);
    RunOne(NoBackslash, start, QUOTE);
    var lx := Lexed([], Lit(QUOTE, []));
    OneOrMore(lx, rest);
    BackslashesKept(lx, rest);
    CountJoins(Escaped(Backslash, data), [QUOTE], BACKSLASH);
    EscapedBackslashes(data);
    CountOne([], QUOTE, BACKSLASH);
    assert [] + [QUOTE] == [QUOTE];
    var end := Run(NoBackslash, lx, rest);
    assert Finish(end) == Tokens([Str(QUOTE, data)]);
    assert end.tokens == [] && end.state.MaybeEnd?;
    assert Finish(end).tokens[0] == Str(end.state.quote, end.state.value);
  }
}
