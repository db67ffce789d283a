/** What a server reads in a statement made from a template: the template's own tokens, with the data in place. */
module Templates {
  import opened Bytes
  import opened Literals
  import opened Query

  predicate StartsWithQuote(s: seq<byte>) {
    s != [] && s[0] == QUOTE
  }

  // The tokens that the author of the template means.  A Char is one whole literal, a Like a part of the literal
  // around it, and anything else is text like the template's own.
  function Meaning(mode: Mode, lx: Lexed, s: seq<byte>, params: seq<Param>): Lexed
    requires Marks(s) <= |params|
    decreases s
  {
    if s == [] then lx
    else if s[0] != MARK then Meaning(mode, Step(mode, lx, s[0]), s[1..], params)
    else Meaning(mode, Meant(mode, lx, params[0]), s[1..], params[1..])
  }

  function Meant(mode: Mode, lx: Lexed, p: Param): Lexed {
    match p
    case Char(data) => Lexed(Settled(lx).tokens + [Str(QUOTE, data)], Plain)
    case Like(data) => if lx.state.Lit? then lx.(state := Lit(lx.state.quote, lx.state.value + data)) else lx
    case Verbatim(data) => Run(mode, lx, data)
    case Float(text) => Run(mode, lx, text)
    case Double(text) => Run(mode, lx, text)
    case _ => Run(mode, lx, Text(mode, p))
  }

  // Every Char stands outside all literals with no single quote next to it, every Like inside a literal and not
  // behind a backslash.
  predicate WellPlaced(mode: Mode, lx: Lexed, s: seq<byte>, params: seq<Param>)
    requires Marks(s) <= |params|
    decreases s
  {
    if s == [] then true
    else if s[0] != MARK then WellPlaced(mode, Step(mode, lx, s[0]), s[1..], params)
    else
      && (params[0].Char? ==> Outside(lx.state) && !StartsWithQuote(Rendered(mode, s[1..], params[1..])))
      && (params[0].Like? ==> lx.state.Lit? && Safe(mode, lx.state.quote))
      && WellPlaced(mode, Meant(mode, lx, params[0]), s[1..], params[1..])
  }

  lemma CharRead(mode: Mode, lx: Lexed, data: seq<byte>, rest: seq<byte>)
    requires Outside(lx.state) && !StartsWithQuote(rest)
    ensures Finish(Run(mode, lx, Quoted(mode, data) + rest)) == Finish(Run(mode, Meant(mode, lx, Char(data)), rest))
  {
    hide Run, Finish, Quoted;
    RunJoins(mode, lx, Quoted(mode, data), rest);
    CharExact(mode, lx, data);
    RunSettled(mode, Settled(lx).tokens, data, rest);
  }

  lemma LikeRead(mode: Mode, lx: Lexed, data: seq<byte>, rest: seq<byte>)
    requires lx.state.Lit? && Safe(mode, lx.state.quote)
    ensures Run(mode, lx, Escaped(mode, data) + rest) == Run(mode, Meant(mode, lx, Like(data)), rest)
  {
    hide Run, Escaped;
    RunJoins(mode, lx, Escaped(mode, data), rest);
    LikeExact(mode, lx.tokens, lx.state.quote, lx.state.value, data);
  }

  /** The server reads exactly the meant tokens: no parameter can end its literal or reach beyond it. */
  lemma {:induction false} TemplateMeans(mode: Mode, lx: Lexed, s: seq<byte>, params: seq<Param>)
    requires Marks(s) <= |params| && WellPlaced(mode, lx, s, params)
    ensures Finish(Run(mode, lx, Rendered(mode, s, params))) == Finish(Meaning(mode, lx, s, params))
    decreases s
  {
    hide Step, Finish, Outside, Settled;
    if s != [] {
      if s[0] != MARK {
        RunJoins(mode, lx, [s[0]], Rendered(mode, s[1..], params));
        RunOne(mode, lx, s[0]);
        TemplateMeans(mode, Step(mode, lx, s[0]), s[1..], params);
      } else {
        HoleMeans(mode, lx, params[0], Rendered(mode, s[1..], params[1..]));
        TemplateMeans(mode, Meant(mode, lx, params[0]), s[1..], params[1..]);
      }
    }
  }

  lemma HoleMeans(mode: Mode, lx: Lexed, p: Param, rest: seq<byte>)
    requires p.Char? ==> Outside(lx.state) && !StartsWithQuote(rest)
    requires p.Like? ==> lx.state.Lit? && Safe(mode, lx.state.quote)
    ensures Finish(Run(mode, lx, Text(mode, p) + rest)) == Finish(Run(mode, Meant(mode, lx, p), rest))
  {
    hide Run, Finish, Outside, Safe, Quoted, Escaped;
    match p
    case Char(data) => CharRead(mode, lx, data, rest);
    case Like(data) => LikeRead(mode, lx, data, rest);
    case _ => RunJoins(mode, lx, Text(mode, p), rest);
  }

  // ---------------------------------------------------------------- the data cannot change the structure

  predicate SameToken(t: Token, u: Token) {
    if t.Raw? then t == u else u.Str? && t.quote == u.quote
  }

  predicate SameTokens(ts: seq<Token>, us: seq<Token>) {
    |ts| == |us| && forall i :: 0 <= i < |ts| ==> SameToken(ts[i], us[i])
  }

  predicate SameState(a: State, b: State) {
    match a
    case Plain => b.Plain?
    case Lit(q, _) => b.Lit? && b.quote == q
    case Esc(q, _) => b.Esc? && b.quote == q
    case MaybeEnd(q, _) => b.MaybeEnd? && b.quote == q
  }

  predicate Similar(a: Lexed, b: Lexed) {
    SameTokens(a.tokens, b.tokens) && SameState(a.state, b.state)
  }

  predicate SimilarReading(a: Reading, b: Reading) {
    if a.Unterminated? then b.Unterminated? else b.Tokens? && SameTokens(a.tokens, b.tokens)
  }

  // The lists differ at most in the data of their Chars and Likes.
  predicate SameKinds(params: seq<Param>, others: seq<Param>) {
    |params| == |others| && forall i :: 0 <= i < |params| ==> SameKind(params[i], others[i])
  }

  predicate SameKind(p: Param, o: Param) {
    (p.Char? && o.Char?) || (p.Like? && o.Like?) || p == o
  }

  lemma StepSimilar(mode: Mode, a: Lexed, b: Lexed, x: byte)
    requires Similar(a, b)
    ensures Similar(Step(mode, a, x), Step(mode, b, x))
  {
  }

  lemma {:induction false} RunSimilar(mode: Mode, a: Lexed, b: Lexed, s: seq<byte>)
    requires Similar(a, b)
    ensures Similar(Run(mode, a, s), Run(mode, b, s))
    decreases s
  {
    hide Similar, Step;
    if s != [] {
      StepSimilar(mode, a, b, s[0]);
      RunSimilar(mode, Step(mode, a, s[0]), Step(mode, b, s[0]), s[1..]);
    }
  }

  lemma MeantSimilar(mode: Mode, a: Lexed, b: Lexed, p: Param, o: Param)
    requires Similar(a, b) && SameKind(p, o)
    ensures Similar(Meant(mode, a, p), Meant(mode, b, o))
  {
    hide Run, Quoted, Escaped, Decimal, SignedDecimal;
    if !p.Char? && !p.Like? {
      RunSimilar(mode, a, b, Text(mode, p));
    }
  }

  // Next to a Char, the rest of the statement begins with a single quote for all data or for none.
  lemma {:induction false} SameStart(mode: Mode, lx: Lexed, s: seq<byte>, params: seq<Param>, others: seq<Param>)
    requires Marks(s) <= |params| && SameKinds(params, others)
    requires lx.state.Plain? && WellPlaced(mode, lx, s, params)
    ensures StartsWithQuote(Rendered(mode, s, params)) == StartsWithQuote(Rendered(mode, s, others))
    decreases s
  {
    hide Escaped;
    if s != [] && s[0] == MARK {
      var p, text := params[0], Text(mode, params[0]);
      if !p.Char? && text == [] {
        SameStart(mode, lx, s[1..], params[1..], others[1..]);
      }
    }
  }

  lemma {:induction false} ShapeKept(mode: Mode, a: Lexed, b: Lexed, s: seq<byte>, params: seq<Param>,
                                     others: seq<Param>)
    requires Marks(s) <= |params| && SameKinds(params, others)
    requires Similar(a, b) && WellPlaced(mode, a, s, params)
    ensures WellPlaced(mode, b, s, others)
    ensures Similar(Meaning(mode, a, s, params), Meaning(mode, b, s, others))
    decreases s
  {
    hide Step, Meant, SameTokens, Rendered;
    if s != [] {
      if s[0] != MARK {
        StepSimilar(mode, a, b, s[0]);
        ShapeKept(mode, Step(mode, a, s[0]), Step(mode, b, s[0]), s[1..], params, others);
      } else {
        assert SameKind(params[0], others[0]);
        MeantSimilar(mode, a, b, params[0], others[0]);
        if params[0].Char? {
          CharSettles(mode, a, params[0].data);
          SameStart(mode, Meant(mode, a, params[0]), s[1..], params[1..], others[1..]);
        }
        ShapeKept(mode, Meant(mode, a, params[0]), Meant(mode, b, others[0]), s[1..], params[1..], others[1..]);
      }
    }
  }

  lemma CharSettles(mode: Mode, lx: Lexed, data: seq<byte>)
    ensures Meant(mode, lx, Char(data)).state.Plain?
  {
  }

  /** Whatever data is bound, the statement has the same tokens, except for the values of the literals. */
  lemma StructureUnchanged(mode: Mode, s: seq<byte>, params: seq<Param>, others: seq<Param>)
    requires Marks(s) <= |params| && SameKinds(params, others)
    requires WellPlaced(mode, Lexed([], Plain), s, params)
    ensures SimilarReading(Read(mode, Rendered(mode, s, params)), Read(mode, Rendered(mode, s, others)))
  {
    hide Rendered, Run, Meaning, WellPlaced;
    var start := Lexed([], Plain);
    ShapeKept(mode, start, start, s, params, others);
    TemplateMeans(mode, start, s, params);
    TemplateMeans(mode, start, s, others);
  }

  // ---------------------------------------------------------------- the plainest template

  lemma {:induction false} PlainTextInside(mode: Mode, tokens: seq<Token>, q: quote, v: seq<byte>, s: seq<byte>)
    requires q !in s && BACKSLASH !in s
    ensures Run(mode, Lexed(tokens, Lit(q, v)), s) == Lexed(tokens, Lit(q, v + s))
    decreases s
  {
    if s == [] {
      assert v + s == v;
    } else {
      PlainTextInside(mode, tokens, q, v + [s[0]], s[1..]);
      assert v + [s[0]] + s[1..] == v + s;
    }
  }

  /** The template q before ? after q with one Like reads as one literal: the text before, the data, the text after. */
  lemma LikeValue(mode: Mode, q: quote, before: seq<byte>, data: seq<byte>, after: seq<byte>)
    requires Safe(mode, q) && q !in before + after && BACKSLASH !in before + after
    ensures Read(mode, [q] + before + Escaped(mode, data) + after + [q]) == Tokens([Str(q, before + data + after)])
  {
    hide Run, Escaped, Safe;
    var start := Lexed([], Plain);
    RunOne(mode, start, q);
    RunJoins(mode, start, [q], before);
    PlainTextInside(mode, [], q, [], before);
    assert [] + before == before;
    RunJoins(mode, start, [q] + before, Escaped(mode, data));
    LikeExact(mode, [], q, before, data);
    RunJoins(mode, start, [q] + before + Escaped(mode, data), after);
    PlainTextInside(mode, [], q, before + data, after);
    RunJoins(mode, start, [q] + before + Escaped(mode, data) + after, [q]);
    RunOne(mode, Lexed([], Lit(q, before + data + after)), q);
  }
}
