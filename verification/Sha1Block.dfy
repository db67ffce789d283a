/** The block transform of src/sha1.cc, proved equal to the hash computation of FIPS 180-4. */
module Sha1Block {
  import opened Fips180

  // How a little-endian host reads four bytes of the block as one word.
  function LittleEndianWord(b: seq<octet>): word
    requires |b| == 4
  {
    b[0] as word | (b[1] as word << 8) | (b[2] as word << 16) | (b[3] as word << 24)
  }

  function ByteSwap(x: word): word {
    (Rotl(x, 24) & 0xFF00FF00) | (Rotl(x, 8) & 0x00FF00FF)
  }

  lemma ByteSwapOfWord(a: word, b: word, c: word, d: word)
    requires a < 256 && b < 256 && c < 256 && d < 256
    ensures ByteSwap(a | (b << 8) | (c << 16) | (d << 24)) == (a << 24) | (b << 16) | (c << 8) | d
  {
  }

  lemma ByteSwapOfLoad(b: seq<octet>)
    requires |b| == 4
    ensures ByteSwap(LittleEndianWord(b)) == BigEndianWord(b)
  {
    ByteSwapOfWord(b[0] as word, b[1] as word, b[2] as word, b[3] as word);
  }

  // ------------------------------------------------ the computation of FIPS 180-4 for one block

  /** The sixteen words a host loads, the schedule w, and trace: the working variables before each turn. */
  datatype Run = Run(raw: seq<word>, w: seq<word>, trace: seq<Regs>) {
    ghost predicate Shaped() { |raw| == 16 && |w| == 80 && |trace| == 81 }

    ghost predicate SwapAt(j: nat)
      requires Shaped() && j < 16
    {
      ByteSwap(raw[j]) == w[j]
    }

    ghost predicate ExtendAt(t: nat)
      requires Shaped() && 16 <= t < 80
    {
      w[t] == Expand(w[t - 3], w[t - 8], w[t - 14], w[t - 16])
    }

    ghost predicate TurnAt(t: nat)
      requires Shaped() && t < 80
    {
      var p := trace[t];
      trace[t + 1] == Round(p, F(t, p.b, p.c, p.d), K(t), w[t])
    }

    ghost predicate Valid() {
      && Shaped()
      && (forall j :: 0 <= j < 16 ==> SwapAt(j))
      && (forall t :: 16 <= t < 80 ==> ExtendAt(t))
      && (forall t :: 0 <= t < 80 ==> TurnAt(t))
    }
  }

  lemma {:induction false} SchedulePrefix(block: seq<octet>, m: nat, n: nat)
    requires |block| == 64 && m <= n
    ensures Schedule(block, n)[..m] == Schedule(block, m)
    decreases n
  {
    if m < n {
      SchedulePrefix(block, m, n - 1);
    }
  }

  lemma ScheduleLoaded(block: seq<octet>, w: seq<word>, t: nat)
    requires |block| == 64 && t < 16 && w == Schedule(block, 80)
    ensures ByteSwap(LittleEndianWord(block[4 * t..4 * t + 4])) == w[t]
  {
    SchedulePrefix(block, t + 1, 80);
    assert w[t] == w[..t + 1][t];
    ByteSwapOfLoad(block[4 * t..4 * t + 4]);
  }

  lemma ScheduleExtended(block: seq<octet>, w: seq<word>, t: nat)
    requires |block| == 64 && 16 <= t < 80 && w == Schedule(block, 80)
    ensures w[t] == Expand(w[t - 3], w[t - 8], w[t - 14], w[t - 16])
  {
    SchedulePrefix(block, t + 1, 80);
    SchedulePrefix(block, t, 80);
    assert w[t] == w[..t + 1][t];
    var p := Schedule(block, t);
    assert p == w[..t];
    assert p[t - 3] == w[t - 3] && p[t - 8] == w[t - 8] && p[t - 14] == w[t - 14] && p[t - 16] == w[t - 16];
  }

  ghost function RunOf(h: Regs, block: seq<octet>): (run: Run)
    requires |block| == 64
  {
    var w := Schedule(block, ROUND_COUNT);
    Run(seq(16, i requires 0 <= i < 16 => LittleEndianWord(block[4 * i..4 * i + 4])),
        w,
        seq(81, i requires 0 <= i < 81 => Rounds(h, w[..i])))
  }

  lemma RoundsStep(h: Regs, w: seq<word>, t: nat)
    requires t < |w|
    ensures var p := Rounds(h, w[..t]); Rounds(h, w[..t + 1]) == Round(p, F(t, p.b, p.c, p.d), K(t), w[t])
  {
    assert w[..t + 1][..t] == w[..t];
  }

  lemma RunSwaps(h: Regs, block: seq<octet>)
    requires |block| == 64
    ensures forall j :: 0 <= j < 16 ==> RunOf(h, block).SwapAt(j)
  {
    var run := RunOf(h, block);
    forall j | 0 <= j < 16 ensures run.SwapAt(j) { ScheduleLoaded(block, run.w, j); }
  }

  lemma RunExtends(h: Regs, block: seq<octet>)
    requires |block| == 64
    ensures forall t :: 16 <= t < 80 ==> RunOf(h, block).ExtendAt(t)
  {
    var run := RunOf(h, block);
    forall t | 16 <= t < 80 ensures run.ExtendAt(t) { ScheduleExtended(block, run.w, t); }
  }

  lemma RunTurns(h: Regs, block: seq<octet>)
    requires |block| == 64
    ensures forall t :: 0 <= t < 80 ==> RunOf(h, block).TurnAt(t)
  {
    var run := RunOf(h, block);
    forall t | 0 <= t < 80 ensures run.TurnAt(t) { RoundsStep(h, run.w, t); }
  }

  lemma RunOfIsValid(h: Regs, block: seq<octet>)
    requires |block| == 64
    ensures RunOf(h, block).Valid()
    ensures RunOf(h, block).trace[0] == h
    ensures RunOf(h, block).trace[80] == Rounds(h, Schedule(block, ROUND_COUNT))
  {
    var run := RunOf(h, block);
    RunSwaps(h, block);
    RunExtends(h, block);
    RunTurns(h, block);
    assert run.w[..80] == run.w;
  }

  // ------------------------------------------------ the circular buffer

  // Before round i <= 16: words below i are schedule words, the others are still as loaded.
  ghost predicate Loading(l: array<word>, run: Run, i: nat)
    requires run.Shaped() && l.Length == 16 && i <= 16
    reads l
  {
    l[..] == run.w[..i] + run.raw[i..]
  }

  // Before round i >= 16: the buffer holds the last sixteen schedule words.
  ghost predicate Cycling(l: array<word>, run: Run, i: nat)
    requires run.Shaped() && l.Length == 16 && 16 <= i <= 80
    reads l
  {
    forall t :: i - 16 <= t < i ==> l[t % 16] == run.w[t]
  }

  lemma LoadingDone(l: array<word>, run: Run)
    requires run.Shaped() && l.Length == 16 && Loading(l, run, 16)
    ensures Cycling(l, run, 16)
  {
    forall t | 0 <= t < 16 ensures l[t] == run.w[t] {
      assert l[..][t] == l[t];
    }
  }

  method Blk0(l: array<word>, i: nat, ghost run: Run) returns (r: word)
    requires run.Valid() && l.Length == 16 && i < 16
    requires Loading(l, run, i)
    modifies l
    ensures Loading(l, run, i + 1) && r == run.w[i]
  {
    assert run.SwapAt(i);
    assert l[..][i] == run.raw[i];
    l[i] := ByteSwap(l[i]);
    assert l[..] == run.w[..i + 1] + run.raw[i + 1..];
    r := l[i];
  }

  method Blk(l: array<word>, i: nat, ghost run: Run) returns (r: word)
    requires run.Valid() && l.Length == 16 && 16 <= i < 80
    requires Cycling(l, run, i)
    modifies l
    ensures Cycling(l, run, i + 1) && r == run.w[i]
  {
    assert l[(i + 13) % 16] == run.w[i - 3] by { assert (i - 3) % 16 == (i + 13) % 16; }
    assert l[(i + 8) % 16] == run.w[i - 8] by { assert (i - 8) % 16 == (i + 8) % 16; }
    assert l[(i + 2) % 16] == run.w[i - 14] by { assert (i - 14) % 16 == (i + 2) % 16; }
    assert l[i % 16] == run.w[i - 16] by { assert (i - 16) % 16 == i % 16; }
    assert run.ExtendAt(i);
    l[i % 16] := Expand(l[(i + 13) % 16], l[(i + 8) % 16], l[(i + 2) % 16], l[i % 16]);
    r := l[i % 16];
  }

  // ------------------------------------------------ the rounds

  // The two selections of the round macros that are not written as FIPS 180-4 writes them.

  function Choose(w: word, x: word, y: word): word { (w & (x ^ y)) ^ y }

  function Majority(w: word, x: word, y: word): word { ((w | x) & y) | (w & x) }

  lemma ChoiceBits(w: word, x: word, y: word)
    ensures (w & (x ^ y)) ^ y == (w & x) ^ (!w & y)
  {
  }

  lemma ChoiceForms(w: word, x: word, y: word)
    ensures Choose(w, x, y) == Ch(w, x, y)
  {
    ChoiceBits(w, x, y);
  }

  lemma MajorityBits(w: word, x: word, y: word)
    ensures ((w | x) & y) | (w & x) == (w & x) ^ (w & y) ^ (x & y)
  {
  }

  lemma MajorityForms(w: word, x: word, y: word)
    ensures Majority(w, x, y) == Maj(w, x, y)
  {
    MajorityBits(w, x, y);
  }

  // What each round macro leaves in z: z += f + block word + constant + rotated.
  function Accumulate(z: word, f: word, b: word, k: word, rotated: word): word {
    z + (f + b + k + rotated)
  }

  lemma SumForms(z: word, f: word, b: word, k: word, rotated: word)
    ensures Accumulate(z, f, b, k, rotated) == Sum(rotated, f, z, k, b)
  {
  }

  // Before round i the registers, in the order the macro names them, are the working variables of FIPS 180-4.
  ghost predicate AtRound(run: Run, i: nat, v: word, w: word, x: word, y: word, z: word)
    requires run.Shaped() && i <= 80
  {
    run.trace[i] == Regs(v, w, x, y, z)
  }

  lemma NextRound(run: Run, i: nat, v: word, w: word, x: word, y: word, z: word)
    requires run.Valid() && i < 80 && AtRound(run, i, v, w, x, y, z)
    ensures AtRound(run, i + 1, Sum(Rotl(v, 5), F(i, w, x, y), z, K(i), run.w[i]), v, Rotl(w, 30), x, y)
  {
    assert run.TurnAt(i);
  }

  lemma R01IsRound(run: Run, i: nat, v: word, w: word, x: word, y: word, z: word)
    requires run.Valid() && i < 20 && AtRound(run, i, v, w, x, y, z)
    ensures AtRound(run, i + 1, Accumulate(z, Choose(w, x, y), run.w[i], 0x5A827999, Rotl(v, 5)), v, Rotl(w, 30), x, y)
  {
    NextRound(run, i, v, w, x, y, z);
    ChoiceForms(w, x, y);
    SumForms(z, Ch(w, x, y), run.w[i], 0x5A827999, Rotl(v, 5));
  }

  lemma R2IsRound(run: Run, i: nat, v: word, w: word, x: word, y: word, z: word)
    requires run.Valid() && 20 <= i < 40 && AtRound(run, i, v, w, x, y, z)
    ensures AtRound(run, i + 1, Accumulate(z, Parity(w, x, y), run.w[i], 0x6ED9EBA1, Rotl(v, 5)), v, Rotl(w, 30), x, y)
  {
    NextRound(run, i, v, w, x, y, z);
    SumForms(z, Parity(w, x, y), run.w[i], 0x6ED9EBA1, Rotl(v, 5));
  }

  lemma R3IsRound(run: Run, i: nat, v: word, w: word, x: word, y: word, z: word)
    requires run.Valid() && 40 <= i < 60 && AtRound(run, i, v, w, x, y, z)
    ensures AtRound(run, i + 1, Accumulate(z, Majority(w, x, y), run.w[i], 0x8F1BBCDC, Rotl(v, 5)), v,
                    Rotl(w, 30), x, y)
  {
    NextRound(run, i, v, w, x, y, z);
    MajorityForms(w, x, y);
    SumForms(z, Maj(w, x, y), run.w[i], 0x8F1BBCDC, Rotl(v, 5));
  }

  lemma R4IsRound(run: Run, i: nat, v: word, w: word, x: word, y: word, z: word)
    requires run.Valid() && 60 <= i < 80 && AtRound(run, i, v, w, x, y, z)
    ensures AtRound(run, i + 1, Accumulate(z, Parity(w, x, y), run.w[i], 0xCA62C1D6, Rotl(v, 5)), v, Rotl(w, 30), x, y)
  {
    NextRound(run, i, v, w, x, y, z);
    SumForms(z, Parity(w, x, y), run.w[i], 0xCA62C1D6, Rotl(v, 5));
  }

  // The round macros.  Each changes w and z; the caller renames the registers instead of moving them.

  method R0(v: word, w: word, x: word, y: word, z: word, i: nat, l: array<word>, ghost run: Run)
    returns (w': word, z': word)
    requires run.Valid() && l.Length == 16 && 0 <= i < 16
    requires Loading(l, run, i) && AtRound(run, i, v, w, x, y, z)
    modifies l
    ensures Loading(l, run, i + 1) && AtRound(run, i + 1, z', v, w', x, y)
  {
    var b := Blk0(l, i, run);
    z' := Accumulate(z, Choose(w, x, y), b, 0x5A827999, Rotl(v, 5));
    w' := Rotl(w, 30);
    R01IsRound(run, i, v, w, x, y, z);
  }

  method R1(v: word, w: word, x: word, y: word, z: word, i: nat, l: array<word>, ghost run: Run)
    returns (w': word, z': word)
    requires run.Valid() && l.Length == 16 && 16 <= i < 20
    requires Cycling(l, run, i) && AtRound(run, i, v, w, x, y, z)
    modifies l
    ensures Cycling(l, run, i + 1) && AtRound(run, i + 1, z', v, w', x, y)
  {
    var b := Blk(l, i, run);
    z' := Accumulate(z, Choose(w, x, y), b, 0x5A827999, Rotl(v, 5));
    w' := Rotl(w, 30);
    R01IsRound(run, i, v, w, x, y, z);
  }

  method R2(v: word, w: word, x: word, y: word, z: word, i: nat, l: array<word>, ghost run: Run)
    returns (w': word, z': word)
    requires run.Valid() && l.Length == 16 && 20 <= i < 40
    requires Cycling(l, run, i) && AtRound(run, i, v, w, x, y, z)
    modifies l
    ensures Cycling(l, run, i + 1) && AtRound(run, i + 1, z', v, w', x, y)
  {
    var b := Blk(l, i, run);
    z' := Accumulate(z, Parity(w, x, y), b, 0x6ED9EBA1, Rotl(v, 5));
    w' := Rotl(w, 30);
    R2IsRound(run, i, v, w, x, y, z);
  }

  method R3(v: word, w: word, x: word, y: word, z: word, i: nat, l: array<word>, ghost run: Run)
    returns (w': word, z': word)
    requires run.Valid() && l.Length == 16 && 40 <= i < 60
    requires Cycling(l, run, i) && AtRound(run, i, v, w, x, y, z)
    modifies l
    ensures Cycling(l, run, i + 1) && AtRound(run, i + 1, z', v, w', x, y)
  {
    var b := Blk(l, i, run);
    z' := Accumulate(z, Majority(w, x, y), b, 0x8F1BBCDC, Rotl(v, 5));
    w' := Rotl(w, 30);
    R3IsRound(run, i, v, w, x, y, z);
  }

  method R4(v: word, w: word, x: word, y: word, z: word, i: nat, l: array<word>, ghost run: Run)
    returns (w': word, z': word)
    requires run.Valid() && l.Length == 16 && 60 <= i < 80
    requires Cycling(l, run, i) && AtRound(run, i, v, w, x, y, z)
    modifies l
    ensures Cycling(l, run, i + 1) && AtRound(run, i + 1, z', v, w', x, y)
  {
    var b := Blk(l, i, run);
    z' := Accumulate(z, Parity(w, x, y), b, 0xCA62C1D6, Rotl(v, 5));
    w' := Rotl(w, 30);
    R4IsRound(run, i, v, w, x, y, z);
  }

  // The unrolled operations, ten at a time: after ten, the registers have their first names again.

  method Rounds0To9(l: array<word>, r: Regs, ghost run: Run) returns (r': Regs)
    requires run.Valid() && l.Length == 16
    requires Loading(l, run, 0) && AtRound(run, 0, r.a, r.b, r.c, r.d, r.e)
    modifies l
    ensures Loading(l, run, 10) && AtRound(run, 10, r'.a, r'.b, r'.c, r'.d, r'.e)
  {
    var a, b, c, d, e := r.a, r.b, r.c, r.d, r.e;
    b, e := R0(a, b, c, d, e, 0, l, run);
    a, d := R0(e, a, b, c, d, 1, l, run);
    e, c := R0(d, e, a, b, c, 2, l, run);
    d, b := R0(c, d, e, a, b, 3, l, run);
    c, a := R0(b, c, d, e, a, 4, l, run);
    b, e := R0(a, b, c, d, e, 5, l, run);
    a, d := R0(e, a, b, c, d, 6, l, run);
    e, c := R0(d, e, a, b, c, 7, l, run);
    d, b := R0(c, d, e, a, b, 8, l, run);
    c, a := R0(b, c, d, e, a, 9, l, run);
    r' := Regs(a, b, c, d, e);
  }

  method Rounds10To19(l: array<word>, r: Regs, ghost run: Run) returns (r': Regs)
    requires run.Valid() && l.Length == 16
    requires Loading(l, run, 10) && AtRound(run, 10, r.a, r.b, r.c, r.d, r.e)
    modifies l
    ensures Cycling(l, run, 20) && AtRound(run, 20, r'.a, r'.b, r'.c, r'.d, r'.e)
  {
    var a, b, c, d, e := r.a, r.b, r.c, r.d, r.e;
    b, e := R0(a, b, c, d, e, 10, l, run);
    a, d := R0(e, a, b, c, d, 11, l, run);
    e, c := R0(d, e, a, b, c, 12, l, run);
    d, b := R0(c, d, e, a, b, 13, l, run);
    c, a := R0(b, c, d, e, a, 14, l, run);
    b, e := R0(a, b, c, d, e, 15, l, run);
    LoadingDone(l, run);
    a, d := R1(e, a, b, c, d, 16, l, run);
    e, c := R1(d, e, a, b, c, 17, l, run);
    d, b := R1(c, d, e, a, b, 18, l, run);
    c, a := R1(b, c, d, e, a, 19, l, run);
    r' := Regs(a, b, c, d, e);
  }

  method Rounds20To29(l: array<word>, r: Regs, ghost run: Run) returns (r': Regs)
    requires run.Valid() && l.Length == 16
    requires Cycling(l, run, 20) && AtRound(run, 20, r.a, r.b, r.c, r.d, r.e)
    modifies l
    ensures Cycling(l, run, 30) && AtRound(run, 30, r'.a, r'.b, r'.c, r'.d, r'.e)
  {
    var a, b, c, d, e := r.a, r.b, r.c, r.d, r.e;
    b, e := R2(a, b, c, d, e, 20, l, run);
    a, d := R2(e, a, b, c, d, 21, l, run);
    e, c := R2(d, e, a, b, c, 22, l, run);
    d, b := R2(c, d, e, a, b, 23, l, run);
    c, a := R2(b, c, d, e, a, 24, l, run);
    b, e := R2(a, b, c, d, e, 25, l, run);
    a, d := R2(e, a, b, c, d, 26, l, run);
    e, c := R2(d, e, a, b, c, 27, l, run);
    d, b := R2(c, d, e, a, b, 28, l, run);
    c, a := R2(b, c, d, e, a, 29, l, run);
    r' := Regs(a, b, c, d, e);
  }

  method Rounds30To39(l: array<word>, r: Regs, ghost run: Run) returns (r': Regs)
    requires run.Valid() && l.Length == 16
    requires Cycling(l, run, 30) && AtRound(run, 30, r.a, r.b, r.c, r.d, r.e)
    modifies l
    ensures Cycling(l, run, 40) && AtRound(run, 40, r'.a, r'.b, r'.c, r'.d, r'.e)
  {
    var a, b, c, d, e := r.a, r.b, r.c, r.d, r.e;
    b, e := R2(a, b, c, d, e, 30, l, run);
    a, d := R2(e, a, b, c, d, 31, l, run);
    e, c := R2(d, e, a, b, c, 32, l, run);
    d, b := R2(c, d, e, a, b, 33, l, run);
    c, a := R2(b, c, d, e, a, 34, l, run);
    b, e := R2(a, b, c, d, e, 35, l, run);
    a, d := R2(e, a, b, c, d, 36, l, run);
    e, c := R2(d, e, a, b, c, 37, l, run);
    d, b := R2(c, d, e, a, b, 38, l, run);
    c, a := R2(b, c, d, e, a, 39, l, run);
    r' := Regs(a, b, c, d, e);
  }

  method Rounds40To49(l: array<word>, r: Regs, ghost run: Run) returns (r': Regs)
    requires run.Valid() && l.Length == 16
    requires Cycling(l, run, 40) && AtRound(run, 40, r.a, r.b, r.c, r.d, r.e)
    modifies l
    ensures Cycling(l, run, 50) && AtRound(run, 50, r'.a, r'.b, r'.c, r'.d, r'.e)
  {
    var a, b, c, d, e := r.a, r.b, r.c, r.d, r.e;
    b, e := R3(a, b, c, d, e, 40, l, run);
    a, d := R3(e, a, b, c, d, 41, l, run);
    e, c := R3(d, e, a, b, c, 42, l, run);
    d, b := R3(c, d, e, a, b, 43, l, run);
    c, a := R3(b, c, d, e, a, 44, l, run);
    b, e := R3(a, b, c, d, e, 45, l, run);
    a, d := R3(e, a, b, c, d, 46, l, run);
    e, c := R3(d, e, a, b, c, 47, l, run);
    d, b := R3(c, d, e, a, b, 48, l, run);
    c, a := R3(b, c, d, e, a, 49, l, run);
    r' := Regs(a, b, c, d, e);
  }

  method Rounds50To59(l: array<word>, r: Regs, ghost run: Run) returns (r': Regs)
    requires run.Valid() && l.Length == 16
    requires Cycling(l, run, 50) && AtRound(run, 50, r.a, r.b, r.c, r.d, r.e)
    modifies l
    ensures Cycling(l, run, 60) && AtRound(run, 60, r'.a, r'.b, r'.c, r'.d, r'.e)
  {
    var a, b, c, d, e := r.a, r.b, r.c, r.d, r.e;
    b, e := R3(a, b, c, d, e, 50, l, run);
    a, d := R3(e, a, b, c, d, 51, l, run);
    e, c := R3(d, e, a, b, c, 52, l, run);
    d, b := R3(c, d, e, a, b, 53, l, run);
    c, a := R3(b, c, d, e, a, 54, l, run);
    b, e := R3(a, b, c, d, e, 55, l, run);
    a, d := R3(e, a, b, c, d, 56, l, run);
    e, c := R3(d, e, a, b, c, 57, l, run);
    d, b := R3(c, d, e, a, b, 58, l, run);
    c, a := R3(b, c, d, e, a, 59, l, run);
    r' := Regs(a, b, c, d, e);
  }

  method Rounds60To69(l: array<word>, r: Regs, ghost run: Run) returns (r': Regs)
    requires run.Valid() && l.Length == 16
    requires Cycling(l, run, 60) && AtRound(run, 60, r.a, r.b, r.c, r.d, r.e)
    modifies l
    ensures Cycling(l, run, 70) && AtRound(run, 70, r'.a, r'.b, r'.c, r'.d, r'.e)
  {
    var a, b, c, d, e := r.a, r.b, r.c, r.d, r.e;
    b, e := R4(a, b, c, d, e, 60, l, run);
    a, d := R4(e, a, b, c, d, 61, l, run);
    e, c := R4(d, e, a, b, c, 62, l, run);
    d, b := R4(c, d, e, a, b, 63, l, run);
    c, a := R4(b, c, d, e, a, 64, l, run);
    b, e := R4(a, b, c, d, e, 65, l, run);
    a, d := R4(e, a, b, c, d, 66, l, run);
    e, c := R4(d, e, a, b, c, 67, l, run);
    d, b := R4(c, d, e, a, b, 68, l, run);
    c, a := R4(b, c, d, e, a, 69, l, run);
    r' := Regs(a, b, c, d, e);
  }

  method Rounds70To79(l: array<word>, r: Regs, ghost run: Run) returns (r': Regs)
    requires run.Valid() && l.Length == 16
    requires Cycling(l, run, 70) && AtRound(run, 70, r.a, r.b, r.c, r.d, r.e)
    modifies l
    ensures Cycling(l, run, 80) && AtRound(run, 80, r'.a, r'.b, r'.c, r'.d, r'.e)
  {
    var a, b, c, d, e := r.a, r.b, r.c, r.d, r.e;
    b, e := R4(a, b, c, d, e, 70, l, run);
    a, d := R4(e, a, b, c, d, 71, l, run);
    e, c := R4(d, e, a, b, c, 72, l, run);
    d, b := R4(c, d, e, a, b, 73, l, run);
    c, a := R4(b, c, d, e, a, 74, l, run);
    b, e := R4(a, b, c, d, e, 75, l, run);
    a, d := R4(e, a, b, c, d, 76, l, run);
    e, c := R4(d, e, a, b, c, 77, l, run);
    d, b := R4(c, d, e, a, b, 78, l, run);
    c, a := R4(b, c, d, e, a, 79, l, run);
    r' := Regs(a, b, c, d, e);
  }

  ghost function StateOf(state: array<word>): Regs
    requires state.Length == 5
    reads state
  {
    Regs(state[0], state[1], state[2], state[3], state[4])
  }

  method AddInto(state: array<word>, r: Regs)
    requires state.Length == 5
    modifies state
    ensures StateOf(state) == AddRegs(old(StateOf(state)), r)
  {
    state[0] := Add(state[0], r.a);
    state[1] := Add(state[1], r.b);
    state[2] := Add(state[2], r.c);
    state[3] := Add(state[3], r.d);
    state[4] := Add(state[4], r.e);
  }

  method AllRounds(l: array<word>, r: Regs, ghost run: Run) returns (r': Regs)
    requires run.Valid() && l.Length == 16
    requires l[..] == run.raw && run.trace[0] == r
    modifies l
    ensures run.trace[80] == r'
  {
    r' := r;
    r' := Rounds0To9(l, r', run);
    r' := Rounds10To19(l, r', run);
    r' := Rounds20To29(l, r', run);
    r' := Rounds30To39(l, r', run);
    r' := Rounds40To49(l, r', run);
    r' := Rounds50To59(l, r', run);
    r' := Rounds60To69(l, r', run);
    r' := Rounds70To79(l, r', run);
  }

  /** Hashes one block: 80 unrolled rounds over a circular buffer of sixteen words, with renamed registers. */
  method Transform(state: array<word>, buffer: seq<octet>)
    requires state.Length == 5 && |buffer| == 64
    modifies state
    ensures StateOf(state) == Compress(old(StateOf(state)), buffer)
  {
    ghost var run := RunOf(StateOf(state), buffer);
    RunOfIsValid(StateOf(state), buffer);
    var l := new word[16](i requires 0 <= i < 16 => LittleEndianWord(buffer[4 * i..4 * i + 4]));
    var r := AllRounds(l, Regs(state[0], state[1], state[2], state[3], state[4]), run);
    AddInto(state, r);
  }
}
