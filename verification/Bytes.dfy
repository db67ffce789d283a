/** Bytes, and the little-endian integers of src/pack_macros.h. */
module Bytes {
  import opened Arithmetic

  type byte = x: int | 0 <= x < 0x100
  type uint16 = x: int | 0 <= x < 0x1_0000
  type uint32 = x: int | 0 <= x < 0x1_0000_0000
  type uint64 = x: int | 0 <= x < 0x1_0000_0000_0000_0000

  // The low `width` bytes of n, least significant first.
  function Le(n: nat, width: nat): (s: seq<byte>)
    ensures |s| == width
  {
    seq(width, i requires 0 <= i < width => n / Pow256(i) % 256)
  }

  lemma LeStep(n: nat, width: nat)
    requires width > 0
    ensures Le(n, width) == [n % 256] + Le(n / 256, width - 1)
  {
    forall i | 0 < i < width ensures Le(n, width)[i] == Le(n / 256, width - 1)[i - 1] {
      DivDiv(n, 256, Pow256(i - 1));
    }
  }

  // The number that a little-endian byte string stands for.
  function UnLe(s: seq<byte>): nat {
    if s == [] then 0 else s[0] + 256 * UnLe(s[1..])
  }

  lemma {:induction false} UnLeOfLe(n: nat, width: nat)
    requires n < Pow256(width)
    ensures UnLe(Le(n, width)) == n
  {
    if width > 0 {
      UnLeOfLe(n / 256, width - 1);
      LeStep(n, width);
      assert Le(n, width)[1..] == Le(n / 256, width - 1);
    }
  }

  lemma {:induction false} LeOfUnLe(s: seq<byte>)
    ensures UnLe(s) < Pow256(|s|) && Le(UnLe(s), |s|) == s
  {
    if s != [] {
      LeOfUnLe(s[1..]);
      DivUnique(UnLe(s), 256, UnLe(s[1..]), s[0]);
      LeStep(UnLe(s), |s|);
      assert s == [s[0]] + s[1..];
    }
  }

  lemma Powers()
    ensures Pow256(0) == 1 && Pow256(1) == 0x100 && Pow256(2) == 0x1_0000 && Pow256(3) == 0x100_0000
    ensures Pow256(4) == 0x1_0000_0000 && Pow256(5) == 0x100_0000_0000 && Pow256(6) == 0x1_0000_0000_0000
    ensures Pow256(7) == 0x100_0000_0000_0000 && Pow256(8) == 0x1_0000_0000_0000_0000
  {
  }

  // ---------------------------------------------------------------- packing

  // b with the bytes of s assigned one after the other from pos on.
  function Splice(b: seq<byte>, pos: nat, s: seq<byte>): (r: seq<byte>)
    requires pos + |s| <= |b|
    ensures |r| == |b|
    decreases |s|
  {
    if s == [] then b else Splice(b[pos := s[0]], pos + 1, s[1..])
  }

  lemma {:induction false} SpliceIs(b: seq<byte>, pos: nat, s: seq<byte>)
    requires pos + |s| <= |b|
    ensures Splice(b, pos, s) == b[..pos] + s + b[pos + |s|..]
    decreases |s|
  {
    if s != [] {
      SpliceIs(b[pos := s[0]], pos + 1, s[1..]);
      assert s == [s[0]] + s[1..];
    } else {
      assert b == b[..pos] + s + b[pos..];
    }
  }

  lemma SpliceNothing(b: seq<byte>, pos: nat)
    requires pos <= |b|
    ensures Splice(b, pos, []) == b
  {
  }

  lemma SpliceSplice(b: seq<byte>, pos: nat, s: seq<byte>, t: seq<byte>)
    requires pos + |s| + |t| <= |b|
    ensures Splice(Splice(b, pos, s), pos + |s|, t) == Splice(b, pos, s + t)
  {
    SpliceIs(b, pos, s);
    SpliceIs(Splice(b, pos, s), pos + |s|, t);
    SpliceIs(b, pos, s + t);
  }

  lemma SpliceUpdate(b: seq<byte>, pos: nat, s: seq<byte>, k: nat, x: byte)
    requires pos + |s| <= |b| && k < |s|
    ensures Splice(b, pos, s)[pos + k] == s[k]
    ensures Splice(b, pos, s)[pos + k := x] == Splice(b, pos, s[k := x])
  {
    SpliceIs(b, pos, s);
    SpliceIs(b, pos, s[k := x]);
  }

  lemma SpliceBefore(b: seq<byte>, pos: nat, s: seq<byte>, t: seq<byte>)
    requires pos + |s| + |t| <= |b|
    ensures Splice(Splice(b, pos + |s|, t), pos, s) == Splice(b, pos, s + t)
  {
    SpliceIs(b, pos + |s|, t);
    SpliceIs(Splice(b, pos + |s|, t), pos, s);
    SpliceIs(b, pos, s + t);
  }

  lemma Le2(n: nat)
    ensures Le(n, 2) == [n % 256, n / 0x100 % 256]
  {
    Powers();
    var s := Le(n, 2);
    assert s[0] == n / Pow256(0) % 256 && s[1] == n / Pow256(1) % 256;
  }

  lemma Le3(n: nat)
    ensures Le(n, 3) == [n % 256, n / 0x100 % 256, n / 0x1_0000 % 256]
  {
    Powers();
    var s := Le(n, 3);
    assert s[0] == n / Pow256(0) % 256 && s[1] == n / Pow256(1) % 256 && s[2] == n / Pow256(2) % 256;
  }

  lemma Le4(n: nat)
    ensures Le(n, 4) == [n % 256, n / 0x100 % 256, n / 0x1_0000 % 256, n / 0x100_0000 % 256]
  {
    Powers();
    var s := Le(n, 4);
    assert s[0] == n / Pow256(0) % 256 && s[1] == n / Pow256(1) % 256 && s[2] == n / Pow256(2) % 256
        && s[3] == n / Pow256(3) % 256;
  }

  lemma Bytes8(n: nat)
    ensures Le(n, 8) == [
      n % 256, n / 0x100 % 256, n / 0x1_0000 % 256, n / 0x100_0000 % 256,
      n / 0x1_0000_0000 % 256, n / 0x100_0000_0000 % 256,
      n / 0x1_0000_0000_0000 % 256, n / 0x100_0000_0000_0000 % 256]
  {
    Powers();
    var s := Le(n, 8);
    assert s[0] == n / Pow256(0) % 256 && s[1] == n / Pow256(1) % 256 && s[2] == n / Pow256(2) % 256
        && s[3] == n / Pow256(3) % 256
        && s[4] == n / Pow256(4) % 256 && s[5] == n / Pow256(5) % 256 && s[6] == n / Pow256(6) % 256
        && s[7] == n / Pow256(7) % 256;
  }

  // Assigns the bytes of s to buffer[pos], buffer[pos + 1], and so on.
  method Write(buffer: array<byte>, pos: nat, s: seq<byte>)
    requires pos + |s| <= buffer.Length
    modifies buffer
    ensures buffer[..] == Splice(old(buffer[..]), pos, s)
  {
    SpliceIs(buffer[..], pos, s);
    forall k | 0 <= k < |s| {
      buffer[pos + k] := s[k];
    }
  }

  method PackInt2(buffer: array<byte>, pos: nat, n: nat)
    requires pos + 2 <= buffer.Length
    modifies buffer
    ensures buffer[..] == Splice(old(buffer[..]), pos, Le(n, 2))
  {
    Le2(n);
    Write(buffer, pos, [n % 256, n / 0x100 % 256]);
  }

  method PackInt3(buffer: array<byte>, pos: nat, n: nat)
    requires pos + 3 <= buffer.Length
    modifies buffer
    ensures buffer[..] == Splice(old(buffer[..]), pos, Le(n, 3))
  {
    Le3(n);
    Write(buffer, pos, [n % 256, n / 0x100 % 256, n / 0x1_0000 % 256]);
  }

  method PackInt4(buffer: array<byte>, pos: nat, n: nat)
    requires pos + 4 <= buffer.Length
    modifies buffer
    ensures buffer[..] == Splice(old(buffer[..]), pos, Le(n, 4))
  {
    Le4(n);
    Write(buffer, pos, [n % 256, n / 0x100 % 256, n / 0x1_0000 % 256, n / 0x100_0000 % 256]);
  }

  method PackInt8(buffer: array<byte>, pos: nat, n: nat)
    requires pos + 8 <= buffer.Length
    modifies buffer
    ensures buffer[..] == Splice(old(buffer[..]), pos, Le(n, 8))
  {
    Bytes8(n);
    Write(buffer, pos, [
      n % 256, n / 0x100 % 256, n / 0x1_0000 % 256, n / 0x100_0000 % 256,
      n / 0x1_0000_0000 % 256, n / 0x100_0000_0000 % 256,
      n / 0x1_0000_0000_0000 % 256, n / 0x100_0000_0000_0000 % 256]);
  }

  // ---------------------------------------------------------------- unpacking

  // The integer of `width` bytes that stands in b at p.
  function UnpackInt(b: seq<byte>, p: nat, width: nat): nat
    requires p + width <= |b|
  {
    UnLe(b[p..p + width])
  }

  lemma UnpackBound(b: seq<byte>, p: nat, width: nat)
    requires p + width <= |b|
    ensures UnpackInt(b, p, width) < Pow256(width)
  {
    LeOfUnLe(b[p..p + width]);
  }

  function UnpackUint16(b: seq<byte>, p: nat): (n: uint16)
    requires p + 2 <= |b|
    ensures n == UnpackInt(b, p, 2)
  {
    UnpackBound(b, p, 2);
    UnpackInt(b, p, 2)
  }

  function UnpackUint32(b: seq<byte>, p: nat): (n: uint32)
    requires p + 4 <= |b|
    ensures n == UnpackInt(b, p, 4)
  {
    UnpackBound(b, p, 4);
    UnpackInt(b, p, 4)
  }

  /** Whatever stands around them, the bytes the pack macros write are read back as the number that was written. */
  lemma UnpackPacked(b: seq<byte>, p: nat, n: nat, width: nat)
    requires n < Pow256(width) && p + width <= |b| && b[p..p + width] == Le(n, width)
    ensures UnpackInt(b, p, width) == n
  {
    UnLeOfLe(n, width);
  }

  lemma UnLeStep(s: seq<byte>)
    requires s != []
    ensures UnLe(s) == s[0] + 256 * UnLe(s[1..])
  {
  }

  // The unpack macros, as they add up their bytes.

  lemma UnpackInt2(b: seq<byte>, p: nat)
    requires p + 2 <= |b|
    ensures UnpackInt(b, p, 2) == b[p] as int + b[p + 1] as int * 0x100
  {
    UnLeStep(b[p..p + 2]);
    UnLeStep(b[p..p + 2][1..]);
    assert b[p..p + 2][1..][1..] == [];
  }

  lemma UnpackInt3(b: seq<byte>, p: nat)
    requires p + 3 <= |b|
    ensures UnpackInt(b, p, 3) == b[p] as int + b[p + 1] as int * 0x100 + b[p + 2] as int * 0x1_0000
  {
    UnLeStep(b[p..p + 3]);
    assert b[p..p + 3][1..] == b[p + 1..p + 3];
    UnpackInt2(b, p + 1);
  }

  lemma UnpackInt4(b: seq<byte>, p: nat)
    requires p + 4 <= |b|
    ensures UnpackInt(b, p, 4) ==
            b[p] as int + b[p + 1] as int * 0x100 + b[p + 2] as int * 0x1_0000 + b[p + 3] as int * 0x100_0000
  {
    UnLeStep(b[p..p + 4]);
    assert b[p..p + 4][1..] == b[p + 1..p + 4];
    UnpackInt3(b, p + 1);
  }

  lemma {:induction false} UnLeSum(s: seq<byte>, t: seq<byte>)
    ensures UnLe(s + t) == UnLe(s) + Pow256(|s|) * UnLe(t)
  {
    if s == [] {
      assert s + t == t;
    } else {
      UnLeSum(s[1..], t);
      assert (s + t)[1..] == s[1..] + t;
      assert 256 * (Pow256(|s| - 1) * UnLe(t)) == Pow256(|s|) * UnLe(t);
    }
  }

  lemma UnpackInt8(b: seq<byte>, p: nat)
    requires p + 8 <= |b|
    ensures UnpackInt(b, p, 8) == UnpackInt(b, p, 4) + UnpackInt(b, p + 4, 4) * 0x1_0000_0000
  {
    Powers();
    assert b[p..p + 8] == b[p..p + 4] + b[p + 4..p + 8];
    UnLeSum(b[p..p + 4], b[p + 4..p + 8]);
  }
}
