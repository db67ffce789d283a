/** Column types and NULL bitmaps, shared by the binary row reader and the execute packet. */
module Types {
  import opened Arithmetic
  import opened Bytes

  // The enumeration of libattachsql2/constants.h; Unknown stands for every other code on the wire.
  datatype ColumnType =
    | Decimal | Tiny | Short | Long | Float | Double | Null | Timestamp | LongLong | Int24 | Date | Time | DateTime
    | Year | VarChar | Bit | NewDecimal | Enum | Set | TinyBlob | MediumBlob | LongBlob | Blob | VarString | String
    | Geometry | Error | Unknown(code: uint16)
  {
    function Code(): uint16 {
      match this
      case Decimal => 0x00 case Tiny => 0x01 case Short => 0x02 case Long => 0x03 case Float => 0x04
      case Double => 0x05 case Null => 0x06 case Timestamp => 0x07 case LongLong => 0x08 case Int24 => 0x09
      case Date => 0x0a case Time => 0x0b case DateTime => 0x0c case Year => 0x0d case VarChar => 0x0f
      case Bit => 0x10 case NewDecimal => 0xf6 case Enum => 0xf7 case Set => 0xf8 case TinyBlob => 0xf9
      case MediumBlob => 0xfa case LongBlob => 0xfb case Blob => 0xfc case VarString => 0xfd case String => 0xfe
      case Geometry => 0xff case Error => 0xffff case Unknown(c) => c
    }
  }

  // ---------------------------------------------------------------- bits of a byte

  function Pow2(k: nat): (p: nat)
    ensures p > 0
  {
    if k == 0 then 1 else 2 * Pow2(k - 1)
  }

  // b & (1 << k)
  predicate BitSet(b: nat, k: nat) {
    b / Pow2(k) % 2 == 1
  }

  // b | (1 << k)
  function WithBit(b: nat, k: nat): nat {
    if BitSet(b, k) then b else b + Pow2(k)
  }

  // The number with these bits, least significant first.
  function Bits(bs: seq<bool>): nat {
    if bs == [] then 0 else (if bs[0] then 1 else 0) + 2 * Bits(bs[1..])
  }

  lemma {:induction false} BitsBound(bs: seq<bool>)
    ensures Bits(bs) < Pow2(|bs|)
  {
    if bs != [] {
      BitsBound(bs[1..]);
    }
  }

  lemma {:induction false} BitOfBits(bs: seq<bool>, k: nat)
    requires k < |bs|
    ensures BitSet(Bits(bs), k) == bs[k]
  {
    if k > 0 {
      BitOfBits(bs[1..], k - 1);
      DivDiv(Bits(bs), 2, Pow2(k - 1));
    }
  }

  lemma {:induction false} BitsUpdate(bs: seq<bool>, k: nat)
    requires k < |bs| && !bs[k]
    ensures Bits(bs[k := true]) == Bits(bs) + Pow2(k)
  {
    if k > 0 {
      BitsUpdate(bs[1..], k - 1);
      assert bs[k := true][1..] == bs[1..][k - 1 := true];
    } else {
      assert bs[k := true][1..] == bs[1..];
    }
  }

  lemma {:induction false} NoBits(n: nat)
    ensures Bits(seq(n, _ => false)) == 0
  {
    if n > 0 {
      NoBits(n - 1);
      assert seq(n, _ => false)[1..] == seq(n - 1, _ => false);
    }
  }

  // ---------------------------------------------------------------- NULL bitmaps

  // The eight flags that byte j of a bitmap holds when the flag of column 0 is bit `offset` of byte 0.
  function Flags(nulls: seq<bool>, offset: nat, j: nat): (f: seq<bool>)
    ensures |f| == 8
  {
    seq(8, k requires 0 <= k < 8 => var i := 8 * j + k - offset; 0 <= i < |nulls| && nulls[i])
  }

  function BitmapByte(nulls: seq<bool>, offset: nat, j: nat): byte {
    BitsBound(Flags(nulls, offset, j));
    assert Pow2(8) == 0x100;
    Bits(Flags(nulls, offset, j))
  }

  function BitmapLength(columns: nat, offset: nat): nat {
    (columns + 7 + offset) / 8
  }

  function Bitmap(nulls: seq<bool>, offset: nat): (s: seq<byte>)
    ensures |s| == BitmapLength(|nulls|, offset)
  {
    var n := BitmapLength(|nulls|, offset);
    seq(n, j requires 0 <= j < n => BitmapByte(nulls, offset, j))
  }

  /** Every column has its own bit, inside the bitmap, and the bit says whether the column is NULL. */
  lemma BitmapBit(nulls: seq<bool>, offset: nat, i: nat)
    requires i < |nulls|
    ensures (i + offset) / 8 < BitmapLength(|nulls|, offset)
    ensures BitSet(Bitmap(nulls, offset)[(i + offset) / 8], (i + offset) % 8) == nulls[i]
  {
    BitOfBits(Flags(nulls, offset, (i + offset) / 8), (i + offset) % 8);
  }
}
