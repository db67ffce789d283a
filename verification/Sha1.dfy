/** The incremental SHA-1 of src/sha1.cc, proved equal to the message digest of FIPS 180-4. */
module Sha1Code {
  import opened Arithmetic
  import opened Fips180
  import opened Sha1Block

  const UINT32: nat := 0x1_0000_0000
  const UINT64: nat := 0x1_0000_0000_0000_0000

  // The bit counter of a message of n bytes, after it has wrapped at 64 bits any number of times.
  ghost predicate Counts(count: nat, n: nat, wraps: nat) {
    count < UINT64 && count + wraps * UINT64 == 8 * n
  }

  lemma CountIndex(count: nat, n: nat, wraps: nat, b: nat)
    requires Counts(count, n, wraps) && 64 * b <= n < 64 * b + 64
    ensures count / 8 % 64 == n - 64 * b
  {
    var bytes := n - wraps * 0x2000_0000_0000_0000;
    assert count == 8 * bytes;
    DivUnique(count, 8, bytes, 0);
    DivUnique(bytes, 64, b - wraps * 0x80_0000_0000_0000, n - 64 * b);
  }

  function AddBits(count: nat, len: nat): (r: nat)
    ensures r < UINT64
  {
    (count + len * 8) % UINT64
  }

  lemma CountAdd(count: nat, n: nat, wraps: nat, len: nat) returns (wraps': nat)
    requires Counts(count, n, wraps)
    ensures Counts(AddBits(count, len), n + len, wraps')
  {
    wraps' := wraps + (count + len * 8) / UINT64;
  }

  // A sum of two 32-bit values as a 32-bit variable holds it.
  function Wrap32(x: nat): (r: nat)
    requires x < 2 * UINT32
    ensures r == x % UINT32
  {
    if x < UINT32 then x else x - UINT32
  }

  lemma HashOneMore(h: Regs, bytes: seq<octet>, b: nat)
    requires 64 * (b + 1) <= |bytes|
    ensures HashBlocks(h, bytes[..64 * (b + 1)]) == Compress(HashBlocks(h, bytes[..64 * b]), bytes[64 * b..64 * b + 64])
  {
    var n := 64 * b;
    assert bytes[..n + 64][..n] == bytes[..n];
    assert bytes[..n + 64][n..] == bytes[n..n + 64];
  }

  lemma SliceOfSum(m: seq<octet>, data: seq<octet>, from: nat, to: nat)
    requires from <= |m| + to && to <= |data|
    ensures from <= |m| ==> (m + data)[from..|m| + to] == m[from..] + data[..to]
    ensures from >= |m| ==> (m + data)[from..|m| + to] == data[from - |m|..to]
    ensures data[..|data|] == data && (m + data)[from..|m + data|] == (m + data)[from..]
  {
  }

  lemma SliceOfTail(data: seq<octet>, total: seq<octet>, i: nat)
    requires |data| <= |total| && data == total[|total| - |data|..] && i + 64 <= |data|
    ensures var n := |total| - |data| + i; data[i..i + 64] == total[n..n + 64]
  {
  }

  /** SHA1_CTX; `message` is every byte given to Update since Init, `blocks` the blocks of it that are hashed. */
  class Context {
    var state: array<word>
    var count: nat
    var buffer: array<octet>
    ghost var message: seq<octet>
    ghost var blocks: nat
    ghost var wraps: nat

    ghost predicate Shaped()
      reads this
    {
      state.Length == 5 && buffer.Length == 64
    }

    ghost predicate Valid()
      reads this, state, buffer
    {
      && Shaped()
      && Counts(count, |message|, wraps)
      && 64 * blocks <= |message| < 64 * blocks + 64
      && Hashed(message, blocks)
      && Buffered(message, |message| - 64 * blocks)
    }

    // The state holds the hash of the first b blocks of total.
    ghost predicate Hashed(total: seq<octet>, b: nat)
      requires Shaped()
      reads this, state
    {
      64 * b <= |total| && StateOf(state) == HashBlocks(INITIAL_HASH, total[..64 * b])
    }

    // The buffer starts with the last n bytes of total.
    ghost predicate Buffered(total: seq<octet>, n: int)
      requires Shaped()
      reads this, buffer
    {
      0 <= n < 64 && n <= |total| && buffer[..n] == total[|total| - n..]
    }

    constructor ()
      ensures Shaped() && fresh(state) && fresh(buffer)
    {
      state := new word[5];
      buffer := new octet[64];
    }

    method Init()
      requires Shaped()
      modifies this`count, this`message, this`blocks, this`wraps, state
      ensures Valid() && message == []
    {
      count := 0;
      state[0] := 0x67452301;
      state[1] := 0xEFCDAB89;
      state[2] := 0x98BADCFE;
      state[3] := 0x10325476;
      state[4] := 0xC3D2E1F0;
      message, blocks, wraps := [], 0, 0;
    }

    // memcpy(&buffer[at], data, |data|)
    method Copy(at: nat, data: seq<octet>)
      requires Shaped() && at + |data| <= 64
      modifies buffer
      ensures buffer[..at + |data|] == old(buffer[..at]) + data
      ensures buffer[at + |data|..] == old(buffer[at + |data|..])
    {
      forall k | 0 <= k < |data| {
        buffer[at + k] := data[k];
      }
    }

    method HashNext(block: seq<octet>, ghost total: seq<octet>, ghost b: nat)
      requires Shaped() && Hashed(total, b)
      requires 64 * b + 64 <= |total| && block == total[64 * b..64 * b + 64]
      modifies state
      ensures Hashed(total, b + 1)
    {
      Transform(state, block);
      HashOneMore(INITIAL_HASH, total, b);
    }

    // The start of Update: the number of bytes that wait in the buffer, and the new bit count.
    method Advance(len: nat) returns (j: nat)
      requires Counts(count, |message|, wraps) && 64 * blocks <= |message| < 64 * blocks + 64
      modifies this`count, this`wraps
      ensures j == |message| - 64 * blocks && Counts(count, |message| + len, wraps)
    {
      CountIndex(count, |message|, wraps, blocks);
      wraps := CountAdd(count, |message|, wraps, len);
      j := count / 8 % 64;
      count := AddBits(count, len);
    }

    // The start of Update when data completes the buffered block.
    method HashFirst(data: seq<octet>, j: nat, ghost m: seq<octet>, ghost b: nat)
      requires Shaped() && |m| == 64 * b + j && j < 64 <= j + |data|
      requires Hashed(m, b) && Buffered(m, j)
      modifies state, buffer
      ensures Hashed(m + data, b + 1)
    {
      ghost var total := m + data;
      assert total[..64 * b] == m[..64 * b];
      Copy(j, data[..64 - j]);
      SliceOfSum(m, data, 64 * b, 64 - j);
      assert buffer[..] == buffer[..64];
      HashNext(buffer[..], total, b);
    }

    // The loop of Update over the blocks that lie whole in data.
    method HashWhole(data: seq<octet>, from: nat, ghost total: seq<octet>, ghost first: nat)
      returns (i: nat, ghost b: nat)
      requires Shaped() && Hashed(total, first)
      requires 0 < from <= 64 && from <= |data| <= |total| && 64 - from + |data| < UINT32
      requires |total| - |data| + from == 64 * first && data == total[|total| - |data|..]
      modifies state
      ensures from <= i <= |data| && |data| - i < 64
      ensures Hashed(total, b) && |total| - |data| + i == 64 * b
    {
      i, b := from, first;
      while Wrap32(i + 63) < |data|
        invariant from <= i <= |data| && i - from == 64 * (b - first)
        invariant |total| - |data| + i == 64 * b
        invariant Shaped() && Hashed(total, b)
        decreases |data| - i
      {
        SliceOfTail(data, total, i);
        HashNext(data[i..i + 64], total, b);
        i := Wrap32(i + 64);
        b := b + 1;
      }
    }

    // The end of Update: the bytes from i on wait in the buffer.
    method KeepRest(data: seq<octet>, i: nat, j: nat, ghost m: seq<octet>)
      requires Shaped() && i <= |data| && j + |data| - i < 64
      requires if i == 0 then Buffered(m, j) else j == 0
      modifies buffer
      ensures Buffered(m + data, j + |data| - i)
    {
      Copy(j, data[i..]);
      SliceOfSum(m, data, if i == 0 then |m| - j else |m| + i, |data|);
    }

    // The middle of Update: hashes every block that is complete, and returns how much of data that took.
    method HashAvailable(data: seq<octet>, j: nat, ghost m: seq<octet>, ghost first: nat)
      returns (i: nat, ghost b: nat)
      requires Shaped() && |m| == 64 * first + j && j < 64 && j + |data| < UINT32
      requires Hashed(m, first) && Buffered(m, j)
      modifies state, buffer
      ensures i <= |data| && Hashed(m + data, b) && 0 <= |m| + |data| - 64 * b < 64
      ensures if i == 0 then Buffered(m, j) && b == first else |m| + i == 64 * b
    {
      if j + |data| > 63 {
        HashFirst(data, j, m, first);
        i, b := HashWhole(data, 64 - j, m + data, first + 1);
      } else {
        i, b := 0, first;
        assert (m + data)[..64 * b] == m[..64 * b];
      }
    }

    /** Absorbs data.  The 32-bit index i stays below 2^32, and the loop ends, because of the precondition alone. */
    method Update(data: seq<octet>)
      requires Valid()
      requires |message| - 64 * blocks + |data| < UINT32
      modifies this`count, this`message, this`blocks, this`wraps, state, buffer
      ensures Valid() && message == old(message) + data
    {
      var j := Advance(|data|);
      ghost var m := message;
      message := m + data;
      var i;
      i, blocks := HashAvailable(data, j, m, blocks);
      KeepRest(data, i, if i == 0 then j else 0, m);
    }

    /** Appends the padding of section 5.1.1, so that a whole number of blocks has been hashed. */
    method Pad()
      requires Valid()
      modifies this`count, this`message, this`blocks, this`wraps, state, buffer
      ensures Valid() && message == Padded(old(message))
    {
      ghost var m := message;
      var finalcount := LengthBytes(count);
      LengthFieldWraps(count, |m|, wraps);
      Update([0x80]);
      PadZeros(m);
      Update(finalcount);
    }

    // The loop of SHA1Pad.
    method PadZeros(ghost m: seq<octet>)
      requires Valid() && message == m + [0x80]
      modifies this`count, this`message, this`blocks, this`wraps, state, buffer
      ensures Valid() && message == m + [0x80] + Zeros(ZeroCount(|m|))
    {
      ghost var zeros: nat := 0;
      CountIndex(count, |message|, wraps, blocks);
      while count / 8 % 64 * 8 != 448
        invariant Valid() && count / 8 % 64 == |message| - 64 * blocks
        invariant message == m + [0x80] + Zeros(zeros)
        invariant zeros <= ZeroCount(|m|)
        decreases ZeroCount(|m|) - zeros
      {
        PaddingGoesOn(|m|, zeros, blocks);
        Update([0]);
        OneMoreZero(m + [0x80], zeros);
        zeros := zeros + 1;
        CountIndex(count, |message|, wraps, blocks);
      }
      PaddingEnds(|m|, zeros, blocks);
    }

    // After Pad nothing waits in the buffer.
    lemma AllHashed()
      requires Valid() && |message| % 64 == 0
      ensures StateOf(state) == HashBlocks(INITIAL_HASH, message)
    {
      assert message[..64 * blocks] == message;
    }

    method WriteDigest(digest: array<octet>)
      requires Shaped() && digest.Length >= 20 && digest != buffer
      modifies digest
      ensures digest[..20] == HashBytes(StateOf(state)) && digest[20..] == old(digest[20..])
    {
      ghost var h := StateOf(state);
      for i := 0 to 20
        invariant forall k :: 0 <= k < i ==> digest[k] == HashBytes(h)[k]
        invariant digest[20..] == old(digest[20..])
      {
        assert state[i / 4] == WordOf(h, i / 4);
        digest[i] := OctetOf(state[i / 4], i % 4);
      }
      assert digest[..20] == HashBytes(h);
    }

    /** Writes the digest and wipes the context; with a null digest it only pads. */
    method Final(digest: array?<octet>)
      requires Valid()
      requires digest != null ==> digest.Length >= 20 && digest != buffer
      modifies this`count, this`message, this`blocks, this`wraps, state, buffer, digest
      ensures Shaped()
      ensures digest == null ==> Valid() && message == Padded(old(message))
      ensures digest != null ==> digest[..20] == Sha1(old(message)) && digest[20..] == old(digest[20..])
      ensures digest != null ==>
                count == 0 && (forall k :: 0 <= k < 5 ==> state[k] == 0) && forall k :: 0 <= k < 64 ==> buffer[k] == 0
    {
      Pad();
      if digest != null {
        AllHashed();
        WriteDigest(digest);
        Wipe();
      }
    }

    // memset(context, 0, sizeof(*context))
    method Wipe()
      requires Shaped()
      modifies this`count, state, buffer
      ensures count == 0 && (forall k :: 0 <= k < 5 ==> state[k] == 0) && forall k :: 0 <= k < 64 ==> buffer[k] == 0
    {
      count := 0;
      forall k | 0 <= k < 5 { state[k] := 0; }
      forall k | 0 <= k < 64 { buffer[k] := 0; }
    }
  }

  // ------------------------------------------------ the limit of Update

  // The values the index i of Update can take when `pending` bytes were buffered: a step of 64 keeps them.
  predicate IsIndex(i: nat, pending: nat) {
    i < UINT32 && (i + pending) % 64 == 0
  }

  lemma IndexStep(i: nat, pending: nat)
    requires pending < 64 && IsIndex(i, pending)
    ensures IsIndex(Wrap32(i + 64), pending)
  {
    assert UINT32 % 64 == 0;
  }

  /** The precondition of Update is exact: some index ends the loop if and only if pending + len is below 2^32. */
  lemma UpdateLimit(pending: nat, len: nat)
    requires pending < 64
    ensures pending + len < UINT32 <==> exists i: nat :: IsIndex(i, pending) && Wrap32(i + 63) >= len
  {
    var last := UINT32 - 64 - pending;
    assert IsIndex(last, pending) && Wrap32(last + 63) == UINT32 - 1 - pending;
    forall i: nat | IsIndex(i, pending)
      ensures Wrap32(i + 63) <= UINT32 - 1 - pending
    {
    }
  }

  // ------------------------------------------------ padding

  lemma OneMoreZero(m: seq<octet>, zeros: nat)
    ensures m + Zeros(zeros) + [0] == m + Zeros(zeros + 1)
  {
    assert Zeros(zeros) + [0] == Zeros(zeros + 1);
  }

  lemma PaddingGoesOn(length: nat, zeros: nat, b: nat)
    requires zeros <= ZeroCount(length) && length + 1 + zeros - 64 * b != 56
    requires 64 * b <= length + 1 + zeros < 64 * b + 64
    ensures zeros < ZeroCount(length)
  {
  }

  lemma PaddingEnds(length: nat, zeros: nat, b: nat)
    requires zeros <= ZeroCount(length) && length + 1 + zeros == 64 * b + 56
    ensures zeros == ZeroCount(length)
  {
  }

  // finalcount[i] = (count >> ((7 - i) * 8)) & 255
  method LengthBytes(count: nat) returns (finalcount: seq<octet>)
    ensures finalcount == BigEndian(count, 8)
  {
    finalcount := [];
    for i := 0 to 8
      invariant |finalcount| == i
      invariant forall k :: 0 <= k < i ==> finalcount[k] == (count / Pow256(7 - k) % 256) as octet
    {
      finalcount := finalcount + [(count / Pow256(7 - i) % 256) as octet];
    }
    forall k: nat | k < 8 ensures finalcount[k] == BigEndian(count, 8)[k] {
      BigEndianAt(count, 8, k);
    }
  }

  lemma {:induction false} BigEndianAt(n: nat, width: nat, k: nat)
    requires k < width
    ensures BigEndian(n, width)[k] == (n / Pow256(width - 1 - k) % 256) as octet
  {
    if k < width - 1 {
      BigEndianAt(n / 256, width - 1, k);
      DivDiv(n, 256, Pow256(width - 2 - k));
    }
  }

  lemma {:induction false} BigEndianWraps(n: nat, q: nat, width: nat)
    ensures BigEndian(n + q * Pow256(width), width) == BigEndian(n, width)
  {
    if width > 0 {
      AddMultiple(n, q, Pow256(width - 1));
      BigEndianWraps(n / 256, q, width - 1);
    }
  }

  /** The wrapped counter still gives the length field of the standard, whatever the length. */
  lemma LengthFieldWraps(count: nat, n: nat, wraps: nat)
    requires Counts(count, n, wraps)
    ensures BigEndian(count, 8) == BigEndian(8 * n, 8)
  {
    BigEndianWraps(count, wraps, 8);
  }
}
