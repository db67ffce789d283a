/** The secure hash algorithm SHA-1 as FIPS 180-4 defines it: the reference that `Sha1` is proved against. */
module Fips180 {
  type octet = bv8
  type word = bv32

  datatype Regs = Regs(a: word, b: word, c: word, d: word, e: word)

  // Section 3.2: rotation by n bits.
  function Rotl(x: word, n: bv6): word
    requires 0 < n < 32
  {
    (x << n) | (x >> (32 - n))
  }

  // Section 4.1.1.
  function Ch(x: word, y: word, z: word): word { (x & y) ^ (!x & z) }

  function Parity(x: word, y: word, z: word): word { x ^ y ^ z }

  function Maj(x: word, y: word, z: word): word { (x & y) ^ (x & z) ^ (y & z) }

  function F(t: nat, x: word, y: word, z: word): word {
    if t < 20 then Ch(x, y, z)
    else if t < 40 then Parity(x, y, z)
    else if t < 60 then Maj(x, y, z)
    else Parity(x, y, z)
  }

  // Section 4.2.1.
  function K(t: nat): word {
    if t < 20 then 0x5A827999
    else if t < 40 then 0x6ED9EBA1
    else if t < 60 then 0x8F1BBCDC
    else 0xCA62C1D6
  }

  // Section 5.3.1.
  const INITIAL_HASH := Regs(0x67452301, 0xEFCDAB89, 0x98BADCFE, 0x10325476, 0xC3D2E1F0)

  function Sum(rotated: word, f: word, e: word, k: word, w: word): word {
    rotated + f + e + k + w
  }

  // Section 6.1.2, step 3: one turn of the loop over t, given the values of f_t, K_t and W_t.
  function Round(r: Regs, f: word, k: word, w: word): Regs {
    Regs(Sum(Rotl(r.a, 5), f, r.e, k, w), r.a, Rotl(r.b, 30), r.c, r.d)
  }

  /** The working variables after the first |w| turns, given the schedule words those turns use. */
  function Rounds(r: Regs, w: seq<word>): Regs {
    if w == [] then r
    else
      var t := |w| - 1;
      var p := Rounds(r, w[..t]);
      Round(p, F(t, p.b, p.c, p.d), K(t), w[t])
  }

  // Section 3.1: a word is stored most significant byte first.
  function BigEndianWord(b: seq<octet>): word
    requires |b| == 4
  {
    (b[0] as word << 24) | (b[1] as word << 16) | (b[2] as word << 8) | b[3] as word
  }

  function BlockWord(block: seq<octet>, t: nat): word
    requires |block| == 64 && t < 16
  {
    BigEndianWord(block[4 * t..4 * t + 4])
  }

  function Expand(w3: word, w8: word, w14: word, w16: word): word {
    Rotl(w3 ^ w8 ^ w14 ^ w16, 1)
  }

  // Section 6.1.2, step 1: the first n words of the message schedule.
  function Schedule(block: seq<octet>, n: nat): (w: seq<word>)
    requires |block| == 64
    ensures |w| == n
    decreases block, n
  {
    if n == 0 then []
    else
      var p := Schedule(block, n - 1);
      p + [if n <= 16 then BlockWord(block, n - 1)
           else Expand(p[n - 4], p[n - 9], p[n - 15], p[n - 17])]
  }

  // Section 3.2: addition modulo 2^32.
  function Add(x: word, y: word): word { x + y }

  function AddRegs(x: Regs, y: Regs): Regs {
    Regs(Add(x.a, y.a), Add(x.b, y.b), Add(x.c, y.c), Add(x.d, y.d), Add(x.e, y.e))
  }

  const ROUND_COUNT: nat := 80

  // Section 6.1.2: the hash value after one more block.
  function Compress(h: Regs, block: seq<octet>): Regs
    requires |block| == 64
  {
    AddRegs(h, Rounds(h, Schedule(block, ROUND_COUNT)))
  }

  function HashBlocks(h: Regs, bytes: seq<octet>): Regs
    requires |bytes| % 64 == 0
  {
    if bytes == [] then h
    else
      var n := |bytes| - 64;
      Compress(HashBlocks(h, bytes[..n]), bytes[n..])
  }

  // The length field of section 5.1.1: the low `width` bytes of n, most significant first.
  function BigEndian(n: nat, width: nat): (s: seq<octet>)
    ensures |s| == width
    decreases n, width
  {
    if width == 0 then [] else BigEndian(n / 256, width - 1) + [(n % 256) as octet]
  }

  function Zeros(k: nat): (s: seq<octet>)
    ensures |s| == k
    ensures forall i :: 0 <= i < k ==> s[i] == 0
  {
    seq(k, _ => 0)
  }

  // Section 5.1.1: the number of zero bytes is the least that leaves room for the length.
  function ZeroCount(length: nat): (k: nat)
    ensures k < 64
    ensures (length + 1 + k) % 64 == 56
  {
    var r := length % 64;
    if r < 56 then 55 - r else 119 - r
  }

  function Padded(message: seq<octet>): (p: seq<octet>)
    ensures |p| % 64 == 0
  {
    PaddedLength(|message|);
    message + [0x80] + Zeros(ZeroCount(|message|)) + BigEndian(8 * |message|, 8)
  }

  lemma PaddedLength(length: nat)
    ensures (length + 1 + ZeroCount(length) + 8) % 64 == 0
  {
  }

  function WordOf(h: Regs, i: nat): word
    requires i < 5
  {
    if i == 0 then h.a else if i == 1 then h.b else if i == 2 then h.c else if i == 3 then h.d else h.e
  }

  // (3 - k) * 8
  function OctetShift(k: nat): bv6
    requires k < 4
  {
    if k == 0 then 24 else if k == 1 then 16 else if k == 2 then 8 else 0
  }

  function OctetOf(w: word, k: nat): octet
    requires k < 4
  {
    ((w >> OctetShift(k)) & 255) as octet
  }

  function HashBytes(h: Regs): (s: seq<octet>)
    ensures |s| == 20
  {
    seq(20, i requires 0 <= i < 20 => OctetOf(WordOf(h, i / 4), i % 4))
  }

  /** The message digest.  FIPS 180-4 defines it for messages shorter than 2^64 bits. */
  function Sha1(message: seq<octet>): (digest: seq<octet>)
    ensures |digest| == 20
  {
    HashBytes(HashBlocks(INITIAL_HASH, Padded(message)))
  }

  // ---------------------------------------------------------------- the octets of the digest

  lemma ShiftsJoin(w: word)
    ensures (((w >> 24) & 255) << 24) | (((w >> 16) & 255) << 16) | (((w >> 8) & 255) << 8) | (w & 255) == w
  {
  }

  lemma FirstOctet(w: word)
    ensures OctetOf(w, 0) as word == (w >> 24) & 255
  {
  }

  lemma SecondOctet(w: word)
    ensures OctetOf(w, 1) as word == (w >> 16) & 255
  {
  }

  lemma ThirdOctet(w: word)
    ensures OctetOf(w, 2) as word == (w >> 8) & 255
  {
  }

  lemma FourthOctet(w: word)
    ensures OctetOf(w, 3) as word == w & 255
  {
  }

  lemma OctetsOfWord(w: word)
    ensures BigEndianWord([OctetOf(w, 0), OctetOf(w, 1), OctetOf(w, 2), OctetOf(w, 3)]) == w
  {
    hide OctetOf;
    FirstOctet(w);
    SecondOctet(w);
    ThirdOctet(w);
    FourthOctet(w);
    ShiftsJoin(w);
  }

  /** The digest holds the words of the hash value, most significant octet first. */
  lemma DigestWords(h: Regs, i: nat)
    requires i < 5
    ensures BigEndianWord(HashBytes(h)[4 * i..4 * i + 4]) == WordOf(h, i)
  {
    hide BigEndianWord, OctetOf, WordOf;
    var d, w := HashBytes(h), WordOf(h, i);
    assert d[4 * i..4 * i + 4] == [OctetOf(w, 0), OctetOf(w, 1), OctetOf(w, 2), OctetOf(w, 3)];
    OctetsOfWord(w);
  }

  // ---------------------------------------------------------------- the operations on words

  // A rotation is turned back by the rest of the full turn, and carries the lowest bit up.

  lemma RotationBy1(x: word)
    ensures Rotl(Rotl(x, 1), 31) == x && Rotl(1, 1) == 2
  {
  }

  lemma RotationBy5(x: word)
    ensures Rotl(Rotl(x, 5), 27) == x && Rotl(1, 5) == 32
  {
  }

  lemma RotationBy30(x: word)
    ensures Rotl(Rotl(x, 30), 2) == x && Rotl(1, 30) == 0x4000_0000
  {
  }

  /** The expansion takes all four words, bit by bit, and turns the result by one bit. */
  lemma ExpansionIsLinear(w3: word, w8: word, w14: word, w16: word)
    ensures Expand(w3, w8, w14, w16) == Rotl(w3, 1) ^ Rotl(w8, 1) ^ Rotl(w14, 1) ^ Rotl(w16, 1)
  {
  }
}
