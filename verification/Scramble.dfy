/** The password reply of src/connect.cc and the check a server makes of it. */
module Scramble {
  import opened Fips180
  import opened Sha1Code

  datatype Ret = Ok | NoScramble

  function Xor(a: seq<octet>, b: seq<octet>): (r: seq<octet>)
    requires |a| == |b|
    ensures |r| == |a|
  {
    seq(|a|, i requires 0 <= i < |a| => a[i] ^ b[i])
  }

  function Reply(pass: seq<octet>, scramble: seq<octet>): (r: seq<octet>)
    ensures |r| == 20
  {
    Xor(Sha1(scramble + Sha1(Sha1(pass))), Sha1(pass))
  }

  /** The server stores SHA1(SHA1(password)).  It undoes the mask and hashes what it finds once more. */
  predicate ServerAccepts(stored: seq<octet>, scramble: seq<octet>, reply: seq<octet>)
    requires |reply| == 20
  {
    Sha1(Xor(reply, Sha1(scramble + stored))) == stored
  }

  lemma XorBits(x: octet, y: octet, z: octet)
    ensures (x ^ y) ^ x == y
    ensures x ^ y == z <==> x == z ^ y
  {
  }

  lemma Unmask(mask: seq<octet>, secret: seq<octet>)
    requires |mask| == |secret|
    ensures Xor(Xor(mask, secret), mask) == secret
  {
    forall i | 0 <= i < |mask| ensures Xor(Xor(mask, secret), mask)[i] == secret[i] {
      XorBits(mask[i], secret[i], 0);
    }
  }

  lemma UnmaskOnly(mask: seq<octet>, secret: seq<octet>, reply: seq<octet>)
    requires |mask| == |secret| == |reply|
    ensures Xor(reply, mask) == secret <==> reply == Xor(mask, secret)
  {
    Unmask(mask, secret);
    if Xor(reply, mask) == secret {
      forall i | 0 <= i < |mask| ensures reply[i] == Xor(mask, secret)[i] {
        assert Xor(reply, mask)[i] == secret[i];
        XorBits(reply[i], mask[i], secret[i]);
      }
    }
  }

  /** For every password and scramble the server accepts the reply of a client that knows the password. */
  lemma OwnReplyIsAccepted(pass: seq<octet>, scramble: seq<octet>)
    ensures ServerAccepts(Sha1(Sha1(pass)), scramble, Reply(pass, scramble))
  {
    Unmask(Sha1(scramble + Sha1(Sha1(pass))), Sha1(pass));
  }

  /** No other twenty bytes unmask to SHA1(password). */
  lemma OnlyReplyRevealsHash(pass: seq<octet>, scramble: seq<octet>, reply: seq<octet>)
    requires |reply| == 20
    ensures Xor(reply, Sha1(scramble + Sha1(Sha1(pass)))) == Sha1(pass) <==> reply == Reply(pass, scramble)
  {
    UnmaskOnly(Sha1(scramble + Sha1(Sha1(pass))), Sha1(pass), reply);
  }

  method Digest(ctx: Context, first: seq<octet>, second: seq<octet>, digest: array<octet>)
    requires ctx.Shaped() && digest != ctx.buffer && digest.Length >= 20
    requires |first| < UINT32 && |second| < UINT32 - 64
    modifies ctx`count, ctx`message, ctx`blocks, ctx`wraps, ctx.state, ctx.buffer, digest
    ensures ctx.Shaped()
    ensures digest[..20] == Sha1(first + second) && digest[20..] == old(digest[20..])
  {
    ctx.Init();
    ctx.Update(first);
    ctx.Update(second);
    assert [] + first == first;
    ctx.Final(digest);
  }

  // Double hash the password.
  method DoubleHash(ctx: Context, pass: seq<octet>) returns (stage1: array<octet>, stage2: array<octet>)
    requires ctx.Shaped() && |pass| < UINT32
    modifies ctx`count, ctx`message, ctx`blocks, ctx`wraps, ctx.state, ctx.buffer
    ensures ctx.Shaped() && fresh(stage1) && fresh(stage2)
    ensures stage1[..] == Sha1(pass) && stage2[..] == Sha1(Sha1(pass))
  {
    stage1 := new octet[20];
    stage2 := new octet[20];
    Digest(ctx, pass, [], stage1);
    assert pass + [] == pass && stage1[..] == stage1[..20];
    Digest(ctx, stage1[..], [], stage2);
    assert Sha1(pass) + [] == Sha1(pass) && stage2[..] == stage2[..20];
  }

  /** pass holds the bytes of the password up to its terminator; scramble holds the 20 bytes the server sent. */
  method ScramblePassword(pass: seq<octet>, scramble: seq<octet>, buffer: array<octet>) returns (ret: Ret)
    requires |pass| < UINT32 && |scramble| == 20 && buffer.Length >= 20
    modifies buffer
    ensures ret == (if scramble[0] == 0 then NoScramble else Ok)
    ensures scramble[0] == 0 ==> buffer[..] == old(buffer[..])
    ensures scramble[0] != 0 ==> buffer[..20] == Reply(pass, scramble) && buffer[20..] == old(buffer[20..])
  {
    if scramble[0] == 0 {
      return NoScramble;
    }
    var ctx := new Context();
    var stage1, stage2 := DoubleHash(ctx, pass);
    // Hash the scramble with the double hash, then XOR the hash with the stage1 hash.
    Digest(ctx, scramble, stage2[..], buffer);
    XorInto(buffer, stage1[..]);
    return Ok;
  }

  method XorInto(buffer: array<octet>, stage1: seq<octet>)
    requires |stage1| == 20 <= buffer.Length
    modifies buffer
    ensures buffer[..20] == Xor(old(buffer[..20]), stage1) && buffer[20..] == old(buffer[20..])
  {
    ghost var mask := buffer[..20];
    for it := 0 to 20
      invariant buffer[20..] == old(buffer[20..])
      invariant forall k :: 0 <= k < it ==> buffer[k] == Xor(mask, stage1)[k]
      invariant forall k :: it <= k < 20 ==> buffer[k] == mask[k]
    {
      buffer[it] := buffer[it] ^ stage1[it];
    }
    assert buffer[..20] == Xor(mask, stage1);
  }
}
