/** The streaming interface of SHA-256 (sha2.c): however a message is split, the digest is the hash of the
    whole. */
module Sha256Context {
  import opened Sha256
  import opened Sha256Transform
  import opened Pieces

  /** The bytes that n bytes have in complete blocks. */
  function Full(n: nat): (k: nat)
    ensures k % 64 == 0 && k <= n < k + 64
  {
    n - n % 64
  }

  lemma FullIs(n: nat, k: nat)
    requires k % 64 == 0 && k <= n < k + 64
    ensures Full(n) == k
  {
  }

  /** What a 64-bit counter keeps of the number of bits in n bytes. */
  function BitCount(n: nat): nat {
    8 * n % 0x1_0000_0000_0000_0000
  }

  /** bitcount += n << 3. */
  function Counted(bits: nat, n: nat): nat {
    (bits + 8 * n) % 0x1_0000_0000_0000_0000
  }

  lemma CountedMore(n: nat, k: nat)
    ensures Counted(BitCount(n), k) == BitCount(n + k)
  {
  }

  /** (bitcount >> 3) % 64. */
  function Used(bits: nat): nat {
    bits / 8 % 64
  }

  /** The counter tells the place in the block, even after it has wrapped around. */
  lemma UsedIs(n: nat)
    ensures Used(BitCount(n)) == n - Full(n)
  {
    var q, t := n / 0x2000_0000_0000_0000, n % 0x2000_0000_0000_0000;
    assert BitCount(n) == 8 * t by {
      assert 8 * n == 0x1_0000_0000_0000_0000 * q + 8 * t;
    }
    SamePlace(n, q, t);
    hide BitCount;
    assert Used(8 * t) == t % 64;
  }

  lemma SamePlace(n: nat, q: nat, t: nat)
    requires n == 0x2000_0000_0000_0000 * q + t
    ensures t % 64 == n % 64
  {
    assert n == 64 * (0x80_0000_0000_0000 * q) + t;
  }

  /** memset(&a[lo], 0, hi - lo). */
  method Zero(a: array<bv8>, lo: nat, hi: nat)
    requires lo <= hi <= a.Length
    modifies a
    ensures a[..] == old(a[..lo]) + Zeros(hi - lo) + old(a[hi..])
  {
    forall i | lo <= i < hi {
      a[i] := 0;
    }
  }

  class Sha256State {
    const state: array<bv32>
    const buffer: array<bv8>
    var bitcount: nat

    predicate Sized() {
      state.Length == 8 && buffer.Length == 64
    }

    /** The context has been given m. */
    ghost predicate Absorbed(m: seq<bv8>)
      reads this, state, buffer
    {
      var k := Full(|m|);
      && Sized()
      && bitcount == BitCount(|m|)
      && buffer[..|m| - k] == m[k..]
      && Hv(state) == HashBlocks(INITIAL, m[..k])
    }

    /** SHA256Init. */
    constructor ()
      ensures fresh(state) && fresh(buffer) && (buffer as object) != state && Absorbed([])
    {
      hide INITIAL;
      state := new bv32[8];
      buffer := new bv8[64](_ => 0);
      bitcount := 0;
      new;
      SetHash(INITIAL);
      FullIs(0, 0);
      HashNothing();
    }

    method SetHash(r: Regs)
      requires state.Length == 8
      modifies state
      ensures Hv(state) == r
    {
      state[0], state[1], state[2], state[3] := r.a, r.b, r.c, r.d;
      state[4], state[5], state[6], state[7] := r.e, r.f, r.g, r.h;
    }

    /** SHA256Update. */
    method Update(ghost m: seq<bv8>, data: seq<bv8>)
      requires Absorbed(m) && (buffer as object) != state
      modifies this`bitcount, state, buffer
      ensures Absorbed(m + data)
    {
      hide HashBlocks, INITIAL, Compress, Full, Used, BitCount, Counted;
      ghost var whole, k := m + data, Full(|m|);
      if |data| == 0 {
        assert whole == m;
        return;
      }
      SliceOfSum(m, data, k, 0);
      UsedIs(|m|);
      var used := Used(bitcount);
      var rest := data;
      if used > 0 {
        var free := 64 - used;
        if |data| >= free {
          SliceOfSum(m, data, k, free);
          Append(buffer, used, data[..free]);
          CountedMore(|m|, free);
          bitcount := Counted(bitcount, free);
          rest := data[free..];
          HashMore(whole, k, buffer[..]);
          TransformUnrolled(state, buffer[..]);
          k := k + 64;
        } else {
          SliceOfSum(m, data, k, |data|);
          Append(buffer, used, data);
          CountedMore(|m|, |data|);
          bitcount := Counted(bitcount, |data|);
          FullIs(|whole|, k);
          assert whole[k..|m| + |data|] == whole[k..];
          return;
        }
      }
      assert whole[k..] == rest;
      Blocks(whole, k, rest);
    }

    /** The part of SHA256Update after the buffer is empty; the message is settled up to place k. */
    method Blocks(ghost whole: seq<bv8>, ghost k: nat, data: seq<bv8>)
      requires Sized() && (buffer as object) != state
      requires k % 64 == 0 && k <= |whole| && whole[k..] == data
      requires bitcount == BitCount(k) && Hv(state) == HashBlocks(INITIAL, whole[..k])
      modifies this`bitcount, state, buffer
      ensures Absorbed(whole)
    {
      hide HashBlocks, INITIAL, Compress, Full, BitCount, Counted;
      ghost var j := k;
      var pos, len: nat := 0, |data|;
      while len >= 64
        invariant pos + len == |data| && j == k + pos && j % 64 == 0
        invariant bitcount == BitCount(j) && Hv(state) == HashBlocks(INITIAL, whole[..j])
        modifies this`bitcount, state
      {
        HashMore(whole, j, data[pos..pos + 64]);
        TransformUnrolled(state, data[pos..pos + 64]);
        CountedMore(j, 64);
        bitcount := Counted(bitcount, 64);
        pos := pos + 64;
        len := len - 64;
        j := j + 64;
      }
      FullIs(|whole|, j);
      if len > 0 {
        Append(buffer, 0, data[pos..]);
        CountedMore(j, len);
        bitcount := Counted(bitcount, len);
      }
      assert buffer[..len] == data[pos..] == whole[j..];
    }

    /** The padding of SHA256Final up to the length field; first is the block that did not leave room for the
        length and has been processed, if there was one. */
    method Pad(ghost m: seq<bv8>) returns (ghost first: seq<bv8>)
      requires Absorbed(m) && (buffer as object) != state
      modifies state, buffer
      ensures |m| - Full(|m|) <= 55 ==> first == [] && Hv(state) == old(Hv(state))
      ensures |m| - Full(|m|) <= 55 ==> buffer[..56] == m[Full(|m|)..] + [0x80] + Zeros(55 - (|m| - Full(|m|)))
      ensures |m| - Full(|m|) > 55 ==> first == m[Full(|m|)..] + [0x80] + Zeros(63 - (|m| - Full(|m|)))
      ensures |m| - Full(|m|) > 55 ==> buffer[..56] == Zeros(56) && Hv(state) == Compress(old(Hv(state)), first)
    {
      hide HashBlocks, INITIAL, Compress, Full, Used, BitCount, Zeros;
      UsedIs(|m|);
      var used := Used(bitcount);
      first := [];
      if used > 0 {
        buffer[used] := 0x80;
        used := used + 1;
        assert buffer[..used] == m[Full(|m|)..] + [0x80];
        if used <= 56 {
          Zero(buffer, used, 56);
        } else {
          Zero(buffer, used, 64);
          assert buffer[..] == m[Full(|m|)..] + [0x80] + Zeros(64 - used);
          first := buffer[..];
          TransformUnrolled(state, buffer[..]);
          Zero(buffer, 0, 56);
        }
      } else {
        Zero(buffer, 0, 56);
        buffer[0] := 0x80;
        ZerosAt(56);
        ZerosAt(55);
      }
    }

    /** SHA256Final; the context is wiped. */
    method Final(ghost m: seq<bv8>, digest: array<bv8>)
      requires Absorbed(m) && |m| < 0x2000_0000_0000_0000
      requires (buffer as object) != state && digest != buffer && (digest as object) != state && digest.Length == 32
      modifies this`bitcount, state, buffer, digest
      ensures digest[..] == Hash(m)
      ensures bitcount == 0 && Hv(state) == Regs(0, 0, 0, 0, 0, 0, 0, 0)
      ensures buffer[..] == Zeros(64)
    {
      hide HashBlocks, INITIAL, Compress, Full, BitCount, Padded, DigestBytes, Zeros, Be64;
      ghost var first := Pad(m);
      Append(buffer, 56, Be64(bitcount));
      assert buffer[..64] == buffer[..];
      ShortCount(|m|);
      LastBlocks(m, first, buffer[..]);
      TransformUnrolled(state, buffer[..]);
      assert Hv(state) == HashBlocks(INITIAL, Padded(m));
      Output(digest);
    }

    /** The end of SHA256Final. */
    method Output(digest: array<bv8>)
      requires Sized() && (buffer as object) != state && digest != buffer && (digest as object) != state
      requires digest.Length == 32
      modifies this`bitcount, state, buffer, digest
      ensures digest[..] == DigestBytes(old(Hv(state)))
      ensures bitcount == 0 && Hv(state) == Regs(0, 0, 0, 0, 0, 0, 0, 0)
      ensures buffer[..] == Zeros(64)
    {
      hide DigestBytes, Zeros;
      var d := DigestBytes(Hv(state));
      forall i | 0 <= i < 32 {
        digest[i] := d[i];
      }
      assert digest[..] == d;
      SetHash(Regs(0, 0, 0, 0, 0, 0, 0, 0));
      Zero(buffer, 0, 64);
      bitcount := 0;
    }
  }

  lemma HashNothing()
    ensures HashBlocks(INITIAL, []) == INITIAL
  {
  }

  lemma HashMore(m: seq<bv8>, k: nat, b: seq<bv8>)
    requires k % 64 == 0 && |b| == 64 && k + 64 <= |m| && m[k..k + 64] == b
    ensures HashBlocks(INITIAL, m[..k + 64]) == Compress(HashBlocks(INITIAL, m[..k]), b)
  {
    hide HashBlocks, INITIAL, Compress;
    HashStep(INITIAL, m[..k], b);
    assert m[..k] + b == m[..k + 64];
  }

  lemma ZerosAt(n: nat)
    ensures forall i :: 0 <= i < n ==> Zeros(n)[i] == 0
  {
  }

  lemma ShortCount(n: nat)
    requires n < 0x2000_0000_0000_0000
    ensures BitCount(n) == 8 * n
  {
  }

  lemma ZerosAdd(j: nat, k: nat)
    ensures Zeros(j) + Zeros(k) == Zeros(j + k)
  {
  }

  /** The padding fits into the last block. */
  lemma OneBlock(m: seq<bv8>, k: nat, b: seq<bv8>)
    requires k == Full(|m|) && |m| - k <= 55
    requires b == m[k..] + [0x80] + Zeros(55 - (|m| - k)) + Be64(8 * |m|)
    ensures HashBlocks(INITIAL, Padded(m)) == Compress(HashBlocks(INITIAL, m[..k]), b)
  {
    hide HashBlocks, INITIAL, Compress, Zeros, Be64;
    assert ZeroCount(|m|) == 55 - (|m| - k);
    assert Padded(m) == m[..k] + b;
    HashStep(INITIAL, m[..k], b);
  }

  /** The padding takes one more block. */
  lemma TwoBlocks(m: seq<bv8>, k: nat, b: seq<bv8>, c: seq<bv8>)
    requires k == Full(|m|) && |m| - k > 55
    requires b == m[k..] + [0x80] + Zeros(63 - (|m| - k))
    requires c == Zeros(56) + Be64(8 * |m|)
    ensures HashBlocks(INITIAL, Padded(m)) == Compress(Compress(HashBlocks(INITIAL, m[..k]), b), c)
  {
    hide HashBlocks, INITIAL, Compress, Zeros, Be64;
    assert ZeroCount(|m|) == 63 - (|m| - k) + 56;
    ZerosAdd(63 - (|m| - k), 56);
    assert Padded(m) == m[..k] + b + c;
    HashStep(INITIAL, m[..k], b);
    HashStep(INITIAL, m[..k] + b, c);
  }

  /** What Pad and the length field leave to process completes the hash of the padded message. */
  lemma LastBlocks(m: seq<bv8>, first: seq<bv8>, last: seq<bv8>)
    requires |last| == 64
    requires |m| - Full(|m|) <= 55 ==>
      first == [] && last == m[Full(|m|)..] + [0x80] + Zeros(55 - (|m| - Full(|m|))) + Be64(8 * |m|)
    requires |m| - Full(|m|) > 55 ==>
      first == m[Full(|m|)..] + [0x80] + Zeros(63 - (|m| - Full(|m|))) && last == Zeros(56) + Be64(8 * |m|)
    ensures var h := HashBlocks(INITIAL, m[..Full(|m|)]);
      HashBlocks(INITIAL, Padded(m)) == if first == [] then Compress(h, last) else Compress(Compress(h, first), last)
  {
    hide HashBlocks, INITIAL, Compress, Zeros, Be64, Padded;
    var k := Full(|m|);
    if |m| - k <= 55 {
      OneBlock(m, k, last);
    } else {
      TwoBlocks(m, k, first, last);
    }
  }

  // ---------------------------------------------------------------------------------------------
  // Every split of a message gives the same digest

  method DigestOfPieces(pieces: seq<seq<bv8>>) returns (digest: seq<bv8>)
    requires |Concat(pieces)| < 0x2000_0000_0000_0000
    ensures digest == Hash(Concat(pieces))
  {
    hide Hash, Full, BitCount, HashBlocks, INITIAL;
    var ctx := new Sha256State();
    for i := 0 to |pieces|
      invariant fresh(ctx) && fresh(ctx.state) && fresh(ctx.buffer) && (ctx.buffer as object) != ctx.state
      invariant ctx.Absorbed(Concat(pieces[..i]))
    {
      ConcatStep(pieces, i);
      ctx.Update(Concat(pieces[..i]), pieces[i]);
    }
    assert pieces[..|pieces|] == pieces;
    var out := new bv8[32](_ => 0);
    ctx.Final(Concat(pieces), out);
    return out[..];
  }
}
