/** Poly1305 (poly1305.c, RFC 8439 section 2.5): the streaming state computes the tag of everything it was
    given, however the message was split. */
module Poly1305 {
  import opened Poly1305Limbs
  import opened Poly1305Bytes
  import opened Pieces
  import NatBits

  const HIBIT: nat := 0x1_0000_0000_0000_0000_0000_0000_0000_0000

  // ---------------------------------------------------------------------------------------------
  // RFC 8439, section 2.5

  /** The accumulator after complete blocks: each is read as a number, with hi added above it. */
  function Fold(acc: nat, r: nat, m: seq<Octet>, hi: nat): nat
    requires |m| % 16 == 0
  {
    if m == [] then acc
    else
      Times(Fold(acc, r, m[..|m| - 16], hi) + Num(m[|m| - 16..]) + hi, r)
        % 0x3_ffff_ffff_ffff_ffff_ffff_ffff_ffff_fffb
  }

  /** The bytes that n bytes have in complete blocks. */
  function Full(n: nat): (k: nat)
    ensures k % 16 == 0 && k <= n < k + 16
  {
    n - n % 16
  }

  lemma FullIs(n: nat, k: nat)
    requires k % 16 == 0 && k <= n < k + 16
    ensures Full(n) == k
  {
  }

  /** The accumulator after the whole message: one more byte, 1, is put after every block, the last and
      shorter one included. */
  function Accumulated(r: nat, m: seq<Octet>): nat {
    var k := Full(|m|);
    var acc := Fold(0, r, m[..k], HIBIT);
    if k == |m| then acc
    else Times(acc + Num(m[k..] + [1]), r) % 0x3_ffff_ffff_ffff_ffff_ffff_ffff_ffff_fffb
  }

  /** The tag as a number. */
  function Tag(key: seq<Octet>, m: seq<Octet>): nat
    requires |key| == 32
  {
    (Accumulated(Num(Clamped(key[..16])), m) + Num(key[16..])) % 0x1_0000_0000_0000_0000_0000_0000_0000_0000
  }

  // ---------------------------------------------------------------------------------------------
  // One block

  /** h += m[i], the top limb with the bit above the block. */
  function Added(h: Limbs, m: seq<Octet>, hibit: nat): Limbs
    requires |m| == 16
  {
    var b := BlockLimbs(m);
    Limbs(U64(h.l0 + b.l0), U64(h.l1 + b.l1), U64(h.l2 + b.l2), U64(h.l3 + b.l3), U64(h.l4 + NatBits.Or(b.l4, hibit)))
  }

  lemma HibitAdds(x: nat, final: bool)
    requires x < 0x100_0000
    ensures NatBits.Or(x, if final then 0 else 0x100_0000) == x + if final then 0 else 0x100_0000
  {
    hide NatBits.Or, NatBits.Pow2;
    NatBits.Powers();
    NatBits.OrShifted(x, 1, 24);
    NatBits.OrZero(x);
  }

  lemma AddedValue(h: Limbs, m: seq<Octet>, final: bool)
    requires Reduced(h) && |m| == 16
    ensures var a := Added(h, m, if final then 0 else 0x100_0000);
      Loose(a) && Value(a) == Value(h) + Num(m) + if final then 0 else HIBIT
  {
    hide BlockLimbs, U64, NatBits.Or, Num;
    BlockValue(m);
    var b := BlockLimbs(m);
    HibitAdds(b.l4, final);
    Fits(h.l0 + b.l0);
    Fits(h.l1 + b.l1);
    Fits(h.l2 + b.l2);
    Fits(h.l3 + b.l3);
    Fits(h.l4 + b.l4 + if final then 0 else 0x100_0000);
  }

  /** h after one block. */
  function Next(h: Limbs, r: Limbs, m: seq<Octet>, hibit: nat): Limbs
    requires |m| == 16
  {
    Carried(Products(Added(h, m, hibit), r))
  }

  lemma ModuloP(x: nat, y: nat, k: nat)
    requires x == y + 0x3_ffff_ffff_ffff_ffff_ffff_ffff_ffff_fffb * k
    ensures x % 0x3_ffff_ffff_ffff_ffff_ffff_ffff_ffff_fffb == y % 0x3_ffff_ffff_ffff_ffff_ffff_ffff_ffff_fffb
  {
  }

  lemma TimesModuloP(v: nat, n: nat, r: nat)
    ensures Times(v + n, r) % 0x3_ffff_ffff_ffff_ffff_ffff_ffff_ffff_fffb
         == Times(v % 0x3_ffff_ffff_ffff_ffff_ffff_ffff_ffff_fffb + n, r) % 0x3_ffff_ffff_ffff_ffff_ffff_ffff_ffff_fffb
  {
    var a, q := v % 0x3_ffff_ffff_ffff_ffff_ffff_ffff_ffff_fffb, v / 0x3_ffff_ffff_ffff_ffff_ffff_ffff_ffff_fffb;
    assert v + n == (a + n) + 0x3_ffff_ffff_ffff_ffff_ffff_ffff_ffff_fffb * q;
    TimesCommutes(v + n, r);
    TimesCommutes(a + n, r);
    TimesPlus(r, a + n, 0x3_ffff_ffff_ffff_ffff_ffff_ffff_ffff_fffb * q);
    TimesScaled(r, 0x3_ffff_ffff_ffff_ffff_ffff_ffff_ffff_fffb, q);
    hide Times;
    ModuloP(Times(v + n, r), Times(a + n, r), Times(r, q));
  }

  lemma TimesPlus(x: nat, y: nat, z: nat)
    ensures Times(x, y + z) == Times(x, y) + Times(x, z)
  {
  }

  /** One block, modulo P. */
  lemma NextValue(h: Limbs, r: Limbs, m: seq<Octet>, final: bool)
    requires Reduced(h) && Small(r) && |m| == 16
    ensures var h' := Next(h, r, m, if final then 0 else 0x100_0000);
      Reduced(h')
      && Value(h') % 0x3_ffff_ffff_ffff_ffff_ffff_ffff_ffff_fffb
         == Times(Value(h) % 0x3_ffff_ffff_ffff_ffff_ffff_ffff_ffff_fffb + Num(m) + (if final then 0 else HIBIT),
                  Value(r))
            % 0x3_ffff_ffff_ffff_ffff_ffff_ffff_ffff_fffb
  {
    hide Added, Products, Exact, Carried, Value, Times, Num, Overflow;
    var a := Added(h, m, if final then 0 else 0x100_0000);
    AddedValue(h, m, final);
    ProductsExact(a, r);
    ExactBounded(a, r);
    ExactIsProduct(a, r);
    var d := Exact(a, r);
    var k := CarriedValue(d);
    ModuloP(Times(Value(a), Value(r)), Value(Carried(d)), k + Overflow(a, r));
    TimesModuloP(Value(h), Num(m) + if final then 0 else HIBIT, Value(r));
  }

  lemma FoldStep(acc: nat, r: nat, m: seq<Octet>, b: seq<Octet>, hi: nat)
    requires |m| % 16 == 0 && |b| == 16
    ensures Fold(acc, r, m + b, hi)
         == Times(Fold(acc, r, m, hi) + Num(b) + hi, r) % 0x3_ffff_ffff_ffff_ffff_ffff_ffff_ffff_fffb
  {
    hide Times, Num;
    var n := m + b;
    assert n[..|n| - 16] == m && n[|n| - 16..] == b;
  }

  // ---------------------------------------------------------------------------------------------
  // The code

  class Poly1305State {
    var r: Limbs
    var h: Limbs
    var pad: (nat, nat, nat, nat)
    var leftover: nat
    const buffer: array<Octet>
    var final: bool

    ghost predicate Valid(key: seq<Octet>)
      reads this
    {
      && |key| == 32 && buffer.Length == 16
      && r == KeyLimbs(key[..16]) && Small(r) && Value(r) == Num(Clamped(key[..16]))
      && Word32s(pad) && WordsValue(pad) == Num(key[16..])
      && Reduced(h) && !final
    }

    /** The state has been given m: h is the accumulator over the complete blocks, the rest waits. */
    ghost predicate Absorbed(key: seq<Octet>, m: seq<Octet>)
      reads this, buffer
    {
      var k := Full(|m|);
      && Valid(key)
      && leftover == |m| - k
      && buffer[..leftover] == m[k..]
      && Value(h) % 0x3_ffff_ffff_ffff_ffff_ffff_ffff_ffff_fffb == Fold(0, Value(r), m[..k], HIBIT)
    }

    /** poly1305_init. */
    constructor (key: seq<Octet>)
      requires |key| == 32
      ensures fresh(buffer) && Absorbed(key, [])
    {
      hide KeyLimbs, Num, Clamped, Value, Small, U8to32, Fold, Full, Word32s, WordsValue;
      r := KeyLimbs(key[..16]);
      h := Limbs(0, 0, 0, 0, 0);
      pad := (U8to32(key, 16), U8to32(key, 20), U8to32(key, 24), U8to32(key, 28));
      buffer := new Octet[16](_ => 0);
      leftover := 0;
      final := false;
      new;
      KeyIsClamped(key);
      FoldNothing(0, Value(r), HIBIT);
      ZeroValue();
      FullIs(0, 0);
    }

    /** poly1305_blocks: the complete blocks among the given bytes. */
    method Blocks(m: seq<Octet>, ghost acc: nat)
      requires Reduced(h) && Small(r)
      requires Value(h) % 0x3_ffff_ffff_ffff_ffff_ffff_ffff_ffff_fffb == acc
      modifies `h
      ensures Reduced(h)
      ensures Value(h) % 0x3_ffff_ffff_ffff_ffff_ffff_ffff_ffff_fffb
           == Fold(acc, Value(r), m[..Full(|m|)], if final then 0 else HIBIT)
    {
      hide Next, Value, Small, Reduced, Fold, Times, Num, Full;
      ghost var hi := if final then 0 else HIBIT;
      var hibit := if final then 0 else 0x100_0000;
      var a := h;
      var pos, bytes: nat := 0, |m|;
      FoldNothing(acc, Value(r), hi);
      assert m[..0] == [];
      while bytes >= 16
        invariant pos + bytes == |m| && pos % 16 == 0
        invariant Reduced(a)
        invariant Value(a) % 0x3_ffff_ffff_ffff_ffff_ffff_ffff_ffff_fffb == Fold(acc, Value(r), m[..pos], hi)
      {
        var b := m[pos..pos + 16];
        NextValue(a, r, b, final);
        FoldStep(acc, Value(r), m[..pos], b, hi);
        assert m[..pos] + b == m[..pos + 16];
        a := Next(a, r, b, hibit);
        pos := pos + 16;
        bytes := bytes - 16;
      }
      FullIs(|m|, pos);
      h := a;
    }

    /** A full buffer is processed. */
    method FullBuffer(ghost acc: nat)
      requires buffer.Length == 16 && Reduced(h) && Small(r) && !final
      requires Value(h) % 0x3_ffff_ffff_ffff_ffff_ffff_ffff_ffff_fffb == acc
      modifies this`h
      ensures Reduced(h)
      ensures Value(h) % 0x3_ffff_ffff_ffff_ffff_ffff_ffff_ffff_fffb == Fold(acc, Value(r), buffer[..], HIBIT)
    {
      hide Value, Fold, Reduced, Small, Full;
      FullIs(16, 16);
      assert buffer[..][..16] == buffer[..];
      Blocks(buffer[..], acc);
    }

    /** poly1305_update. */
    method Update(ghost key: seq<Octet>, ghost m: seq<Octet>, data: seq<Octet>)
      requires Absorbed(key, m)
      modifies this`h, this`leftover, buffer
      ensures Absorbed(key, m + data)
    {
      hide Value, Fold, Reduced, Small, Full;
      ghost var whole, k := m + data, Full(|m|);
      var rest := data;
      SliceOfSum(m, data, k, 0);
      if leftover > 0 {
        var want := if 16 - leftover > |data| then |data| else 16 - leftover;
        SliceOfSum(m, data, k, want);
        Append(buffer, leftover, data[..want]);
        rest := data[want..];
        leftover := leftover + want;
        if leftover < 16 {
          assert whole[k..|m| + want] == whole[k..];
          FullIs(|whole|, k);
          return;
        }
        assert buffer[..] == whole[k..k + 16];
        FoldMore(Value(r), whole, k, buffer[..]);
        FullBuffer(Fold(0, Value(r), whole[..k], HIBIT));
        k := k + 16;
        leftover := 0;
      }
      assert whole[k..] == rest;
      FullBlocks(whole, k, rest);
    }

    /** The part of poly1305_update after the leftover bytes; the message is settled up to place k. */
    method FullBlocks(ghost whole: seq<Octet>, ghost k: nat, rest: seq<Octet>)
      requires buffer.Length == 16 && Reduced(h) && Small(r) && !final && leftover == 0
      requires k % 16 == 0 && k <= |whole| && whole[k..] == rest
      requires Value(h) % 0x3_ffff_ffff_ffff_ffff_ffff_ffff_ffff_fffb == Fold(0, Value(r), whole[..k], HIBIT)
      modifies this`h, this`leftover, buffer
      ensures Reduced(h)
      ensures leftover == |whole| - Full(|whole|)
      ensures buffer[..leftover] == whole[Full(|whole|)..]
      ensures Value(h) % 0x3_ffff_ffff_ffff_ffff_ffff_ffff_ffff_fffb
           == Fold(0, Value(r), whole[..Full(|whole|)], HIBIT)
    {
      hide Value, Fold, Reduced, Small, Full;
      ghost var j := k;
      var pos := 0;
      if |rest| >= 16 {
        var want := |rest| - |rest| % 16;
        Blocks(rest[..want], Fold(0, Value(r), whole[..k], HIBIT));
        FullIs(want, want);
        assert rest[..want][..want] == rest[..want];
        FoldMore(Value(r), whole, k, rest[..want]);
        j := k + want;
        pos := want;
      }
      FullIs(|whole|, j);
      assert rest[pos..] == whole[j..];
      if pos < |rest| {
        Append(buffer, 0, rest[pos..]);
        leftover := |rest| - pos;
      }
      assert buffer[..leftover] == whole[j..];
    }

    /** A byte 1 after the leftover bytes, and then zeros. */
    method PadBuffer()
      requires buffer.Length == 16 && leftover < 16
      modifies buffer
      ensures buffer[..leftover + 1] == old(buffer[..leftover]) + [1]
      ensures forall j :: leftover < j < 16 ==> buffer[j] == 0
    {
      var i := leftover;
      buffer[i] := 1;
      i := i + 1;
      while i < 16
        invariant leftover < i <= 16
        invariant buffer[..leftover + 1] == old(buffer[..leftover]) + [1]
        invariant forall j :: leftover < j < i ==> buffer[j] == 0
      {
        buffer[i] := 0;
        i := i + 1;
      }
    }

    /** The padded last block of poly1305_finish. */
    method LastBlock(ghost key: seq<Octet>, ghost m: seq<Octet>)
      requires Absorbed(key, m)
      modifies this`h, this`final, buffer
      ensures Reduced(h)
      ensures Value(h) % 0x3_ffff_ffff_ffff_ffff_ffff_ffff_ffff_fffb == Accumulated(Value(r), m)
    {
      hide Value, Fold, Reduced, Small, Full, Num, Times;
      if leftover > 0 {
        ghost var rest := m[Full(|m|)..];
        ghost var acc := Fold(0, Value(r), m[..Full(|m|)], HIBIT);
        PadBuffer();
        final := true;
        PaddedNum(rest, buffer[..]);
        FullIs(16, 16);
        FoldOne(acc, Value(r), buffer[..]);
        assert buffer[..][..16] == buffer[..];
        Blocks(buffer[..], acc);
      } else {
        assert m[..Full(|m|)] == m;
      }
    }

    /** poly1305_finish: the tag, and a state with the key wiped. */
    method Finish(ghost key: seq<Octet>, ghost m: seq<Octet>, mac: array<Octet>)
      requires Absorbed(key, m)
      requires mac.Length == 16 && mac != buffer
      modifies this, buffer, mac
      ensures Num(mac[..]) == Tag(key, m)
      ensures h == r == Limbs(0, 0, 0, 0, 0) && pad == (0, 0, 0, 0)
    {
      hide Value, Reduced, Small, Num, Accumulated, FullyCarried,
        Selected, TagWords, PadAdded, WordsValue, LowWords, Word32s,
        TagBytes, Clamped;
      LastBlock(key, m);
      ghost var k := FullyCarriedValue(h);
      ghost var before := Value(h);
      var c := FullyCarried(h);
      SelectedValue(c);
      var g := Selected(c);
      TagWordsValue(g);
      var w := TagWords(g);
      PadAddedValue(w, pad);
      var f := PadAdded(w, pad);
      NumOfTag(f);
      var t := TagBytes(f);
      ModuloP(before, Value(c), k);
      TagModulo(Value(g), WordsValue(pad));
      forall i | 0 <= i < 16 {
        mac[i] := t[i];
      }
      assert mac[..] == t;
      h := Limbs(0, 0, 0, 0, 0);
      r := Limbs(0, 0, 0, 0, 0);
      pad := (0, 0, 0, 0);
    }
  }

  lemma FoldOne(acc: nat, r: nat, b: seq<Octet>)
    requires |b| == 16
    ensures Fold(acc, r, b, 0) == Times(acc + Num(b), r) % 0x3_ffff_ffff_ffff_ffff_ffff_ffff_ffff_fffb
  {
    hide Times, Num, Fold;
    assert [] + b == b;
    FoldStep(acc, r, [], b, 0);
    FoldNothing(acc, r, 0);
  }

  /** The zeros after the last byte do not change the number. */
  lemma PaddedNum(rest: seq<Octet>, b: seq<Octet>)
    requires |rest| < 16 == |b|
    requires b[..|rest| + 1] == rest + [1]
    requires forall j :: |rest| < j < 16 ==> b[j] == 0
    ensures Num(b) == Num(rest + [1])
  {
    hide Num, Times;
    assert b == b[..|rest| + 1] + b[|rest| + 1..];
    NumOfSum(rest + [1], b[|rest| + 1..]);
    NumOfZeros(b[|rest| + 1..]);
    TimesZero(Size(|rest| + 1));
  }

  lemma TimesZero(x: nat)
    ensures Times(x, 0) == 0
  {
  }

  lemma {:induction false} NumOfZeros(b: seq<Octet>)
    requires forall j :: 0 <= j < |b| ==> b[j] == 0
    ensures Num(b) == 0
  {
    if b != [] {
      NumOfZeros(b[1..]);
    }
  }

  lemma TagModulo(x: nat, s: nat)
    ensures (x % 0x1_0000_0000_0000_0000_0000_0000_0000_0000 + s) % 0x1_0000_0000_0000_0000_0000_0000_0000_0000
         == (x + s) % 0x1_0000_0000_0000_0000_0000_0000_0000_0000
  {
  }

  lemma ZeroValue()
    ensures Value(Limbs(0, 0, 0, 0, 0)) == 0
  {
  }

  lemma FoldNothing(acc: nat, r: nat, hi: nat)
    ensures Fold(acc, r, [], hi) == acc
  {
  }

  lemma KeyIsClamped(key: seq<Octet>)
    requires |key| == 32
    ensures var r := KeyLimbs(key[..16]); Small(r) && Value(r) == Num(Clamped(key[..16]))
    ensures var pad := (U8to32(key, 16), U8to32(key, 20), U8to32(key, 24), U8to32(key, 28));
      Word32s(pad) && WordsValue(pad) == Num(key[16..])
  {
    hide KeyLimbs, Num, Clamped, Value, Small;
    KeyLimbsAreClamped(key[..16]);
    BlockValue(Clamped(key[..16]));
    NumOf16(key[16..]);
  }

  /** Folding the blocks after a settled prefix continues the fold of the prefix. */
  lemma FoldMore(r: nat, m: seq<Octet>, k: nat, b: seq<Octet>)
    requires k % 16 == 0 && |b| % 16 == 0 && k + |b| <= |m| && m[k..k + |b|] == b
    ensures Fold(Fold(0, r, m[..k], HIBIT), r, b, HIBIT) == Fold(0, r, m[..k + |b|], HIBIT)
  {
    hide Fold;
    FoldOfSum(0, r, m[..k], b, HIBIT);
    assert m[..k] + b == m[..k + |b|];
  }

  lemma {:induction false} FoldOfSum(acc: nat, r: nat, a: seq<Octet>, b: seq<Octet>, hi: nat)
    requires |a| % 16 == 0 && |b| % 16 == 0
    ensures |a + b| % 16 == 0
    ensures Fold(Fold(acc, r, a, hi), r, b, hi) == Fold(acc, r, a + b, hi)
    decreases |b|
  {
    hide Times, Num, Fold;
    if b == [] {
      assert a + b == a;
      FoldNothing(Fold(acc, r, a, hi), r, hi);
    } else {
      var c, d := b[..|b| - 16], b[|b| - 16..];
      FoldOfSum(acc, r, a, c, hi);
      FoldStep(acc, r, a + c, d, hi);
      FoldStep(Fold(acc, r, a, hi), r, c, d, hi);
      assert a + b == (a + c) + d && b == c + d;
    }
  }

  // ---------------------------------------------------------------------------------------------
  // Every split of a message gives the same tag

  method TagOfPieces(key: seq<Octet>, pieces: seq<seq<Octet>>) returns (mac: seq<Octet>)
    requires |key| == 32
    ensures |mac| == 16 && Num(mac) == Tag(key, Concat(pieces))
  {
    hide Tag, Num;
    var st := new Poly1305State(key);
    for i := 0 to |pieces|
      invariant fresh(st) && fresh(st.buffer)
      invariant st.Absorbed(key, Concat(pieces[..i]))
    {
      ConcatStep(pieces, i);
      st.Update(key, Concat(pieces[..i]), pieces[i]);
    }
    assert pieces[..|pieces|] == pieces;
    var out := new Octet[16](_ => 0);
    st.Finish(key, Concat(pieces), out);
    return out[..];
  }

  /** Numbers of the same length that agree have the same bytes: the tag's number is the tag. */
  lemma {:induction false} NumIsInjective(a: seq<Octet>, b: seq<Octet>)
    requires |a| == |b| && Num(a) == Num(b)
    ensures a == b
  {
    if a != [] {
      assert At(a, 0) == At(b, 0) && Num(a[1..]) == Num(b[1..]);
      NumIsInjective(a[1..], b[1..]);
      assert a == [a[0]] + a[1..] && b == [b[0]] + b[1..];
    }
  }

  // ---------------------------------------------------------------------------------------------
  // Chacha20_Poly1305_Update (chachapoly.c)

  function Zeros(n: nat): (z: seq<Octet>)
    ensures |z| == n && forall i :: 0 <= i < n ==> z[i] == 0
  {
    seq(n, _ => 0)
  }

  /** RFC 8439, section 2.8: the data with zeros up to a multiple of 16 bytes. */
  function Padded16(data: seq<Octet>): (p: seq<Octet>)
    ensures |p| % 16 == 0
  {
    if |data| % 16 == 0 then data else data + Zeros(16 - |data| % 16)
  }

  method AeadUpdate(st: Poly1305State, ghost key: seq<Octet>, ghost m: seq<Octet>, data: seq<Octet>)
    requires st.Absorbed(key, m)
    modifies st`h, st`leftover, st.buffer
    ensures st.Absorbed(key, m + Padded16(data))
  {
    hide Fold, Value, Reduced, Small;
    st.Update(key, m, data);
    var rem := (|data| + 16) % 16;
    if rem > 0 {
      st.Update(key, m + data, Zeros(16 - rem));
      assert (m + data) + Zeros(16 - rem) == m + Padded16(data);
    }
  }

  // ---------------------------------------------------------------------------------------------
  // The tag as a polynomial in r

  function PowerOf(r: nat, n: nat): nat {
    if n == 0 then 1 else Times(PowerOf(r, n - 1), r)
  }

  function FirstLength(m: seq<Octet>): nat {
    if |m| < 16 then |m| else 16
  }

  /** The sum of the blocks of m as numbers, each with the byte 1 behind it: the first of n times r^n and the last,
      which may be shorter, times r. */
  function Polynomial(r: nat, m: seq<Octet>): nat {
    if m == [] then 0
    else
      var k := FirstLength(m);
      Times(Num(m[..k] + [1]), PowerOf(r, (|m| + 15) / 16)) + Polynomial(r, m[k..])
  }

  lemma TimesAssociates(x: nat, y: nat, z: nat)
    ensures Times(x, Times(y, z)) == Times(Times(x, y), z)
  {
    assert x * (y * z) == (x * y) * z;
  }

  lemma SumTimes(x: nat, y: nat, z: nat)
    ensures Times(x + y, z) == Times(x, z) + Times(y, z)
  {
  }

  lemma {:induction false} PolynomialStep(r: nat, m: seq<Octet>, b: seq<Octet>)
    requires |m| % 16 == 0 && 0 < |b| <= 16
    ensures Polynomial(r, m + b) == Times(Polynomial(r, m) + Num(b + [1]), r)
  {
    hide Times, Num;
    var n := m + b;
    if m == [] {
      assert n == b && b[..|b|] == b && b[|b|..] == [];
      assert PowerOf(r, 1) == Times(1, r) == r by {
        TimesOne(r);
        assert PowerOf(r, 0) == 1;
      }
    } else {
      assert n[..16] == m[..16] && n[16..] == m[16..] + b;
      PolynomialStep(r, m[16..], b);
      var c, y, p := Num(m[..16] + [1]), Polynomial(r, m[16..]), PowerOf(r, |m| / 16);
      assert (|m| + 15) / 16 == |m| / 16 && (|n| + 15) / 16 == |m| / 16 + 1;
      TimesAssociates(c, p, r);
      SumTimes(Times(c, p), y + Num(b + [1]), r);
    }
  }

  lemma PolynomialOfNothing(r: nat)
    ensures Polynomial(r, []) == 0
  {
  }

  lemma FullBlock(b: seq<Octet>)
    requires |b| == 16
    ensures Num(b + [1]) == Num(b) + HIBIT
  {
    hide Num, Times;
    NumOfSum(b, [1]);
    SizeOf16();
    NumOfOne();
    TimesCommutes(HIBIT, 1);
    TimesOne(HIBIT);
  }

  lemma SizeOf16()
    ensures Size(16) == HIBIT
  {
    assert Size(4) == 0x1_0000_0000;
    assert Size(8) == 0x1_0000_0000_0000_0000;
    assert Size(12) == 0x1_0000_0000_0000_0000_0000_0000;
  }

  lemma NumOfOne()
    ensures Num([1]) == 1
  {
    assert [1][1..] == [];
  }

  lemma {:induction false} FoldIsPolynomial(r: nat, m: seq<Octet>)
    requires |m| % 16 == 0
    ensures Fold(0, r, m, HIBIT) == Polynomial(r, m) % 0x3_ffff_ffff_ffff_ffff_ffff_ffff_ffff_fffb
  {
    hide Times, Num, Fold, Polynomial;
    if m == [] {
      FoldNothing(0, r, HIBIT);
      PolynomialOfNothing(r);
    } else {
      var k := |m| - 16;
      var c, b := m[..k], m[k..];
      FoldIsPolynomial(r, c);
      assert c + b == m;
      FoldStep(0, r, c, b, HIBIT);
      PolynomialStep(r, c, b);
      FullBlock(b);
      TimesModuloP(Polynomial(r, c), Num(b) + HIBIT, r);
    }
  }

  lemma AccumulatedIsPolynomial(r: nat, m: seq<Octet>)
    ensures Accumulated(r, m) == Polynomial(r, m) % 0x3_ffff_ffff_ffff_ffff_ffff_ffff_ffff_fffb
  {
    hide Times, Num, Polynomial, Fold;
    var k := Full(|m|);
    FoldIsPolynomial(r, m[..k]);
    if k == |m| {
      assert m[..k] == m;
    } else {
      PolynomialStep(r, m[..k], m[k..]);
      assert m[..k] + m[k..] == m;
      TimesModuloP(Polynomial(r, m[..k]), Num(m[k..] + [1]), r);
    }
  }

  /** RFC 8439, section 2.5.1, without the loop: the tag is the value at the clamped r, modulo 2^130 - 5, of the
      polynomial whose coefficients are the blocks, plus s. */
  lemma TagIsPolynomial(key: seq<Octet>, m: seq<Octet>)
    requires |key| == 32
    ensures NatBits.Pow2(130) > 5
    ensures Tag(key, m)
      == (Polynomial(Num(Clamped(key[..16])), m) % (NatBits.Pow2(130) - 5) + Num(key[16..])) % NatBits.Pow2(128)
  {
    hide Num, Clamped, Polynomial, Accumulated, NatBits.Pow2;
    AccumulatedIsPolynomial(Num(Clamped(key[..16])), m);
    LargePowers();
  }

  lemma LargePowers()
    ensures NatBits.Pow2(128) == HIBIT
    ensures NatBits.Pow2(130) - 5 == 0x3_ffff_ffff_ffff_ffff_ffff_ffff_ffff_fffb
  {
    assert NatBits.Pow2(2) == 4;
    hide NatBits.Pow2;
    NatBits.Powers();
    NatBits.Pow2Adds(64, 64);
    NatBits.Pow2Adds(128, 2);
  }
}
