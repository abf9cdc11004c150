/** The two forms of SHA256Transform (sha2.c): the loop, and the unrolled form that renames the registers instead
    of moving them.  Both keep only the last 16 words of the schedule, in a ring. */
module Sha256Transform {
  import opened BigEndian
  import opened Sha256

  /** The hash value held in the state. */
  function Hv(state: array<bv32>): Regs
    requires state.Length == 8
    reads state
  {
    Regs(state[0], state[1], state[2], state[3], state[4], state[5], state[6], state[7])
  }

  /** The ring holds the last 16 of the first j words of the schedule. */
  ghost predicate Ring(ring: seq<bv32>, m: seq<bv8>, j: nat)
    requires |m| == 64
  {
    |ring| == 16 && forall t: nat :: t < j <= t + 16 ==> ring[t % 16] == Schedule(m, t)
  }

  lemma WordPlusAssociates(x: bv32, y: bv32, z: bv32)
    ensures (x + y) + z == x + (y + z)
  {
  }

  lemma PlusCommutes(x: bv32, y: bv32)
    ensures Plus(x, y) == Plus(y, x)
  {
  }

  lemma PlusAssociates(x: bv32, y: bv32, z: bv32)
    ensures Plus(Plus(x, y), z) == Plus(x, Plus(y, z))
  {
    calc {
      Plus(Plus(x, y), z);
      Plus(x + y, z);
      (x + y) + z;
      { WordPlusAssociates(x, y, z); }
      x + (y + z);
      Plus(x, y + z);
      Plus(x, Plus(y, z));
    }
  }

  /** The first 16 words come from the block. */
  method LoadWord(ring: array<bv32>, data: seq<bv8>, j: nat) returns (w: bv32)
    requires ring.Length == 16 && |data| == 64 && j < 16
    requires Ring(ring[..], data, j)
    modifies ring
    ensures Ring(ring[..], data, j + 1) && w == Schedule(data, j)
  {
    hide Word;
    w := Word(data[4 * j], data[4 * j + 1], data[4 * j + 2], data[4 * j + 3]);
    ring[j] := w;
  }

  /** The others replace the word 16 places before them. */
  method ExtendWord(ring: array<bv32>, data: seq<bv8>, j: nat) returns (w: bv32)
    requires ring.Length == 16 && |data| == 64 && 16 <= j < 64
    requires Ring(ring[..], data, j)
    modifies ring
    ensures Ring(ring[..], data, j + 1) && w == Schedule(data, j)
  {
    hide Word, Plus, SmallSigma0, SmallSigma1;
    Places(j);
    assert ring[..][(j - 15) % 16] == Schedule(data, j - 15);
    assert ring[..][(j - 2) % 16] == Schedule(data, j - 2);
    assert ring[..][(j - 7) % 16] == Schedule(data, j - 7);
    assert ring[..][(j - 16) % 16] == Schedule(data, j - 16);
    var s0 := SmallSigma0(ring[(j + 1) % 16]);
    var s1 := SmallSigma1(ring[(j + 14) % 16]);
    w := Plus(ring[j % 16], Plus(Plus(s1, ring[(j + 9) % 16]), s0));
    PlusCommutes(ring[j % 16], Plus(Plus(s1, ring[(j + 9) % 16]), s0));
    ghost var before := ring[..];
    ring[j % 16] := w;
    RingStep(before, ring[..], data, j);
  }

  lemma Places(j: nat)
    requires j >= 16
    ensures (j + 1) % 16 == (j - 15) % 16 && (j + 14) % 16 == (j - 2) % 16 && (j + 9) % 16 == (j - 7) % 16
    ensures j % 16 == (j - 16) % 16
  {
  }

  lemma RingStep(before: seq<bv32>, after: seq<bv32>, m: seq<bv8>, j: nat)
    requires |m| == 64 && Ring(before, m, j) && j >= 16
    requires after == before[j % 16 := Schedule(m, j)]
    ensures Ring(after, m, j + 1)
  {
    hide Schedule;
  }

  lemma RoundStep(s: Regs, m: seq<bv8>, j: nat)
    requires |m| == 64 && j < 64
    ensures Rounds(s, m, j + 1) == Round(Rounds(s, m, j), K(j), Schedule(m, j))
  {
    hide Round, K, Schedule;
  }

  lemma RoundsStart(s: Regs, m: seq<bv8>)
    requires |m| == 64
    ensures Rounds(s, m, 0) == s
  {
  }

  /** SHA256Transform, the loop form. */
  method TransformLoop(state: array<bv32>, data: seq<bv8>)
    requires state.Length == 8 && |data| == 64
    modifies state
    ensures Hv(state) == Compress(old(Hv(state)), data)
  {
    hide Plus, BigSigma0, BigSigma1, Ch, Maj, K, Schedule, Ring, Rounds;
    ghost var s := Hv(state);
    var a, b, c, d := state[0], state[1], state[2], state[3];
    var e, f, g, h := state[4], state[5], state[6], state[7];
    var ring := new bv32[16];
    EmptyRing(ring[..], data);
    RoundsStart(s, data);
    var j := 0;
    while j < 16
      invariant 0 <= j <= 16 && Ring(ring[..], data, j)
      invariant Hv(state) == s
      invariant Regs(a, b, c, d, e, f, g, h) == Rounds(s, data, j)
    {
      RoundStep(s, data, j);
      var w := LoadWord(ring, data, j);
      var t1 := T1(Regs(a, b, c, d, e, f, g, h), K(j), w);
      var t2 := T2(Regs(a, b, c, d, e, f, g, h));
      h := g;
      g := f;
      f := e;
      e := Plus(d, t1);
      d := c;
      c := b;
      b := a;
      a := Plus(t1, t2);
      j := j + 1;
    }
    while j < 64
      invariant 16 <= j <= 64 && Ring(ring[..], data, j)
      invariant Hv(state) == s
      invariant Regs(a, b, c, d, e, f, g, h) == Rounds(s, data, j)
    {
      RoundStep(s, data, j);
      var w := ExtendWord(ring, data, j);
      var t1 := T1(Regs(a, b, c, d, e, f, g, h), K(j), w);
      var t2 := T2(Regs(a, b, c, d, e, f, g, h));
      h := g;
      g := f;
      f := e;
      e := Plus(d, t1);
      d := c;
      c := b;
      b := a;
      a := Plus(t1, t2);
      j := j + 1;
    }
    AddInto(state, Regs(a, b, c, d, e, f, g, h));
  }

  lemma EmptyRing(ring: seq<bv32>, m: seq<bv8>)
    requires |m| == 64 && |ring| == 16
    ensures Ring(ring, m, 0)
  {
  }

  /** state += registers. */
  method AddInto(state: array<bv32>, r: Regs)
    requires state.Length == 8
    modifies state
    ensures Hv(state) == (var s := old(Hv(state));
      Regs(Plus(s.a, r.a), Plus(s.b, r.b), Plus(s.c, r.c), Plus(s.d, r.d),
           Plus(s.e, r.e), Plus(s.f, r.f), Plus(s.g, r.g), Plus(s.h, r.h)))
  {
    hide Plus;
    state[0] := Plus(state[0], r.a);
    state[1] := Plus(state[1], r.b);
    state[2] := Plus(state[2], r.c);
    state[3] := Plus(state[3], r.d);
    state[4] := Plus(state[4], r.e);
    state[5] := Plus(state[5], r.f);
    state[6] := Plus(state[6], r.g);
    state[7] := Plus(state[7], r.h);
  }

  /** A round that leaves six registers where they are: now is the renaming under which it is a round. */
  lemma RenamedRound(s: Regs, m: seq<bv8>, j: nat, was: Regs, now: Regs, w: bv32, t1: bv32)
    requires |m| == 64 && j < 64 && was == Rounds(s, m, j) && w == Schedule(m, j) && t1 == T1(was, K(j), w)
    requires now == Regs(Plus(Plus(t1, BigSigma0(was.a)), Maj(was.a, was.b, was.c)), was.a, was.b, was.c,
                         Plus(was.d, t1), was.e, was.f, was.g)
    ensures now == Rounds(s, m, j + 1)
  {
    hide Plus, BigSigma0, BigSigma1, Ch, Maj, K, Schedule, Rounds;
    RoundStep(s, m, j);
    PlusAssociates(t1, BigSigma0(was.a), Maj(was.a, was.b, was.c));
  }

  /** The macro ROUND256_0_TO_15: the registers d and h are updated, and the others keep their names for the next
      round. */
  method Round0To15(ghost s: Regs, ring: array<bv32>, data: seq<bv8>, j: nat,
    a: bv32, b: bv32, c: bv32, d: bv32, e: bv32, f: bv32, g: bv32, h: bv32) returns (d': bv32, h': bv32)
    requires ring.Length == 16 && |data| == 64 && j < 16
    requires Ring(ring[..], data, j) && Regs(a, b, c, d, e, f, g, h) == Rounds(s, data, j)
    modifies ring
    ensures Ring(ring[..], data, j + 1) && Regs(h', a, b, c, d', e, f, g) == Rounds(s, data, j + 1)
  {
    hide Plus, BigSigma0, Maj, K, Schedule, Ring, Rounds, T1;
    var w := LoadWord(ring, data, j);
    var t1 := T1(Regs(a, b, c, d, e, f, g, h), K(j), w);
    d' := Plus(d, t1);
    h' := Plus(Plus(t1, BigSigma0(a)), Maj(a, b, c));
    RenamedRound(s, data, j, Regs(a, b, c, d, e, f, g, h), Regs(h', a, b, c, d', e, f, g), w, t1);
  }

  /** The macro ROUND256: the registers d and h are updated, and the others keep their names for the next round. */
  method Round16To63(ghost s: Regs, ring: array<bv32>, data: seq<bv8>, j: nat,
    a: bv32, b: bv32, c: bv32, d: bv32, e: bv32, f: bv32, g: bv32, h: bv32) returns (d': bv32, h': bv32)
    requires ring.Length == 16 && |data| == 64 && 16 <= j < 64
    requires Ring(ring[..], data, j) && Regs(a, b, c, d, e, f, g, h) == Rounds(s, data, j)
    modifies ring
    ensures Ring(ring[..], data, j + 1) && Regs(h', a, b, c, d', e, f, g) == Rounds(s, data, j + 1)
  {
    hide Plus, BigSigma0, Maj, K, Schedule, Ring, Rounds, T1;
    var w := ExtendWord(ring, data, j);
    var t1 := T1(Regs(a, b, c, d, e, f, g, h), K(j), w);
    d' := Plus(d, t1);
    h' := Plus(Plus(t1, BigSigma0(a)), Maj(a, b, c));
    RenamedRound(s, data, j, Regs(a, b, c, d, e, f, g, h), Regs(h', a, b, c, d', e, f, g), w, t1);
  }

  /** The body of the first loop: eight uses of the macro, the registers renamed from one to the next. */
  method EightLoading(ghost s: Regs, ring: array<bv32>, data: seq<bv8>, j: nat, r: Regs) returns (r': Regs)
    requires ring.Length == 16 && |data| == 64 && j + 8 <= 16
    requires Ring(ring[..], data, j) && r == Rounds(s, data, j)
    modifies ring
    ensures Ring(ring[..], data, j + 8) && r' == Rounds(s, data, j + 8)
  {
    hide Ring, Rounds;
    var a, b, c, d, e, f, g, h := r.a, r.b, r.c, r.d, r.e, r.f, r.g, r.h;
    d, h := Round0To15(s, ring, data, j, a, b, c, d, e, f, g, h);
    c, g := Round0To15(s, ring, data, j + 1, h, a, b, c, d, e, f, g);
    b, f := Round0To15(s, ring, data, j + 2, g, h, a, b, c, d, e, f);
    a, e := Round0To15(s, ring, data, j + 3, f, g, h, a, b, c, d, e);
    h, d := Round0To15(s, ring, data, j + 4, e, f, g, h, a, b, c, d);
    g, c := Round0To15(s, ring, data, j + 5, d, e, f, g, h, a, b, c);
    f, b := Round0To15(s, ring, data, j + 6, c, d, e, f, g, h, a, b);
    e, a := Round0To15(s, ring, data, j + 7, b, c, d, e, f, g, h, a);
    r' := Regs(a, b, c, d, e, f, g, h);
  }

  /** The body of the second loop. */
  method EightExtending(ghost s: Regs, ring: array<bv32>, data: seq<bv8>, j: nat, r: Regs) returns (r': Regs)
    requires ring.Length == 16 && |data| == 64 && 16 <= j && j + 8 <= 64
    requires Ring(ring[..], data, j) && r == Rounds(s, data, j)
    modifies ring
    ensures Ring(ring[..], data, j + 8) && r' == Rounds(s, data, j + 8)
  {
    hide Ring, Rounds;
    var a, b, c, d, e, f, g, h := r.a, r.b, r.c, r.d, r.e, r.f, r.g, r.h;
    d, h := Round16To63(s, ring, data, j, a, b, c, d, e, f, g, h);
    c, g := Round16To63(s, ring, data, j + 1, h, a, b, c, d, e, f, g);
    b, f := Round16To63(s, ring, data, j + 2, g, h, a, b, c, d, e, f);
    a, e := Round16To63(s, ring, data, j + 3, f, g, h, a, b, c, d, e);
    h, d := Round16To63(s, ring, data, j + 4, e, f, g, h, a, b, c, d);
    g, c := Round16To63(s, ring, data, j + 5, d, e, f, g, h, a, b, c);
    f, b := Round16To63(s, ring, data, j + 6, c, d, e, f, g, h, a, b);
    e, a := Round16To63(s, ring, data, j + 7, b, c, d, e, f, g, h, a);
    r' := Regs(a, b, c, d, e, f, g, h);
  }

  /** SHA256Transform, the unrolled form. */
  method TransformUnrolled(state: array<bv32>, data: seq<bv8>)
    requires state.Length == 8 && |data| == 64
    modifies state
    ensures Hv(state) == Compress(old(Hv(state)), data)
  {
    hide Plus, Schedule, Ring, Rounds;
    ghost var s := Hv(state);
    var r := Hv(state);
    var ring := new bv32[16];
    EmptyRing(ring[..], data);
    RoundsStart(s, data);
    var j := 0;
    while j < 16
      invariant 0 <= j <= 16 && j % 8 == 0 && Ring(ring[..], data, j)
      invariant Hv(state) == s && r == Rounds(s, data, j)
    {
      r := EightLoading(s, ring, data, j, r);
      j := j + 8;
    }
    while j < 64
      invariant 16 <= j <= 64 && j % 8 == 0 && Ring(ring[..], data, j)
      invariant Hv(state) == s && r == Rounds(s, data, j)
    {
      r := EightExtending(s, ring, data, j, r);
      j := j + 8;
    }
    AddInto(state, r);
  }
}
