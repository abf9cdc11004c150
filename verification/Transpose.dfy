/** aes_ct_ortho: the transposition between eight words of four bytes each and the bit-sliced state. */
module Transpose {
  import opened BitGates
  import opened Words
  import opened LinearCircuits
  import opened BitslicedState
  import opened Fips197
  import opened WordBytes

  // ---------------------------------------------------------------------------------------------
  // SWAPN: what it does to the pair of words (x, y), for each of its three uses

  function Swap2X(x: bv32, y: bv32): bv32 {
    (x & 0x5555_5555) | ((y & 0x5555_5555) << 1)
  }

  function Swap2Y(x: bv32, y: bv32): bv32 {
    ((x & 0xaaaa_aaaa) >> 1) | (y & 0xaaaa_aaaa)
  }

  function Swap4X(x: bv32, y: bv32): bv32 {
    (x & 0x3333_3333) | ((y & 0x3333_3333) << 2)
  }

  function Swap4Y(x: bv32, y: bv32): bv32 {
    ((x & 0xcccc_cccc) >> 2) | (y & 0xcccc_cccc)
  }

  function Swap8X(x: bv32, y: bv32): bv32 {
    (x & 0x0f0f_0f0f) | ((y & 0x0f0f_0f0f) << 4)
  }

  function Swap8Y(x: bv32, y: bv32): bv32 {
    ((x & 0xf0f0_f0f0) >> 4) | (y & 0xf0f0_f0f0)
  }

  /** The four places of a byte in a word. */
  predicate Aligned(s: bv32): (place: bool)
    ensures place ==> s <= 24
  {
    s == 0 || s == 8 || s == 16 || s == 24
  }

  lemma Swap2XByte(x: bv32, y: bv32, s: bv32)
    requires Aligned(s)
    ensures ByteOf(Swap2X(x, y), s)
         == Slice(Bit(x, s), Bit(y, s), Bit(x, s + 2), Bit(y, s + 2),
                  Bit(x, s + 4), Bit(y, s + 4), Bit(x, s + 6), Bit(y, s + 6))
  {
  }

  lemma Swap2YByte(x: bv32, y: bv32, s: bv32)
    requires Aligned(s)
    ensures ByteOf(Swap2Y(x, y), s)
         == Slice(Bit(x, s + 1), Bit(y, s + 1), Bit(x, s + 3), Bit(y, s + 3),
                  Bit(x, s + 5), Bit(y, s + 5), Bit(x, s + 7), Bit(y, s + 7))
  {
  }

  lemma Swap4XByte(x: bv32, y: bv32, s: bv32)
    requires Aligned(s)
    ensures ByteOf(Swap4X(x, y), s)
         == Slice(Bit(x, s), Bit(x, s + 1), Bit(y, s), Bit(y, s + 1),
                  Bit(x, s + 4), Bit(x, s + 5), Bit(y, s + 4), Bit(y, s + 5))
  {
  }

  lemma Swap4YByte(x: bv32, y: bv32, s: bv32)
    requires Aligned(s)
    ensures ByteOf(Swap4Y(x, y), s)
         == Slice(Bit(x, s + 2), Bit(x, s + 3), Bit(y, s + 2), Bit(y, s + 3),
                  Bit(x, s + 6), Bit(x, s + 7), Bit(y, s + 6), Bit(y, s + 7))
  {
  }

  lemma Swap8XByte(x: bv32, y: bv32, s: bv32)
    requires Aligned(s)
    ensures ByteOf(Swap8X(x, y), s)
         == Slice(Bit(x, s), Bit(x, s + 1), Bit(x, s + 2), Bit(x, s + 3),
                  Bit(y, s), Bit(y, s + 1), Bit(y, s + 2), Bit(y, s + 3))
  {
  }

  lemma Swap8YByte(x: bv32, y: bv32, s: bv32)
    requires Aligned(s)
    ensures ByteOf(Swap8Y(x, y), s)
         == Slice(Bit(x, s + 4), Bit(x, s + 5), Bit(x, s + 6), Bit(x, s + 7),
                  Bit(y, s + 4), Bit(y, s + 5), Bit(y, s + 6), Bit(y, s + 7))
  {
  }

  // ---------------------------------------------------------------------------------------------
  // The twelve swaps

  function Swaps2(q: Slice<bv32>): Slice<bv32> {
    Slice(Swap2X(q.b0, q.b1), Swap2Y(q.b0, q.b1), Swap2X(q.b2, q.b3), Swap2Y(q.b2, q.b3),
          Swap2X(q.b4, q.b5), Swap2Y(q.b4, q.b5), Swap2X(q.b6, q.b7), Swap2Y(q.b6, q.b7))
  }

  function Swaps4(q: Slice<bv32>): Slice<bv32> {
    Slice(Swap4X(q.b0, q.b2), Swap4X(q.b1, q.b3), Swap4Y(q.b0, q.b2), Swap4Y(q.b1, q.b3),
          Swap4X(q.b4, q.b6), Swap4X(q.b5, q.b7), Swap4Y(q.b4, q.b6), Swap4Y(q.b5, q.b7))
  }

  function Swaps8(q: Slice<bv32>): Slice<bv32> {
    Slice(Swap8X(q.b0, q.b4), Swap8X(q.b1, q.b5), Swap8X(q.b2, q.b6), Swap8X(q.b3, q.b7),
          Swap8Y(q.b0, q.b4), Swap8Y(q.b1, q.b5), Swap8Y(q.b2, q.b6), Swap8Y(q.b3, q.b7))
  }

  function Ortho(q: Slice<bv32>): Slice<bv32> {
    Swaps8(Swaps4(Swaps2(q)))
  }

  /** The bytes at place s of the eight words. */
  function Rows(q: Slice<bv32>, s: bv32): Slice<Byte>
    requires s <= 24
  {
    Slice(ByteOf(q.b0, s), ByteOf(q.b1, s), ByteOf(q.b2, s), ByteOf(q.b3, s),
          ByteOf(q.b4, s), ByteOf(q.b5, s), ByteOf(q.b6, s), ByteOf(q.b7, s))
  }

  function ByteSwaps2(m: Slice<Byte>): Slice<Byte> {
    Slice(Slice(m.b0.b0, m.b1.b0, m.b0.b2, m.b1.b2, m.b0.b4, m.b1.b4, m.b0.b6, m.b1.b6),
          Slice(m.b0.b1, m.b1.b1, m.b0.b3, m.b1.b3, m.b0.b5, m.b1.b5, m.b0.b7, m.b1.b7),
          Slice(m.b2.b0, m.b3.b0, m.b2.b2, m.b3.b2, m.b2.b4, m.b3.b4, m.b2.b6, m.b3.b6),
          Slice(m.b2.b1, m.b3.b1, m.b2.b3, m.b3.b3, m.b2.b5, m.b3.b5, m.b2.b7, m.b3.b7),
          Slice(m.b4.b0, m.b5.b0, m.b4.b2, m.b5.b2, m.b4.b4, m.b5.b4, m.b4.b6, m.b5.b6),
          Slice(m.b4.b1, m.b5.b1, m.b4.b3, m.b5.b3, m.b4.b5, m.b5.b5, m.b4.b7, m.b5.b7),
          Slice(m.b6.b0, m.b7.b0, m.b6.b2, m.b7.b2, m.b6.b4, m.b7.b4, m.b6.b6, m.b7.b6),
          Slice(m.b6.b1, m.b7.b1, m.b6.b3, m.b7.b3, m.b6.b5, m.b7.b5, m.b6.b7, m.b7.b7))
  }

  function ByteSwaps4(m: Slice<Byte>): Slice<Byte> {
    Slice(Slice(m.b0.b0, m.b0.b1, m.b2.b0, m.b2.b1, m.b0.b4, m.b0.b5, m.b2.b4, m.b2.b5),
          Slice(m.b1.b0, m.b1.b1, m.b3.b0, m.b3.b1, m.b1.b4, m.b1.b5, m.b3.b4, m.b3.b5),
          Slice(m.b0.b2, m.b0.b3, m.b2.b2, m.b2.b3, m.b0.b6, m.b0.b7, m.b2.b6, m.b2.b7),
          Slice(m.b1.b2, m.b1.b3, m.b3.b2, m.b3.b3, m.b1.b6, m.b1.b7, m.b3.b6, m.b3.b7),
          Slice(m.b4.b0, m.b4.b1, m.b6.b0, m.b6.b1, m.b4.b4, m.b4.b5, m.b6.b4, m.b6.b5),
          Slice(m.b5.b0, m.b5.b1, m.b7.b0, m.b7.b1, m.b5.b4, m.b5.b5, m.b7.b4, m.b7.b5),
          Slice(m.b4.b2, m.b4.b3, m.b6.b2, m.b6.b3, m.b4.b6, m.b4.b7, m.b6.b6, m.b6.b7),
          Slice(m.b5.b2, m.b5.b3, m.b7.b2, m.b7.b3, m.b5.b6, m.b5.b7, m.b7.b6, m.b7.b7))
  }

  function ByteSwaps8(m: Slice<Byte>): Slice<Byte> {
    Slice(Slice(m.b0.b0, m.b0.b1, m.b0.b2, m.b0.b3, m.b4.b0, m.b4.b1, m.b4.b2, m.b4.b3),
          Slice(m.b1.b0, m.b1.b1, m.b1.b2, m.b1.b3, m.b5.b0, m.b5.b1, m.b5.b2, m.b5.b3),
          Slice(m.b2.b0, m.b2.b1, m.b2.b2, m.b2.b3, m.b6.b0, m.b6.b1, m.b6.b2, m.b6.b3),
          Slice(m.b3.b0, m.b3.b1, m.b3.b2, m.b3.b3, m.b7.b0, m.b7.b1, m.b7.b2, m.b7.b3),
          Slice(m.b0.b4, m.b0.b5, m.b0.b6, m.b0.b7, m.b4.b4, m.b4.b5, m.b4.b6, m.b4.b7),
          Slice(m.b1.b4, m.b1.b5, m.b1.b6, m.b1.b7, m.b5.b4, m.b5.b5, m.b5.b6, m.b5.b7),
          Slice(m.b2.b4, m.b2.b5, m.b2.b6, m.b2.b7, m.b6.b4, m.b6.b5, m.b6.b6, m.b6.b7),
          Slice(m.b3.b4, m.b3.b5, m.b3.b6, m.b3.b7, m.b7.b4, m.b7.b5, m.b7.b6, m.b7.b7))
  }

  lemma Swaps2Rows(q: Slice<bv32>, s: bv32)
    requires Aligned(s)
    ensures Rows(Swaps2(q), s) == ByteSwaps2(Rows(q, s))
  {
    hide Bit, Aligned, Swap2X, Swap2Y;
    Swap2XByte(q.b0, q.b1, s);
    Swap2YByte(q.b0, q.b1, s);
    Swap2XByte(q.b2, q.b3, s);
    Swap2YByte(q.b2, q.b3, s);
    Swap2XByte(q.b4, q.b5, s);
    Swap2YByte(q.b4, q.b5, s);
    Swap2XByte(q.b6, q.b7, s);
    Swap2YByte(q.b6, q.b7, s);
  }

  lemma Swaps4Rows(q: Slice<bv32>, s: bv32)
    requires Aligned(s)
    ensures Rows(Swaps4(q), s) == ByteSwaps4(Rows(q, s))
  {
    hide Bit, Aligned, Swap4X, Swap4Y;
    Swap4XByte(q.b0, q.b2, s);
    Swap4YByte(q.b0, q.b2, s);
    Swap4XByte(q.b1, q.b3, s);
    Swap4YByte(q.b1, q.b3, s);
    Swap4XByte(q.b4, q.b6, s);
    Swap4YByte(q.b4, q.b6, s);
    Swap4XByte(q.b5, q.b7, s);
    Swap4YByte(q.b5, q.b7, s);
  }

  lemma Swaps8Rows(q: Slice<bv32>, s: bv32)
    requires Aligned(s)
    ensures Rows(Swaps8(q), s) == ByteSwaps8(Rows(q, s))
  {
    hide Bit, Aligned, Swap8X, Swap8Y;
    Swap8XByte(q.b0, q.b4, s);
    Swap8YByte(q.b0, q.b4, s);
    Swap8XByte(q.b1, q.b5, s);
    Swap8YByte(q.b1, q.b5, s);
    Swap8XByte(q.b2, q.b6, s);
    Swap8YByte(q.b2, q.b6, s);
    Swap8XByte(q.b3, q.b7, s);
    Swap8YByte(q.b3, q.b7, s);
  }

  /** The 8x8 matrix of bits turned over its diagonal. */
  function Transposed(m: Slice<Byte>): Slice<Byte> {
    Slice(Slice(m.b0.b0, m.b1.b0, m.b2.b0, m.b3.b0, m.b4.b0, m.b5.b0, m.b6.b0, m.b7.b0),
          Slice(m.b0.b1, m.b1.b1, m.b2.b1, m.b3.b1, m.b4.b1, m.b5.b1, m.b6.b1, m.b7.b1),
          Slice(m.b0.b2, m.b1.b2, m.b2.b2, m.b3.b2, m.b4.b2, m.b5.b2, m.b6.b2, m.b7.b2),
          Slice(m.b0.b3, m.b1.b3, m.b2.b3, m.b3.b3, m.b4.b3, m.b5.b3, m.b6.b3, m.b7.b3),
          Slice(m.b0.b4, m.b1.b4, m.b2.b4, m.b3.b4, m.b4.b4, m.b5.b4, m.b6.b4, m.b7.b4),
          Slice(m.b0.b5, m.b1.b5, m.b2.b5, m.b3.b5, m.b4.b5, m.b5.b5, m.b6.b5, m.b7.b5),
          Slice(m.b0.b6, m.b1.b6, m.b2.b6, m.b3.b6, m.b4.b6, m.b5.b6, m.b6.b6, m.b7.b6),
          Slice(m.b0.b7, m.b1.b7, m.b2.b7, m.b3.b7, m.b4.b7, m.b5.b7, m.b6.b7, m.b7.b7))
  }

  lemma SwapsTranspose(m: Slice<Byte>)
    ensures ByteSwaps8(ByteSwaps4(ByteSwaps2(m))) == Transposed(m)
  {
  }

  lemma TransposedTwice(m: Slice<Byte>)
    ensures Transposed(Transposed(m)) == m
  {
  }

  /** aes_ct_ortho transposes the bits of every group of eight bytes. */
  lemma OrthoRows(q: Slice<bv32>, s: bv32)
    requires Aligned(s)
    ensures Rows(Ortho(q), s) == Transposed(Rows(q, s))
  {
    hide Rows, Swaps2, Swaps4, Swaps8, ByteSwaps2, ByteSwaps4, ByteSwaps8, Transposed;
    Swaps2Rows(q, s);
    Swaps4Rows(Swaps2(q), s);
    Swaps8Rows(Swaps4(Swaps2(q)), s);
    SwapsTranspose(Rows(q, s));
  }

  lemma LanesOfRows(q: Slice<bv32>, s: bv32)
    requires Aligned(s)
    ensures Transposed(Rows(q, s))
         == Slice(Lane(q, s), Lane(q, s + 1), Lane(q, s + 2), Lane(q, s + 3), Lane(q, s + 4), Lane(q, s + 5),
                  Lane(q, s + 6), Lane(q, s + 7))
  {
    hide Bit;
  }

  lemma SameRows(q: Slice<bv32>, p: Slice<bv32>)
    requires Rows(q, 0) == Rows(p, 0)
    requires Rows(q, 8) == Rows(p, 8)
    requires Rows(q, 16) == Rows(p, 16)
    requires Rows(q, 24) == Rows(p, 24)
    ensures q == p
  {
    hide ByteOf;
    SameBytes(q.b0, p.b0);
    SameBytes(q.b1, p.b1);
    SameBytes(q.b2, p.b2);
    SameBytes(q.b3, p.b3);
    SameBytes(q.b4, p.b4);
    SameBytes(q.b5, p.b5);
    SameBytes(q.b6, p.b6);
    SameBytes(q.b7, p.b7);
  }

  lemma OrthoTwiceRows(q: Slice<bv32>, s: bv32)
    requires Aligned(s)
    ensures Rows(Ortho(Ortho(q)), s) == Rows(q, s)
  {
    hide Rows, Ortho, Transposed;
    OrthoRows(q, s);
    OrthoRows(Ortho(q), s);
    TransposedTwice(Rows(q, s));
  }

  /** aes_ct_ortho is its own inverse. */
  lemma OrthoTwice(q: Slice<bv32>)
    ensures Ortho(Ortho(q)) == q
  {
    hide Rows, Ortho;
    OrthoTwiceRows(q, 0);
    OrthoTwiceRows(q, 8);
    OrthoTwiceRows(q, 16);
    OrthoTwiceRows(q, 24);
    SameRows(Ortho(Ortho(q)), q);
  }

  lemma OrthoLanes(q: Slice<bv32>, s: bv32)
    requires Aligned(s)
    ensures var o := Ortho(q);
      Slice(Lane(o, s), Lane(o, s + 1), Lane(o, s + 2), Lane(o, s + 3), Lane(o, s + 4), Lane(o, s + 5),
            Lane(o, s + 6), Lane(o, s + 7)) == Rows(q, s)
  {
    hide Rows, Ortho, Transposed, Lane;
    OrthoRows(q, s);
    LanesOfRows(Ortho(q), s);
    TransposedTwice(Rows(q, s));
  }

  // ---------------------------------------------------------------------------------------------
  // A block held in four little-endian words, one column each

  function Pick<T>(c: nat, w0: T, w1: T, w2: T, w3: T): T {
    if c == 0 then w0 else if c == 1 then w1 else if c == 2 then w2 else w3
  }

  function InWords(w0: bv32, w1: bv32, w2: bv32, w3: bv32): (b: Block)
    ensures forall i: nat :: i < 16 ==> b[i] == ByteOf(Pick(i / 4, w0, w1, w2, w3), RowRank(i % 4))
  {
    seq(16, i requires 0 <= i < 16 => ByteOf(Pick(i / 4, w0, w1, w2, w3), RowRank(i % 4)))
  }

  /** The block of state l before the transposition. */
  function Loaded(q: Slice<bv32>, l: bv32): Block {
    if l == 0 then InWords(q.b0, q.b2, q.b4, q.b6) else InWords(q.b1, q.b3, q.b5, q.b7)
  }

  lemma RankIsPlace(i: nat, l: bv32)
    requires i < 16 && l < 2
    ensures Aligned(RowRank(i % 4))
    ensures Rank(i, l) == RowRank(i % 4) + ColumnRank(i / 4) + l
  {
  }

  /** Transposing loads the two blocks into the two states, and takes them out again. */
  lemma OrthoView(q: Slice<bv32>, l: bv32)
    requires l < 2
    ensures View(Ortho(q), l) == Loaded(q, l)
  {
    hide Ortho, Lane, ByteOf, Rank;
    forall i: nat | i < 16
      ensures View(Ortho(q), l)[i] == Loaded(q, l)[i]
    {
      var s := RowRank(i % 4);
      RankIsPlace(i, l);
      OrthoLanes(q, s);
    }
  }

  lemma OrthoLoaded(q: Slice<bv32>, l: bv32)
    requires l < 2
    ensures Loaded(Ortho(q), l) == View(q, l)
  {
    hide Ortho, View, Loaded;
    OrthoTwice(q);
    OrthoView(Ortho(q), l);
  }
}
