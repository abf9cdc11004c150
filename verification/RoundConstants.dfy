/** The table of round constants, which both implementations hold. */
module RoundConstants {
  import opened BitGates
  import opened LinearCircuits
  import opened Fips197

  const RCON: seq<bv32> := [0x01, 0x02, 0x04, 0x08, 0x10, 0x20, 0x40, 0x80, 0x1b, 0x36]

  function RconAt(k: nat): bv32
    requires k < 10
  {
    RCON[k]
  }

  lemma {:induction false} RconRow(k: nat)
    requires k < 10
    ensures ByteOf(RconAt(k), 0) == RconByte(k + 1)
  {
    hide ByteOf, RconAt, Xtime, BITS, ONE;
    RconFirst();
    if k > 0 {
      RconRow(k - 1);
      RconDoubles(k);
    }
  }

  lemma RconFirst()
    ensures ByteOf(RconAt(0), 0) == ONE
  {
  }

  lemma RconDoubles(k: nat)
    requires 0 < k < 10
    ensures ByteOf(RconAt(k), 0) == Xtime(BITS, ByteOf(RconAt(k - 1), 0))
  {
  }

  lemma RconRest(k: nat)
    requires k < 10
    ensures ByteOf(RconAt(k), 8) == ByteOf(RconAt(k), 16) == ByteOf(RconAt(k), 24) == ZERO
  {
  }
}
