/** A block of 16 bytes as four words of four bytes, its columns. */
module BlockColumns {
  import opened Fips197

  function Col(b: Block, c: nat): Word
    requires c < 4
  {
    WordAt(b, 4 * c)
  }

  lemma SameColumns(a: Block, b: Block)
    requires forall c: nat :: c < 4 ==> Col(a, c) == Col(b, c)
    ensures a == b
  {
    forall i: nat | i < 16
      ensures a[i] == b[i]
    {
      var c, r := i / 4, i % 4;
      assert Col(a, c) == Col(b, c);
      assert r == 0 || r == 1 || r == 2 || r == 3;
    }
  }

  /** The block whose columns are ws[4u] .. ws[4u + 3]. */
  function Columns(ws: seq<Word>, u: nat): Block
    requires 4 * u + 4 <= |ws|
  {
    seq(16, i requires 0 <= i < 16 => Row(ws[4 * u + i / 4], i % 4))
  }

  lemma ColOfColumns(ws: seq<Word>, u: nat, c: nat)
    requires 4 * u + 4 <= |ws| && c < 4
    ensures Col(Columns(ws, u), c) == ws[4 * u + c]
  {
  }

  function State(s0: Word, s1: Word, s2: Word, s3: Word): Block {
    Columns([s0, s1, s2, s3], 0)
  }

  lemma ColOfState(s0: Word, s1: Word, s2: Word, s3: Word)
    ensures var b := State(s0, s1, s2, s3); Col(b, 0) == s0 && Col(b, 1) == s1 && Col(b, 2) == s2 && Col(b, 3) == s3
  {
    hide Columns, Col;
    ColOfColumns([s0, s1, s2, s3], 0, 0);
    ColOfColumns([s0, s1, s2, s3], 0, 1);
    ColOfColumns([s0, s1, s2, s3], 0, 2);
    ColOfColumns([s0, s1, s2, s3], 0, 3);
  }

  lemma StateIs(s0: Word, s1: Word, s2: Word, s3: Word, b: Block)
    requires Col(b, 0) == s0 && Col(b, 1) == s1 && Col(b, 2) == s2 && Col(b, 3) == s3
    ensures State(s0, s1, s2, s3) == b
  {
    hide State, Col;
    ColOfState(s0, s1, s2, s3);
    SameColumns(State(s0, s1, s2, s3), b);
  }

  lemma AddedColumn(b: Block, k: Block, c: nat)
    requires c < 4
    ensures Col(AddRoundKey(b, k), c) == WordPlus(Col(b, c), Col(k, c))
  {
    hide Plus;
  }
}
