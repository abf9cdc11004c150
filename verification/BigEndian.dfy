/** Words of 32 bits as four bytes, the most significant first. */
module BigEndian {
  function Word(a: bv8, b: bv8, c: bv8, d: bv8): bv32 {
    ((a as bv32) << 24) | ((b as bv32) << 16) | ((c as bv32) << 8) | (d as bv32)
  }

  function Byte3(x: bv32): bv8 {
    ((x >> 24) & 0xff) as bv8
  }

  function Byte2(x: bv32): bv8 {
    ((x >> 16) & 0xff) as bv8
  }

  function Byte1(x: bv32): bv8 {
    ((x >> 8) & 0xff) as bv8
  }

  function Byte0(x: bv32): bv8 {
    (x & 0xff) as bv8
  }

  lemma WordOfBytes(x: bv32)
    ensures Word(Byte3(x), Byte2(x), Byte1(x), Byte0(x)) == x
  {
  }

  lemma BytesOfWord(a: bv8, b: bv8, c: bv8, d: bv8)
    ensures Byte3(Word(a, b, c, d)) == a
    ensures Byte2(Word(a, b, c, d)) == b
    ensures Byte1(Word(a, b, c, d)) == c
    ensures Byte0(Word(a, b, c, d)) == d
  {
  }
}
