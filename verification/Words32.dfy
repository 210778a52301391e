/** Words of 32 bits: the forms FIPS 180-1 gives for rotations, logical functions and sums, and those of
  the source. */
module Words32 {
  function Choice(b: bv32, c: bv32, d: bv32): bv32 {
    (b & c) | (!b & d)
  }

  function Parity(b: bv32, c: bv32, d: bv32): bv32 {
    b ^ c ^ d
  }

  lemma FlipThree(b: bv32, c: bv32, d: bv32, x: bv32)
    ensures b ^ c ^ (d ^ x) == (b ^ c ^ d) ^ x
  {
  }

  lemma FlipFour(a: bv32, b: bv32, c: bv32, d: bv32, x: bv32)
    ensures a ^ b ^ c ^ (d ^ x) == (a ^ b ^ c ^ d) ^ x
  {
  }

  lemma TurnThree(b: bv32, c: bv32, d: bv32)
    ensures b ^ c ^ d == c ^ d ^ b
  {
  }

  lemma TurnFour(a: bv32, b: bv32, c: bv32, d: bv32)
    ensures a ^ b ^ c ^ d == b ^ c ^ d ^ a
  {
  }

  /** Zeros have parity zero, flipping bits of the last word flips the bits of the parity, and (ParityTurns)
    the words can take each other's places; together they leave no other function. */
  lemma ParityFlips(b: bv32, c: bv32, d: bv32, x: bv32)
    ensures Parity(0, 0, 0) == 0 && Parity(b, c, d ^ x) == Parity(b, c, d) ^ x
  {
    FlipThree(b, c, d, x);
  }

  lemma ParityTurns(b: bv32, c: bv32, d: bv32)
    ensures Parity(b, c, d) == Parity(c, d, b)
  {
    TurnThree(b, c, d);
  }

  function Majority(b: bv32, c: bv32, d: bv32): bv32 {
    (b & c) | (b & d) | (c & d)
  }

  function Rotate1(x: bv32): bv32 {
    x.RotateLeft(1)
  }

  function Rotate5(x: bv32): bv32 {
    x.RotateLeft(5)
  }

  function Rotate30(x: bv32): bv32 {
    x.RotateLeft(30)
  }

  function Mixed(a: bv32, b: bv32, c: bv32, d: bv32): bv32 {
    a ^ b ^ c ^ d
  }

  lemma MixedFlips(a: bv32, b: bv32, c: bv32, d: bv32, x: bv32)
    ensures Mixed(0, 0, 0, 0) == 0 && Mixed(a, b, c, d ^ x) == Mixed(a, b, c, d) ^ x
  {
    FlipFour(a, b, c, d, x);
  }

  lemma MixedTurns(a: bv32, b: bv32, c: bv32, d: bv32)
    ensures Mixed(a, b, c, d) == Mixed(b, c, d, a)
  {
    TurnFour(a, b, c, d);
  }

  method MixWords(a: bv32, b: bv32, c: bv32, d: bv32) returns (x: bv32)
    ensures x == Mixed(a, b, c, d)
  {
    x := a ^ b ^ c ^ d;
  }

  function Temp(a5: bv32, f: bv32, e: bv32, w: bv32, k: bv32): bv32 {
    a5 + f + e + w + k
  }

  function S1(x: bv32): bv32 {
    (x << 1) | ((x & 0xFFFFFFFF) >> 31)
  }

  function S5(x: bv32): bv32 {
    (x << 5) | ((x & 0xFFFFFFFF) >> 27)
  }

  function S30(x: bv32): bv32 {
    (x << 30) | ((x & 0xFFFFFFFF) >> 2)
  }

  lemma RotationsAgree(x: bv32)
    ensures S1(x) == Rotate1(x) && S5(x) == Rotate5(x) && S30(x) == Rotate30(x)
  {
  }

  function Choose(x: bv32, y: bv32, z: bv32): bv32 {
    z ^ (x & (y ^ z))
  }

  lemma ChooseIsChoice(x: bv32, y: bv32, z: bv32)
    ensures Choose(x, y, z) == Choice(x, y, z)
  {
    ChoiceBits(x, y, z);
  }

  lemma ChoiceBits(x: bv32, y: bv32, z: bv32)
    ensures z ^ (x & (y ^ z)) == (x & y) | (!x & z)
  {
  }

  function Most(x: bv32, y: bv32, z: bv32): bv32 {
    (x & y) | (z & (x | y))
  }

  lemma MostIsMajority(x: bv32, y: bv32, z: bv32)
    ensures Most(x, y, z) == Majority(x, y, z)
  {
    MajorityBits(x, y, z);
  }

  lemma MajorityBits(x: bv32, y: bv32, z: bv32)
    ensures (x & y) | (z & (x | y)) == (x & y) | (x & z) | (y & z)
  {
  }

  function Sum(x: bv32, y: bv32): bv32 {
    x + y
  }

  method Plus(x: bv32, y: bv32) returns (z: bv32)
    ensures z == Sum(x, y)
  {
    z := x + y;
  }

  function Accumulated(e: bv32, a5: bv32, f: bv32, k: bv32, w: bv32): bv32 {
    e + (a5 + f + k + w)
  }

  lemma SumsAgree(e: bv32, a5: bv32, f: bv32, k: bv32, w: bv32)
    ensures Accumulated(e, a5, f, k, w) == Temp(a5, f, e, w, k)
  {
  }
}
