/** Bits packed into bytes, lowest bit first. */
module Bitset {
  type Bytes = seq<bv8>

  function BitMask(j: nat): bv8
    requires j < 8
  {
    match j
    case 0 => 0x01
    case 1 => 0x02
    case 2 => 0x04
    case 3 => 0x08
    case 4 => 0x10
    case 5 => 0x20
    case 6 => 0x40
    case _ => 0x80
  }

  /** The source's mask of bit j. */
  lemma MaskIsShift(j: nat)
    requires j < 8
    ensures BitMask(j) == 1 << j
  {
    match j
    case 0 =>
    case 1 =>
    case 2 =>
    case 3 =>
    case 4 =>
    case 5 =>
    case 6 =>
    case _ =>
  }

  // one bit of one byte

  predicate HasBit(x: bv8, j: nat)
    requires j < 8
  {
    x & BitMask(j) != 0
  }

  function WithBit(x: bv8, j: nat): bv8
    requires j < 8
  {
    x | BitMask(j)
  }

  function WithoutBit(x: bv8, j: nat): bv8
    requires j < 8
  {
    x & !BitMask(j)
  }

  lemma OneBit(x: bv8, i: nat, j: nat)
    requires i < 8 && j < 8
    ensures HasBit(WithBit(x, i), j) == (i == j || HasBit(x, j))
    ensures HasBit(WithoutBit(x, i), j) == (i != j && HasBit(x, j))
    ensures !HasBit(0, j)
  {
  }

  /** A byte is the sum of what its bits are worth, bit j being worth 2^j. */
  lemma ByteIsItsBits(x: bv8)
    ensures x == (if HasBit(x, 0) then 0x01 else 0) + (if HasBit(x, 1) then 0x02 else 0)
                 + (if HasBit(x, 2) then 0x04 else 0) + (if HasBit(x, 3) then 0x08 else 0)
                 + (if HasBit(x, 4) then 0x10 else 0) + (if HasBit(x, 5) then 0x20 else 0)
                 + (if HasBit(x, 6) then 0x40 else 0) + (if HasBit(x, 7) then 0x80 else 0)
  {
  }

  // bits of a byte string

  predicate BitTest(a: Bytes, i: nat)
    requires i / 8 < |a|
  {
    HasBit(a[i / 8], i % 8)
  }

  function BitSet(a: Bytes, i: nat): Bytes
    requires i / 8 < |a|
  {
    a[i / 8 := WithBit(a[i / 8], i % 8)]
  }

  function BitClear(a: Bytes, i: nat): Bytes
    requires i / 8 < |a|
  {
    a[i / 8 := WithoutBit(a[i / 8], i % 8)]
  }

  /** The bits of a byte string in the order of their numbers. */
  function Unpack(a: Bytes): (b: seq<bool>)
    ensures |b| == 8 * |a|
    ensures forall i :: 0 <= i < |b| ==> b[i] == BitTest(a, i)
  {
    seq(8 * |a|, i requires 0 <= i < 8 * |a| => BitTest(a, i))
  }

  lemma TestAfterSet(a: Bytes, i: nat, j: nat)
    requires i / 8 < |a| && j / 8 < |a|
    ensures BitTest(BitSet(a, i), j) == (i == j || BitTest(a, j))
    ensures BitTest(BitClear(a, i), j) == (i != j && BitTest(a, j))
  {
    hide HasBit, WithBit, WithoutBit;
    OneBit(a[i / 8], i % 8, j % 8);
  }

  lemma UnpackSet(a: Bytes, i: nat)
    requires i / 8 < |a|
    ensures Unpack(BitSet(a, i)) == Unpack(a)[i := true]
    ensures Unpack(BitClear(a, i)) == Unpack(a)[i := false]
  {
    hide BitTest;
    forall j: nat | j < 8 * |a|
      ensures BitTest(BitSet(a, i), j) == (i == j || BitTest(a, j))
      ensures BitTest(BitClear(a, i), j) == (i != j && BitTest(a, j))
    {
      TestAfterSet(a, i, j);
    }
  }

  lemma UnpackZeros(a: Bytes)
    requires forall i :: 0 <= i < |a| ==> a[i] == 0
    ensures forall i :: 0 <= i < 8 * |a| ==> !Unpack(a)[i]
  {
    hide HasBit;
    forall i | 0 <= i < 8 * |a|
      ensures !Unpack(a)[i]
    {
      OneBit(0, 0, i % 8);
    }
  }

  /** A byte is given by its eight bits. */
  lemma SameBits(x: bv8, y: bv8)
    requires forall j :: 0 <= j < 8 ==> HasBit(x, j) == HasBit(y, j)
    ensures x == y
  {
    assert HasBit(x, 0) == HasBit(y, 0) && HasBit(x, 1) == HasBit(y, 1);
    assert HasBit(x, 2) == HasBit(y, 2) && HasBit(x, 3) == HasBit(y, 3);
    assert HasBit(x, 4) == HasBit(y, 4) && HasBit(x, 5) == HasBit(y, 5);
    assert HasBit(x, 6) == HasBit(y, 6) && HasBit(x, 7) == HasBit(y, 7);
  }

  /** Unpacking loses nothing: byte strings with the same bits are the same. */
  lemma UnpackInjective(a: Bytes, b: Bytes)
    requires Unpack(a) == Unpack(b)
    ensures a == b
  {
    hide HasBit;
    assert |a| == |b|;
    forall i | 0 <= i < |a|
      ensures a[i] == b[i]
    {
      forall j | 0 <= j < 8
        ensures HasBit(a[i], j) == HasBit(b[i], j)
      {
        assert Unpack(a)[8 * i + j] == Unpack(b)[8 * i + j];
        assert (8 * i + j) / 8 == i && (8 * i + j) % 8 == j;
      }
      SameBits(a[i], b[i]);
    }
  }
}
