/** The in-memory Bloom filter: adding keys one by one and in bulk, membership, union and
  intersection. */
module InMemoryFilter {
  import opened Arithmetic
  import opened Bitset
  import opened BloomSpec
  import opened BloomProofs

  // ----- what bulk addition does

  /** Adding keys one by one, first to last. */
  function AddOneByOne(q: Params, bits: seq<bool>, keys: seq<Key>): (r: seq<bool>)
    requires q.filterSize > 0 && |bits| >= q.filterSize
    ensures |r| == |bits|
  {
    if keys == [] then bits
    else SetBits(q, AddOneByOne(q, bits, keys[..|keys|-1]), keys[|keys|-1], 0)
  }

  function SetHashes(q: Params, bits: seq<bool>, hashes: seq<nat>): (r: seq<bool>)
    requires q.filterSize > 0 && |bits| >= q.filterSize
    ensures |r| == |bits|
  {
    if hashes == [] then bits
    else SetHashes(q, bits, hashes[..|hashes|-1])[hashes[|hashes|-1] % q.filterSize := true]
  }

  function KeyHashes(q: Params, key: Key, n: nat): seq<nat> {
    if n == 0 then [] else KeyHashes(q, key, n - 1) + [q.hash(key, n - 1)]
  }

  function AllHashes(q: Params, keys: seq<Key>): seq<nat> {
    if keys == [] then []
    else AllHashes(q, keys[..|keys|-1]) + KeyHashes(q, keys[|keys|-1], q.functionCount)
  }

  function Insert(x: nat, s: seq<nat>): seq<nat> {
    if s == [] || x <= s[0] then [x] + s else [s[0]] + Insert(x, s[1..])
  }

  function Sort(s: seq<nat>): seq<nat> {
    if s == [] then [] else Insert(s[0], Sort(s[1..]))
  }

  ghost predicate Sorted(s: seq<nat>) {
    s == [] || ((forall y :: y in s[1..] ==> s[0] <= y) && Sorted(s[1..]))
  }

  lemma {:induction false} InsertMember(x: nat, s: seq<nat>)
    ensures multiset(Insert(x, s)) == multiset{x} + multiset(s)
    ensures forall y :: y in Insert(x, s) <==> y == x || y in s
  {
    if s != [] && s[0] < x {
      InsertMember(x, s[1..]);
      assert s == [s[0]] + s[1..];
    }
  }

  lemma {:induction false} InsertSorts(x: nat, s: seq<nat>)
    requires Sorted(s)
    ensures Sorted(Insert(x, s))
  {
    if s != [] {
      if s[0] < x {
        InsertSorts(x, s[1..]);
        InsertMember(x, s[1..]);
      } else {
        assert ([x] + s)[1..] == s == [s[0]] + s[1..];
      }
    }
  }

  lemma {:induction false} SortSorts(s: seq<nat>)
    ensures Sorted(Sort(s)) && multiset(Sort(s)) == multiset(s)
  {
    if s != [] {
      SortSorts(s[1..]);
      InsertSorts(s[0], Sort(s[1..]));
      InsertMember(s[0], Sort(s[1..]));
      assert s == [s[0]] + s[1..];
    }
  }

  /** Some hash in the list has its bit at p. */
  ghost predicate Sets(q: Params, hashes: seq<nat>, p: nat)
    requires q.filterSize > 0
  {
    exists h :: h in hashes && h % q.filterSize == p
  }

  lemma SetsSnoc(q: Params, hashes: seq<nat>, h: nat, p: nat)
    requires q.filterSize > 0
    ensures Sets(q, hashes + [h], p) <==> Sets(q, hashes, p) || h % q.filterSize == p
  {
    if Sets(q, hashes, p) {
      var g :| g in hashes && g % q.filterSize == p;
      assert g in hashes + [h];
    }
    assert h in hashes + [h];
  }

  lemma {:induction false} SetHashesAt(q: Params, bits: seq<bool>, hashes: seq<nat>, p: nat)
    requires q.filterSize > 0 && |bits| >= q.filterSize && p < |bits|
    ensures SetHashes(q, bits, hashes)[p] <==> bits[p] || Sets(q, hashes, p)
  {
    if hashes != [] {
      hide Sets;
      var init, last := hashes[..|hashes|-1], hashes[|hashes|-1];
      SetHashesAt(q, bits, init, p);
      SetsSnoc(q, init, last, p);
      assert hashes == init + [last];
    }
  }

  /** The order of the hashes does not matter. */
  lemma SetInAnyOrder(q: Params, bits: seq<bool>, hashes: seq<nat>, hashes': seq<nat>)
    requires q.filterSize > 0 && |bits| >= q.filterSize && multiset(hashes) == multiset(hashes')
    ensures SetHashes(q, bits, hashes) == SetHashes(q, bits, hashes')
  {
    forall h
      ensures h in hashes <==> h in hashes'
    {
      assert h in multiset(hashes) <==> h in multiset(hashes');
    }
    forall p | 0 <= p < |bits|
      ensures SetHashes(q, bits, hashes)[p] == SetHashes(q, bits, hashes')[p]
    {
      SetHashesAt(q, bits, hashes, p);
      SetHashesAt(q, bits, hashes', p);
    }
  }

  lemma {:induction false} SetHashesConcat(q: Params, bits: seq<bool>, a: seq<nat>, b: seq<nat>)
    requires q.filterSize > 0 && |bits| >= q.filterSize
    ensures SetHashes(q, bits, a + b) == SetHashes(q, SetHashes(q, bits, a), b)
  {
    if b == [] {
      assert a + b == a;
    } else {
      SetHashesConcat(q, bits, a, b[..|b|-1]);
      assert (a + b)[..|a+b|-1] == a + b[..|b|-1];
    }
  }

  lemma {:induction false} KeyHashesMember(q: Params, key: Key, n: nat, h: nat)
    ensures h in KeyHashes(q, key, n) <==> exists j :: 0 <= j < n && h == q.hash(key, j)
  {
    if n > 0 {
      KeyHashesMember(q, key, n - 1, h);
    }
  }

  lemma SetKeyHashes(q: Params, bits: seq<bool>, key: Key)
    requires q.filterSize > 0 && |bits| >= q.filterSize
    ensures SetHashes(q, bits, KeyHashes(q, key, q.functionCount)) == SetBits(q, bits, key, 0)
  {
    hide SetHashes, SetBits, Sets, KeyHashes;
    SetBitsAt(q, bits, key, 0);
    var hashes := KeyHashes(q, key, q.functionCount);
    forall p | 0 <= p < |bits|
      ensures SetHashes(q, bits, hashes)[p] == SetBits(q, bits, key, 0)[p]
    {
      SetHashesAt(q, bits, hashes, p);
      KeyPositions(q, key, p);
    }
  }

  lemma KeyPositions(q: Params, key: Key, p: nat)
    requires q.filterSize > 0
    ensures p in q.Positions(key) <==> Sets(q, KeyHashes(q, key, q.functionCount), p)
  {
    var hashes := KeyHashes(q, key, q.functionCount);
    if p in q.Positions(key) {
      var j :| 0 <= j < q.functionCount && q.Pos(key, j) == p;
      KeyHashesMember(q, key, q.functionCount, q.hash(key, j));
      assert q.hash(key, j) in hashes && q.hash(key, j) % q.filterSize == p;
    }
    if h :| h in hashes && h % q.filterSize == p {
      KeyHashesMember(q, key, q.functionCount, h);
      var j :| 0 <= j < q.functionCount && h == q.hash(key, j);
      assert q.Pos(key, j) == p;
    }
  }

  /** Setting the bits of all hashes in sorted order is adding the keys one by one. */
  lemma {:induction false} BulkIsOneByOne(q: Params, bits: seq<bool>, keys: seq<Key>)
    requires q.filterSize > 0 && |bits| >= q.filterSize
    ensures SetHashes(q, bits, Sort(AllHashes(q, keys))) == AddOneByOne(q, bits, keys)
  {
    SortSorts(AllHashes(q, keys));
    SetInAnyOrder(q, bits, Sort(AllHashes(q, keys)), AllHashes(q, keys));
    if keys != [] {
      var init, last := keys[..|keys|-1], keys[|keys|-1];
      BulkIsOneByOne(q, bits, init);
      SortSorts(AllHashes(q, init));
      SetInAnyOrder(q, bits, Sort(AllHashes(q, init)), AllHashes(q, init));
      SetHashesConcat(q, bits, AllHashes(q, init), KeyHashes(q, last, q.functionCount));
      SetKeyHashes(q, AddOneByOne(q, bits, init), last);
    }
  }

  // ----- counting items

  function CountOneByOne(items: nat, n: nat): nat {
    if n == 0 then items else CountOne(CountOneByOne(items, n - 1))
  }

  /** The sum is taken modulo the counter's size before it is compared. */
  function CountAll(items: nat, n: nat): nat {
    var sum := (items + n) % COUNTS;
    if sum < COUNTS - 1 then sum else COUNTS - 1
  }

  lemma {:induction false} CountSaturates(items: nat, n: nat)
    requires items < COUNTS
    ensures CountOneByOne(items, n) == if items + n < COUNTS then items + n else COUNTS - 1
  {
    if n > 0 {
      CountSaturates(items, n - 1);
    }
  }

  /** Bulk addition counts as single additions do exactly when the sum does not wrap around. */
  lemma CountAllIff(items: nat, n: nat)
    requires items < COUNTS && n < COUNTS
    ensures CountAll(items, n) == CountOneByOne(items, n) <==> items + n < COUNTS
  {
    CountSaturates(items, n);
    if items + n < COUNTS {
      DivModSmall(items + n, COUNTS);
    } else {
      DivModUnique(items + n, COUNTS, 1, items + n - COUNTS);
    }
  }

  class BloomFilter {
    const q: Params
    const hardMaximum: bool
    const maxElements: nat
    const bitArray: array<bv8>
    var itemCount: nat

    ghost predicate Valid()
      reads this
    {
      q.Valid() && bitArray.Length == q.ByteSize() && itemCount < COUNTS
    }

    ghost function Bits(): (bits: seq<bool>)
      requires Valid()
      reads this, bitArray
      ensures |bits| == 8 * q.ByteSize() >= q.filterSize
    {
      Unpack(bitArray[..])
    }

    constructor (params: Params, hard: bool, max: nat)
      requires params.Valid()
      ensures Valid() && q == params && hardMaximum == hard && maxElements == max
      ensures fresh(bitArray) && itemCount == 0 && forall p :: 0 <= p < |Bits()| ==> !Bits()[p]
    {
      q, hardMaximum, maxElements := params, hard, max;
      bitArray := new bv8[params.ByteSize()](_ => 0);
      itemCount := 0;
      new;
      UnpackZeros(bitArray[..]);
    }

    method SetHash(h: nat)
      requires Valid()
      modifies bitArray
      ensures Bits() == old(Bits())[h % q.filterSize := true]
    {
      var pos := h % q.filterSize;
      UnpackSet(bitArray[..], pos);
      ghost var before := bitArray[..];
      bitArray[pos / 8] := WithBit(bitArray[pos / 8], pos % 8);
      assert bitArray[..] == BitSet(before, pos);
    }

    method Add(key: Key) returns (thrown: bool)
      requires Valid()
      modifies this`itemCount, bitArray
      ensures Valid() && (thrown <==> hardMaximum && old(itemCount) >= maxElements)
      ensures thrown ==> Bits() == old(Bits()) && itemCount == old(itemCount)
      ensures !thrown ==> Bits() == SetBits(q, old(Bits()), key, 0) && itemCount == CountOne(old(itemCount))
    {
      if hardMaximum && itemCount >= maxElements {
        return true;
      }
      for i := 0 to q.functionCount
        invariant Valid() && itemCount == old(itemCount)
        invariant SetBits(q, Bits(), key, i) == SetBits(q, old(Bits()), key, 0)
      {
        SetHash(q.hash(key, i));
      }
      if itemCount < COUNTS - 1 {
        itemCount := itemCount + 1;
      }
      return false;
    }

    /** The hashes of all keys, in the order of the keys. */
    method HashAll(keys: seq<Key>) returns (hashes: seq<nat>)
      requires Valid()
      ensures hashes == AllHashes(q, keys)
    {
      hashes := [];
      for i := 0 to |keys|
        invariant hashes == AllHashes(q, keys[..i])
      {
        ghost var before := hashes;
        for j := 0 to q.functionCount
          invariant hashes == before + KeyHashes(q, keys[i], j)
        {
          hashes := hashes + [q.hash(keys[i], j)];
        }
        assert keys[..i+1][..i] == keys[..i];
      }
      assert keys[..|keys|] == keys;
    }

    method SetAll(hashes: seq<nat>)
      requires Valid()
      modifies bitArray
      ensures Bits() == SetHashes(q, old(Bits()), hashes)
    {
      for i := 0 to |hashes|
        invariant Valid() && Bits() == SetHashes(q, old(Bits()), hashes[..i])
      {
        assert hashes[..i+1][..i] == hashes[..i];
        SetHash(hashes[i]);
      }
      assert hashes[..|hashes|] == hashes;
    }

    method AddAll(keys: seq<Key>) returns (thrown: bool)
      requires Valid() && |keys| < COUNTS
      modifies this`itemCount, bitArray
      ensures Valid() && (thrown <==> hardMaximum && (old(itemCount) + |keys|) % COUNTS > maxElements)
      ensures thrown ==> Bits() == old(Bits()) && itemCount == old(itemCount)
      ensures !thrown ==> Bits() == AddOneByOne(q, old(Bits()), keys) && itemCount == CountAll(old(itemCount), |keys|)
    {
      if hardMaximum && (itemCount + |keys|) % COUNTS > maxElements {
        return true;
      }
      var hashes := HashAll(keys);
      BulkIsOneByOne(q, Bits(), keys);
      SetAll(Sort(hashes));
      itemCount := if (itemCount + |keys|) % COUNTS < COUNTS - 1 then (itemCount + |keys|) % COUNTS else COUNTS - 1;
      return false;
    }

    method Contains(key: Key) returns (r: bool)
      requires Valid()
      ensures r <==> BloomSpec.Contains(q, Bits(), key)
    {
      for i := 0 to q.functionCount
        invariant forall j :: 0 <= j < i ==> Bits()[q.Pos(key, j)]
      {
        var pos := q.Pos(key, i);
        if !HasBit(bitArray[pos / 8], pos % 8) {
          assert !Bits()[pos] && pos in q.Positions(key);
          return false;
        }
      }
      return true;
    }

    /** The number of the first key not contained, or the number of keys. */
    method ContainsAll(keys: seq<Key>) returns (i: nat)
      requires Valid()
      ensures i <= |keys| && forall j :: 0 <= j < i ==> BloomSpec.Contains(q, Bits(), keys[j])
      ensures i < |keys| ==> !BloomSpec.Contains(q, Bits(), keys[i])
    {
      i := 0;
      while i < |keys|
        invariant i <= |keys| && forall j :: 0 <= j < i ==> BloomSpec.Contains(q, Bits(), keys[j])
      {
        var r := Contains(keys[i]);
        if !r {
          return;
        }
        i := i + 1;
      }
    }

    /** Union with a filter of the same size; a filter of another size changes nothing. */
    method Unite(other: BloomFilter)
      requires Valid() && other.Valid() && (other == this || bitArray != other.bitArray)
      modifies bitArray
      ensures Valid() && other.Valid() && other.Bits() == old(other.Bits())
      ensures Bits() == if q.filterSize == other.q.filterSize then Or(old(Bits()), other.Bits()) else old(Bits())
    {
      if q.filterSize == other.q.filterSize {
        ghost var mine, theirs := bitArray[..], other.bitArray[..];
        for i := 0 to bitArray.Length
          invariant forall k :: 0 <= k < i ==> bitArray[k] == mine[k] | theirs[k]
          invariant bitArray[i..] == mine[i..]
          invariant other.bitArray[..] == theirs
        {
          SameByte(bitArray[i]);
          bitArray[i] := bitArray[i] | other.bitArray[i];
        }
        UnpackOr(mine, theirs, bitArray[..]);
      }
    }

    method Intersect(other: BloomFilter)
      requires Valid() && other.Valid() && (other == this || bitArray != other.bitArray)
      modifies bitArray
      ensures Valid() && other.Valid() && other.Bits() == old(other.Bits())
      ensures Bits() == if q.filterSize == other.q.filterSize then And(old(Bits()), other.Bits()) else old(Bits())
    {
      if q.filterSize == other.q.filterSize {
        ghost var mine, theirs := bitArray[..], other.bitArray[..];
        for i := 0 to bitArray.Length
          invariant forall k :: 0 <= k < i ==> bitArray[k] == mine[k] & theirs[k]
          invariant bitArray[i..] == mine[i..]
          invariant other.bitArray[..] == theirs
        {
          SameByte(bitArray[i]);
          bitArray[i] := bitArray[i] & other.bitArray[i];
        }
        UnpackAnd(mine, theirs, bitArray[..]);
      }
    }
  }

  lemma SameByte(x: bv8)
    ensures x | x == x && x & x == x
  {
  }

  function Or(a: seq<bool>, b: seq<bool>): (c: seq<bool>)
    requires |a| == |b|
    ensures |c| == |a|
  {
    seq(|a|, i requires 0 <= i < |a| && |a| == |b| => a[i] || b[i])
  }

  function And(a: seq<bool>, b: seq<bool>): (c: seq<bool>)
    requires |a| == |b|
    ensures |c| == |a|
  {
    seq(|a|, i requires 0 <= i < |a| && |a| == |b| => a[i] && b[i])
  }

  lemma UnpackOr(a: Bytes, b: Bytes, c: Bytes)
    requires |a| == |b| == |c| && forall k :: 0 <= k < |a| ==> c[k] == a[k] | b[k]
    ensures Unpack(c) == Or(Unpack(a), Unpack(b))
  {
    hide HasBit;
    forall i | 0 <= i < 8 * |a|
      ensures BitTest(c, i) == (BitTest(a, i) || BitTest(b, i))
    {
      BitwiseBit(a[i / 8], b[i / 8], i % 8);
    }
  }

  lemma UnpackAnd(a: Bytes, b: Bytes, c: Bytes)
    requires |a| == |b| == |c| && forall k :: 0 <= k < |a| ==> c[k] == a[k] & b[k]
    ensures Unpack(c) == And(Unpack(a), Unpack(b))
  {
    hide HasBit;
    forall i | 0 <= i < 8 * |a|
      ensures BitTest(c, i) == (BitTest(a, i) && BitTest(b, i))
    {
      BitwiseBit(a[i / 8], b[i / 8], i % 8);
    }
  }

  lemma BitwiseBit(x: bv8, y: bv8, j: nat)
    requires j < 8
    ensures HasBit(x | y, j) == (HasBit(x, j) || HasBit(y, j))
    ensures HasBit(x & y, j) == (HasBit(x, j) && HasBit(y, j))
  {
  }

  // ----- the filter of a set of keys

  /** The bits set are exactly the positions of the keys. */
  ghost predicate HoldsExactly(q: Params, bits: seq<bool>, keys: set<Key>)
    requires q.filterSize > 0
  {
    forall p :: 0 <= p < |bits| ==> (bits[p] <==> exists k :: k in keys && p in q.Positions(k))
  }

  function KeySet(keys: seq<Key>): set<Key> {
    set k | k in keys
  }

  lemma {:induction false} AddedKeysHeld(q: Params, bits: seq<bool>, held: set<Key>, keys: seq<Key>)
    requires q.filterSize > 0 && |bits| >= q.filterSize && HoldsExactly(q, bits, held)
    ensures HoldsExactly(q, AddOneByOne(q, bits, keys), held + KeySet(keys))
  {
    if keys == [] {
      assert held + KeySet(keys) == held;
    } else {
      var init, last := keys[..|keys|-1], keys[|keys|-1];
      AddedKeysHeld(q, bits, held, init);
      SetBitsAt(q, AddOneByOne(q, bits, init), last, 0);
      assert keys == init + [last];
      assert held + KeySet(keys) == held + KeySet(init) + {last};
    }
  }

  /** No false negatives, whatever was added and united. */
  lemma HeldIsContained(q: Params, bits: seq<bool>, keys: set<Key>, k: Key)
    requires q.filterSize > 0 && |bits| >= q.filterSize && HoldsExactly(q, bits, keys) && k in keys
    ensures BloomSpec.Contains(q, bits, k)
  {
  }

  /** The union of two filters is the filter of the union. */
  lemma UnionHolds(q: Params, a: seq<bool>, b: seq<bool>, keys: set<Key>, keys': set<Key>)
    requires q.filterSize > 0 && |a| == |b| && HoldsExactly(q, a, keys) && HoldsExactly(q, b, keys')
    ensures HoldsExactly(q, Or(a, b), keys + keys')
  {
    forall p | 0 <= p < |a|
      ensures Or(a, b)[p] <==> exists k :: k in keys + keys' && p in q.Positions(k)
    {
      if k :| k in keys && p in q.Positions(k) {
        assert k in keys + keys';
      }
      if k :| k in keys' && p in q.Positions(k) {
        assert k in keys + keys';
      }
    }
  }

  /** An intersection contains just the keys that both filters contain. */
  lemma IntersectionContains(q: Params, a: seq<bool>, b: seq<bool>, k: Key)
    requires q.filterSize > 0 && |a| == |b| >= q.filterSize
    ensures BloomSpec.Contains(q, And(a, b), k) <==> BloomSpec.Contains(q, a, k) && BloomSpec.Contains(q, b, k)
  {
  }

  // ----- the bulk addition of the file-backed filter

  /** The bit of a hash there: the byte of the reduced hash, and in it the bit of the hash itself. */
  function FileBit(filterSize: nat, h: nat): nat
    requires filterSize > 0
  {
    8 * (h % filterSize / 8) + h % 8
  }

  /** Its bulk addition sets the bit that its single addition sets, for every hash, exactly when the
    filter is made of whole bytes. */
  lemma FileBitIff(filterSize: nat)
    requires filterSize > 0
    ensures (forall h: nat :: FileBit(filterSize, h) == h % filterSize) <==> filterSize % 8 == 0
  {
    if filterSize % 8 == 0 {
      forall h: nat
        ensures FileBit(filterSize, h) == h % filterSize
      {
        var m := filterSize / 8;
        ModOfMod(h, 8, m);
      }
    } else {
      DivModUnique(filterSize, filterSize, 1, 0);
      assert FileBit(filterSize, filterSize) == filterSize % 8;
    }
  }

  lemma FileBitFits(filterSize: nat, h: nat)
    requires filterSize > 0
    ensures FileBit(filterSize, h) < 8 * ((filterSize + 7) / 8)
    ensures FileBit(filterSize, h) / 8 == h % filterSize / 8 && FileBit(filterSize, h) % 8 == h % 8
  {
  }

  /** The source's indices of a hash: a byte of the filter, and a bit of that byte. */
  method ComputeIndices(filterSize: nat, hash: nat) returns (bit_index: nat, bit: nat)
    requires filterSize > 0
    ensures bit < 8 && 8 * bit_index + bit == FileBit(filterSize, hash)
  {
    bit_index := hash % filterSize / 8;
    bit := hash % 8;
  }

  /** Sets the bits of some hashes, none of them reduced before. */
  method SetFileBits(bitArray: array<bv8>, filterSize: nat, hashes: seq<nat>)
    requires filterSize > 0 && bitArray.Length == (filterSize + 7) / 8
    modifies bitArray
    ensures forall p :: 0 <= p < 8 * bitArray.Length ==>
              (Unpack(bitArray[..])[p] <==>
                old(Unpack(bitArray[..])[p]) || exists h :: h in hashes && FileBit(filterSize, h) == p)
  {
    hide FileBit;
    for i := 0 to |hashes|
      invariant forall p :: 0 <= p < 8 * bitArray.Length ==>
                  (Unpack(bitArray[..])[p] <==>
                    old(Unpack(bitArray[..])[p]) || exists h :: h in hashes[..i] && FileBit(filterSize, h) == p)
    {
      var bit_index, bit := ComputeIndices(filterSize, hashes[i]);
      var pos := 8 * bit_index + bit;
      FileBitFits(filterSize, hashes[i]);
      UnpackSet(bitArray[..], pos);
      ghost var before := bitArray[..];
      assert pos / 8 == bit_index && pos % 8 == bit;
      bitArray[bit_index] := WithBit(bitArray[bit_index], bit);
      assert bitArray[..] == BitSet(before, pos);
      assert hashes[..i+1] == hashes[..i] + [hashes[i]];
    }
    assert hashes[..|hashes|] == hashes;
  }
}
