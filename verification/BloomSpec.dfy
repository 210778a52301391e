/** What a counting Bloom filter with a reverse index holds, and what its operations do to it.

  Records are byte strings, as in the source: the hashes of the keys that use a position, one
  after the other, with whatever bytes an operation leaves behind them. */
module BloomSpec {
  import opened Bitset

  type Key = Bytes

  /** Hash size in bytes, filter size in bits, and a family of hash functions. */
  datatype Params = Params(hashSize: nat, filterSize: nat, functionCount: nat, hash: (Key, nat) -> nat) {
    ghost predicate Valid() {
      hashSize > 0 && filterSize > 0 && functionCount > 0
    }

    function Pos(key: Key, i: nat): (p: nat)
      requires filterSize > 0
      ensures p < filterSize
    {
      hash(key, i) % filterSize
    }

    /** The positions of the hash functions from i on. */
    function PositionsFrom(key: Key, i: nat): set<nat>
      requires filterSize > 0
    {
      set j | i <= j < functionCount :: Pos(key, j)
    }

    function Positions(key: Key): set<nat>
      requires filterSize > 0
    {
      PositionsFrom(key, 0)
    }

    ghost predicate DistinctFrom(key: Key, i: nat)
      requires filterSize > 0
    {
      forall j, l :: i <= j < l < functionCount ==> Pos(key, j) != Pos(key, l)
    }

    /** No two hash functions send the key to the same position. */
    ghost predicate Distinct(key: Key)
      requires filterSize > 0
    {
      DistinctFrom(key, 0)
    }

    /** How many of the hash functions from i on send the key to a position. */
    function Uses(key: Key, p: nat, i: nat): nat
      requires filterSize > 0
      decreases functionCount - i
    {
      if i >= functionCount then 0
      else Uses(key, p, i + 1) + if Pos(key, i) == p then 1 else 0
    }

    function ByteSize(): (b: nat)
      ensures filterSize <= 8 * b < filterSize + 8
    {
      (filterSize + 7) / 8
    }
  }

  /** One more than the largest item count. */
  const COUNTS: nat := 0x1_0000_0000_0000_0000

  /** The item counter stops at its largest value. */
  function CountOne(items: nat): nat {
    if items < COUNTS - 1 then items + 1 else items
  }

  type Index = map<nat, Bytes>

  datatype Filter = Filter(bits: seq<bool>, index: Index)

  /** The whole hashes a record is read as; bytes after the last whole hash are not read. */
  function Entries(rec: Bytes, hs: nat): seq<Key>
    requires hs > 0
  {
    if |rec| < hs then [] else [rec[..hs]] + Entries(rec[hs..], hs)
  }

  function RecordAt(index: Index, p: nat): Bytes {
    if p in index then index[p] else []
  }

  ghost predicate Contains(q: Params, bits: seq<bool>, key: Key)
    requires q.filterSize > 0 && |bits| >= q.filterSize
  {
    forall p :: p in q.Positions(key) ==> bits[p]
  }

  // ----- adding a key

  /** Enters the key at the positions of its hash functions from i on; stops early, with false,
    at a position that already lists it. */
  function AddIndex(q: Params, index: Index, key: Key, i: nat): (Index, bool)
    requires q.hashSize > 0 && q.filterSize > 0
    decreases q.functionCount - i
  {
    if i >= q.functionCount then (index, true)
    else
      var p := q.Pos(key, i);
      if p !in index then AddIndex(q, index[p := key], key, i + 1)
      else if key in Entries(index[p], q.hashSize) then (index, false)
      else AddIndex(q, index[p := index[p] + key], key, i + 1)
  }

  function SetBits(q: Params, bits: seq<bool>, key: Key, i: nat): (r: seq<bool>)
    requires q.filterSize > 0 && |bits| >= q.filterSize
    ensures |r| == |bits|
    decreases q.functionCount - i
  {
    if i >= q.functionCount then bits else SetBits(q, bits[q.Pos(key, i) := true], key, i + 1)
  }

  function AddKey(q: Params, f: Filter, key: Key): (r: Filter)
    requires q.hashSize > 0 && q.filterSize > 0 && |f.bits| >= q.filterSize
    ensures |r.bits| == |f.bits|
  {
    var (index, completed) := AddIndex(q, f.index, key, 0);
    Filter(if completed then SetBits(q, f.bits, key, 0) else f.bits, index)
  }

  ghost predicate Completes(q: Params, index: Index, key: Key)
    requires q.hashSize > 0 && q.filterSize > 0
  {
    AddIndex(q, index, key, 0).1
  }

  // ----- removing a key

  /** The entries of a record moved to its front, those equal to the key overwritten by the next. */
  function Compact(buf: Bytes, src: nat, dst: nat, key: Key, hs: nat): (r: Bytes)
    requires hs > 0 && dst <= src
    ensures |r| == |buf|
    decreases |buf| - src
  {
    if src + hs > |buf| then buf
    else
      var e := buf[src..src+hs];
      Compact(buf[..dst] + e + buf[dst+hs..], src + hs, if e == key then dst else dst + hs, key, hs)
  }

  /** What is written back of a record with several entries: one byte less than before. */
  function Shrunk(rec: Bytes, key: Key, hs: nat): (r: Bytes)
    requires hs > 0 && |rec| > 0
    ensures |r| == |rec| - 1
  {
    Compact(rec, 0, 0, key, hs)[..|rec|-1]
  }

  /** One position of a removal. */
  function RemoveAt(q: Params, f: Filter, key: Key, p: nat): (r: (Filter, bool))
    requires q.hashSize > 0 && p < |f.bits|
    ensures |r.0.bits| == |f.bits|
  {
    if p !in f.index then (f, false)
    else if |f.index[p]| / q.hashSize > 1 then
      (Filter(f.bits, f.index[p := Shrunk(f.index[p], key, q.hashSize)]), false)
    else
      (Filter(f.bits[p := false], f.index - {p}), true)
  }

  function RemoveFrom(q: Params, f: Filter, key: Key, i: nat): (r: (Filter, bool))
    requires q.hashSize > 0 && q.filterSize > 0 && |f.bits| >= q.filterSize
    ensures |r.0.bits| == |f.bits|
    decreases q.functionCount - i
  {
    if i >= q.functionCount then (f, false)
    else
      var (g, found) := RemoveAt(q, f, key, q.Pos(key, i));
      var (h, more) := RemoveFrom(q, g, key, i + 1);
      (h, found || more)
  }

  function RemoveKey(q: Params, f: Filter, key: Key): (r: (Filter, bool))
    requires q.hashSize > 0 && q.filterSize > 0 && |f.bits| >= q.filterSize
    ensures |r.0.bits| == |f.bits|
  {
    if forall i :: 0 <= i < q.functionCount ==> f.bits[q.Pos(key, i)] then RemoveFrom(q, f, key, 0) else (f, false)
  }

  // ----- comparing with another filter

  /** Local keys listed at one position when only the local filter has its bit. */
  function DiffAt(q: Params, f: Filter, remote: bool, p: nat): seq<Key>
    requires q.hashSize > 0 && p < |f.bits|
  {
    if !remote && f.bits[p] && p <= q.filterSize && p in f.index then Entries(f.index[p], q.hashSize) else []
  }

  /** What comparing remote bits from position base on reports. */
  function Diff(q: Params, f: Filter, remote: seq<bool>, base: nat): seq<Key>
    requires q.hashSize > 0 && base + |remote| <= |f.bits|
  {
    if remote == [] then [] else DiffAt(q, f, remote[0], base) + Diff(q, f, remote[1..], base + 1)
  }

  lemma {:induction false} DiffConcat(q: Params, f: Filter, a: seq<bool>, b: seq<bool>, base: nat)
    requires q.hashSize > 0 && base + |a| + |b| <= |f.bits|
    ensures Diff(q, f, a + b, base) == Diff(q, f, a, base) + Diff(q, f, b, base + |a|)
  {
    if a == [] {
      assert a + b == b;
    } else {
      DiffConcat(q, f, a[1..], b, base + 1);
      assert (a + b)[1..] == a[1..] + b;
    }
  }

  lemma DiffSnoc(q: Params, f: Filter, remote: seq<bool>, k: nat, base: nat)
    requires q.hashSize > 0 && base + |remote| <= |f.bits| && k < |remote|
    ensures Diff(q, f, remote[..k+1], base) == Diff(q, f, remote[..k], base) + DiffAt(q, f, remote[k], base + k)
  {
    hide DiffAt, Diff;
    assert remote[..k+1] == remote[..k] + [remote[k]];
    DiffConcat(q, f, remote[..k], [remote[k]], base);
    DiffOne(q, f, remote[k], base + k);
  }

  lemma DiffOne(q: Params, f: Filter, remote: bool, p: nat)
    requires q.hashSize > 0 && p < |f.bits|
    ensures Diff(q, f, [remote], p) == DiffAt(q, f, remote, p)
  {
    hide DiffAt;
    assert [remote][1..] == [];
  }
}
