/** The counting Bloom filter: a bit array in memory and an index of keys in a key-value store. */
module CountingBloom {
  import opened Bitset
  import opened BloomSpec
  import opened BloomProofs
  import opened DiffHandlers
  import opened Wrappers

  class CountingBloomFilter {
    const q: Params
    const hardMaximum: bool
    const maxElements: nat
    const bitArray: array<bv8>
    /** The records of the store: one for each position, and one for the item count. */
    var index: Index
    var savedCount: Option<nat>
    var itemCount: nat
    /** Additions that ran to their end since the filter was last empty. */
    ghost var completed: nat

    ghost predicate Valid()
      reads this
    {
      && q.Valid() && bitArray.Length == q.ByteSize() && maxElements < COUNTS
      && itemCount == (if completed < COUNTS then completed else COUNTS - 1)
      && (savedCount.Some? ==> itemCount > 0)
    }

    ghost function State(): (f: Filter)
      requires Valid()
      reads this, bitArray
      ensures |f.bits| == 8 * q.ByteSize() >= q.filterSize
    {
      Filter(Unpack(bitArray[..]), index)
    }

    constructor Empty(params: Params, hard: bool, max: nat)
      requires params.Valid() && max < COUNTS
      ensures Valid() && q == params && hardMaximum == hard && maxElements == max
      ensures fresh(bitArray) && index == map[] && completed == 0
      ensures forall p :: 0 <= p < 8 * q.ByteSize() ==> !State().bits[p]
    {
      q, hardMaximum, maxElements := params, hard, max;
      bitArray := new bv8[params.ByteSize()](_ => 0);
      index, savedCount, itemCount, completed := map[], None, 0, 0;
      new;
      UnpackZeros(bitArray[..]);
    }

    /** Sets one bit of the bit array. */
    method SetBit(pos: nat)
      requires Valid() && pos < q.filterSize
      modifies bitArray
      ensures State() == old(State()).(bits := old(State()).bits[pos := true])
    {
      UnpackSet(bitArray[..], pos);
      ghost var before := bitArray[..];
      bitArray[pos / 8] := WithBit(bitArray[pos / 8], pos % 8);
      assert bitArray[..] == BitSet(before, pos);
    }

    method ClearBit(pos: nat)
      requires Valid() && pos < q.filterSize
      modifies bitArray
      ensures State() == old(State()).(bits := old(State()).bits[pos := false])
    {
      UnpackSet(bitArray[..], pos);
      ghost var before := bitArray[..];
      bitArray[pos / 8] := WithoutBit(bitArray[pos / 8], pos % 8);
      assert bitArray[..] == BitClear(before, pos);
    }

    /** Rebuilds the bit array from the index, as the constructor does for an existing store, and takes
      over the item count if the store has one. */
    constructor Reload(params: Params, hard: bool, max: nat, store: Index, saved: Option<nat>)
      requires params.Valid() && max < COUNTS && forall p :: p in store ==> p < params.filterSize
      requires saved.Some? ==> 0 < saved.value < COUNTS
      ensures Valid() && q == params && hardMaximum == hard && maxElements == max
      ensures fresh(bitArray) && index == store && savedCount == saved
      ensures itemCount == completed == if saved.Some? then saved.value else 0
      ensures forall p :: 0 <= p < 8 * q.ByteSize() ==> (State().bits[p] <==> p in store)
    {
      q, hardMaximum, maxElements := params, hard, max;
      bitArray := new bv8[params.ByteSize()](_ => 0);
      index, savedCount := store, saved;
      itemCount := if saved.Some? then saved.value else 0;
      completed := if saved.Some? then saved.value else 0;
      new;
      UnpackZeros(bitArray[..]);
      SetRecorded();
    }

    /** Sets the bits of all positions that have a record. */
    method SetRecorded()
      requires Valid() && (forall p :: p in index ==> p < q.filterSize)
      requires forall p :: 0 <= p < 8 * q.ByteSize() ==> !State().bits[p]
      modifies bitArray
      ensures Valid() && forall p :: 0 <= p < 8 * q.ByteSize() ==> (State().bits[p] <==> p in index)
    {
      var todo := index.Keys;
      while todo != {}
        invariant Valid() && todo <= index.Keys
        invariant forall p :: 0 <= p < 8 * q.ByteSize() ==> (State().bits[p] <==> p in index.Keys - todo)
        decreases |todo|
      {
        var pos :| pos in todo;
        SetBit(pos);
        todo := todo - {pos};
      }
    }

    method Contains(key: Key) returns (r: bool)
      requires Valid()
      ensures r <==> BloomSpec.Contains(q, State().bits, key)
    {
      for i := 0 to q.functionCount
        invariant forall j :: 0 <= j < i ==> State().bits[q.Pos(key, j)]
      {
        var pos := q.Pos(key, i);
        if !HasBit(bitArray[pos / 8], pos % 8) {
          assert !State().bits[pos] && pos in q.Positions(key);
          return false;
        }
      }
      return true;
    }

    /** Closes the filter: the item count goes to the store, unless it is zero. */
    method Close()
      requires Valid()
      modifies this`savedCount
      ensures Valid() && savedCount == if itemCount > 0 then Some(itemCount) else None
    {
      if itemCount > 0 {
        savedCount := Some(itemCount);
      }
    }

    /** Enters the key in the index, and then in the filter.  The filter throws when it has a hard
      maximum and as many additions have run to their end, removals or not; the index keeps what
      was entered. */
    method Add(key: Key) returns (r: Result<()>)
      requires Valid() && |key| == q.hashSize
      modifies this`index, this`itemCount, this`completed, bitArray
      ensures Valid()
      ensures r.Thrown? <==> Addable(q, old(index), key, 0) && hardMaximum && old(completed) >= maxElements
      ensures State() == var f := AddKey(q, old(State()), key);
                         if r.Thrown? then f.(bits := old(State()).bits) else f
      ensures completed == old(completed) + if Addable(q, old(index), key, 0) && r.Ok? then 1 else 0
    {
      var entered := EnterIndex(key);
      AddCompletesIff(q, old(index), key);
      hide Addable, AddIndex, Unlisted;
      if !entered {
        return Ok(());
      }
      r := AddBits(key);
    }

    /** False when it stops at a record that lists the key already. */
    method EnterIndex(key: Key) returns (entered: bool)
      requires Valid() && |key| == q.hashSize
      modifies this`index
      ensures (index, entered) == AddIndex(q, old(index), key, 0)
    {
      var i := 0;
      while i < q.functionCount
        invariant i <= q.functionCount
        invariant AddIndex(q, old(index), key, 0) == AddIndex(q, index, key, i)
      {
        var k := q.Pos(key, i);
        if k !in index {
          index := index[k := key];
        } else {
          var listed := Lists(index[k], key);
          if listed {
            return false;
          }
          index := index[k := index[k] + key];
        }
        i := i + 1;
      }
      return true;
    }

    /** Whether one of the whole hashes in a record is the key. */
    method Lists(rec: Bytes, key: Key) returns (r: bool)
      requires Valid()
      ensures r <==> key in Entries(rec, q.hashSize)
    {
      var rest := rec;
      while |rest| >= q.hashSize
        invariant key in Entries(rec, q.hashSize) <==> key in Entries(rest, q.hashSize)
        decreases |rest|
      {
        if rest[..q.hashSize] == key {
          return true;
        }
        rest := rest[q.hashSize..];
      }
      return false;
    }

    /** The add of the plain filter: counts the item and sets the bit of every hash function. */
    method AddBits(key: Key) returns (r: Result<()>)
      requires Valid()
      modifies this`itemCount, this`completed, bitArray
      ensures Valid() && (r.Thrown? <==> hardMaximum && old(completed) >= maxElements)
      ensures r.Thrown? ==> State() == old(State()) && completed == old(completed)
      ensures r.Ok? ==> State() == old(State()).(bits := SetBits(q, old(State()).bits, key, 0))
      ensures r.Ok? ==> completed == old(completed) + 1
    {
      if hardMaximum && itemCount >= maxElements {
        return Thrown;
      }
      for i := 0 to q.functionCount
        invariant Valid() && completed == old(completed)
        invariant SetBits(q, old(State()).bits, key, 0) == SetBits(q, State().bits, key, i)
      {
        SetBit(q.Pos(key, i));
      }
      itemCount := CountOne(itemCount);
      completed := completed + 1;
      return Ok(());
    }

    method Clear()
      requires Valid()
      modifies this`index, this`savedCount, this`itemCount, this`completed, bitArray
      ensures Valid() && State().index == map[] && completed == 0
      ensures forall p :: 0 <= p < 8 * q.ByteSize() ==> !State().bits[p]
    {
      index, savedCount, itemCount, completed := map[], None, 0, 0;
      forall i | 0 <= i < bitArray.Length {
        bitArray[i] := 0;
      }
      UnpackZeros(bitArray[..]);
    }

    method Remove(key: Key) returns (r: bool)
      requires Valid()
      modifies this`index, bitArray
      ensures Valid() && (State(), r) == RemoveKey(q, old(State()), key)
      ensures r <==> BloomSpec.Contains(q, old(State()).bits, key) && exists p :: Clears(q, old(index), key, 0, p)
    {
      RemoveAnswerIff(q, State(), key);
      ContainsByFunction(q, State().bits, key);
      hide Clears, RemoveFrom;
      var present := Contains(key);
      if !present {
        return false;
      }
      r := RemoveEverywhere(key);
    }

    /** Takes the key out of the record of each of its positions; true if that cleared one. */
    method RemoveEverywhere(key: Key) returns (r: bool)
      requires Valid()
      modifies this`index, bitArray
      ensures Valid() && (State(), r) == RemoveFrom(q, old(State()), key, 0)
    {
      hide Joined, Without, Entries, Compact;
      r := false;
      for i := 0 to q.functionCount
        invariant RemoveFrom(q, old(State()), key, 0) ==
                  var (g, more) := RemoveFrom(q, State(), key, i); (g, r || more)
      {
        var pos := q.Pos(key, i);
        if pos in index {
          if |index[pos]| / q.hashSize > 1 {
            var buffer := CompactBuffer(index[pos], key);
            index := index[pos := buffer[..|buffer|-1]];
          } else {
            index := index - {pos};
            ClearBit(pos);
            r := true;
          }
        }
      }
    }

    /** Moves the other hashes to the front of the buffer. */
    method CompactBuffer(rec: Bytes, key: Key) returns (buffer: Bytes)
      requires Valid()
      ensures var kept := Joined(Without(Entries(rec, q.hashSize), key));
              |kept| <= |buffer| == |rec| && buffer[..|kept|] == kept
      ensures buffer == Compact(rec, 0, 0, key, q.hashSize)
    {
      hide Joined, Without, Entries, Compact;
      buffer := rec;
      var src, dst := 0, 0;
      while src + q.hashSize <= |buffer|
        invariant 0 <= dst <= src && |buffer| == |rec|
        invariant Compact(rec, 0, 0, key, q.hashSize) == Compact(buffer, src, dst, key, q.hashSize)
        decreases |buffer| - src
      {
        var e := buffer[src..src+q.hashSize];
        var next := buffer[..dst] + e + buffer[dst+q.hashSize..];
        CompactRound(buffer, src, dst, e, next, key, q.hashSize);
        buffer := next;
        src := src + q.hashSize;
        dst := if e == key then dst else dst + q.hashSize;
      }
      CompactEnd(buffer, src, dst, key, q.hashSize);
      CompactFront(rec, 0, 0, key, q.hashSize);
      assert rec[0..] == rec && rec[..0] == [];
    }

    method GetChunk(maxlength: nat, offset: nat) returns (chunk: Bytes)
      requires Valid()
      ensures chunk == if offset >= q.ByteSize() then []
                       else if maxlength < q.ByteSize() - offset then bitArray[offset..offset+maxlength]
                       else bitArray[offset..]
    {
      if offset >= q.ByteSize() {
        return [];
      }
      var chunksize := if maxlength < q.ByteSize() - offset then maxlength else q.ByteSize() - offset;
      chunk := bitArray[offset..offset+chunksize];
    }

    /** Reports the local keys listed at bits that the other filter does not have. */
    method Diff(externalBF: Bytes, offset: nat, handler: DiffHandler<Key>) returns (r: Result<()>)
      requires Valid()
      modifies handler
      ensures r.Thrown? <==> |externalBF| + offset > q.ByteSize()
      ensures handler.received == old(handler.received) +
                if r.Thrown? then [] else BloomSpec.Diff(q, State(), Unpack(externalBF), 8 * offset)
    {
      if |externalBF| + offset > q.ByteSize() {
        return Thrown;
      }
      ghost var remote, base, f := Unpack(externalBF), 8 * offset, State();
      for i := 0 to |externalBF|
        invariant State() == f
        invariant handler.received == old(handler.received) + BloomSpec.Diff(q, f, remote[..8 * i], base)
      {
        DiffByte(externalBF, i, offset, handler, old(handler.received));
      }
      assert remote[..8 * |externalBF|] == remote;
      return Ok(());
    }

    /** The eight bits of one byte, with what has been reported before. */
    method DiffByte(externalBF: Bytes, i: nat, offset: nat, handler: DiffHandler<Key>, ghost before: seq<Key>)
      requires Valid() && i < |externalBF| && |externalBF| + offset <= q.ByteSize()
      requires handler.received == before + BloomSpec.Diff(q, State(), Unpack(externalBF)[..8 * i], 8 * offset)
      modifies handler
      ensures handler.received == before + BloomSpec.Diff(q, State(), Unpack(externalBF)[..8 * i + 8], 8 * offset)
    {
      hide BloomSpec.Diff, DiffAt, Entries;
      ghost var remote, base, f := Unpack(externalBF), 8 * offset, State();
      for j := 0 to 8
        invariant State() == f
        invariant handler.received == before + BloomSpec.Diff(q, f, remote[..8 * i + j], base)
      {
        DiffSnoc(q, f, remote, 8 * i + j, base);
        DiffBit(externalBF[i], j, offset + i, handler);
        assert remote[8 * i + j] == HasBit(externalBF[i], j);
      }
    }

    method DiffBit(remote: bv8, j: nat, byteIndex: nat, handler: DiffHandler<Key>)
      requires Valid() && j < 8 && byteIndex < q.ByteSize()
      modifies handler
      ensures handler.received == old(handler.received) + DiffAt(q, State(), HasBit(remote, j), 8 * byteIndex + j)
    {
      assert State().bits[8 * byteIndex + j] == HasBit(bitArray[byteIndex], j);
      if !HasBit(remote, j) && HasBit(bitArray[byteIndex], j) {
        var pos := byteIndex * 8 + j;
        if pos > q.filterSize {
          return;
        }
        if pos in index {
          var rest := index[pos];
          while |rest| >= q.hashSize
            invariant handler.received + Entries(rest, q.hashSize) ==
                      old(handler.received) + Entries(index[pos], q.hashSize)
            decreases |rest|
          {
            handler.Handle(rest[..q.hashSize]);
            rest := rest[q.hashSize..];
          }
        }
      }
    }
  }

  /** Closing a filter and loading it again gives back index and item count, and the same bits exactly
    if they agreed with the records. */
  method Reopen(f: CountingBloomFilter) returns (g: CountingBloomFilter)
    requires f.Valid() && forall p :: p in f.index ==> p < f.q.filterSize
    modifies f`savedCount
    ensures f.Valid() && g.Valid() && fresh(g) && fresh(g.bitArray)
    ensures g.q == f.q && g.hardMaximum == f.hardMaximum && g.maxElements == f.maxElements
    ensures g.index == f.index && g.itemCount == f.itemCount
    ensures forall p :: 0 <= p < |g.State().bits| ==> (g.State().bits[p] <==> p in g.index)
    ensures g.State() == f.State() <==> Agrees(f.q, f.State())
  {
    f.Close();
    g := new CountingBloomFilter.Reload(f.q, f.hardMaximum, f.maxElements, f.index, f.savedCount);
    ReloadRebuildsIff(f.q, f.State(), g.State());
  }
}
