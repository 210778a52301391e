/** What the counting filter guarantees over its histories, and exactly when. */
module BloomProofs {
  import opened Bitset
  import opened BloomSpec
  import opened Arithmetic
  import opened Sequences

  // ----- records

  /** Bytes of a record behind its last whole hash. */
  function Tail(rec: Bytes, hs: nat): (t: Bytes)
    requires hs > 0
    ensures |t| < hs
  {
    if |rec| < hs then rec else Tail(rec[hs..], hs)
  }

  ghost predicate AlignedRecord(rec: Bytes, hs: nat)
    requires hs > 0
  {
    Tail(rec, hs) == []
  }

  /** Appending a key to a record always lists one more hash, which starts with the bytes the record
    was left with; it is the key if no bytes were left over. */
  lemma {:induction false} EntriesAppend(rec: Bytes, key: Key, hs: nat)
    requires hs > 0 && |key| == hs
    ensures Entries(rec + key, hs) == Entries(rec, hs) + [(Tail(rec, hs) + key)[..hs]]
    ensures Tail(rec + key, hs) == (Tail(rec, hs) + key)[hs..]
  {
    if |rec| < hs {
      assert (rec + key)[hs..] == (Tail(rec, hs) + key)[hs..];
      assert |(rec + key)[hs..]| < hs;
    } else {
      EntriesAppend(rec[hs..], key, hs);
      assert (rec + key)[hs..] == rec[hs..] + key;
      assert (rec + key)[..hs] == rec[..hs];
    }
  }

  lemma {:induction false} EntriesCount(rec: Bytes, hs: nat)
    requires hs > 0
    ensures |Entries(rec, hs)| == |rec| / hs && |Tail(rec, hs)| == |rec| % hs
  {
    if |rec| >= hs {
      EntriesCount(rec[hs..], hs);
      assert |rec| / hs == (|rec| - hs) / hs + 1 && |rec| % hs == (|rec| - hs) % hs by {
        DivModStep(|rec|, hs);
      }
    } else {
      DivModSmall(|rec|, hs);
    }
  }

  // ----- what an addition and a removal do, position by position

  /** The index with one key appended at some positions. */
  ghost predicate Appended(index: Index, ps: set<nat>, key: Key, index': Index) {
    && (forall p :: p in ps ==> p in index' && index'[p] == RecordAt(index, p) + key)
    && (forall p :: p !in ps ==> (p in index' <==> p in index) && (p in index ==> index'[p] == index[p]))
  }

  ghost predicate ListedAt(q: Params, index: Index, key: Key, p: nat)
    requires q.hashSize > 0
  {
    key in Entries(RecordAt(index, p), q.hashSize)
  }

  lemma PositionsStep(q: Params, key: Key, i: nat)
    requires q.filterSize > 0 && i < q.functionCount
    ensures q.PositionsFrom(key, i) == {q.Pos(key, i)} + q.PositionsFrom(key, i + 1)
    ensures q.DistinctFrom(key, i) ==> q.DistinctFrom(key, i + 1) && q.Pos(key, i) !in q.PositionsFrom(key, i + 1)
  {
  }

  lemma {:induction false} AddIndexDistinct(q: Params, index: Index, key: Key, i: nat)
    requires q.Valid() && |key| == q.hashSize && q.DistinctFrom(key, i)
    requires forall p :: p in q.PositionsFrom(key, i) ==> !ListedAt(q, index, key, p)
    ensures AddIndex(q, index, key, i).1
    ensures Appended(index, q.PositionsFrom(key, i), key, AddIndex(q, index, key, i).0)
    decreases q.functionCount - i
  {
    if i < q.functionCount {
      PositionsStep(q, key, i);
      var p := q.Pos(key, i);
      var next := index[p := RecordAt(index, p) + key];
      assert [] + key == key;
      AddIndexDistinct(q, next, key, i + 1);
    }
  }

  // ----- when an addition runs to its end

  function Repeat(key: Key, n: nat): Bytes {
    if n == 0 then [] else key + Repeat(key, n - 1)
  }

  /** The key will not be found listed at p when it is entered there by the hash functions from i on:
    neither in the record as it is, nor in what the earlier ones of these functions append to it. */
  ghost predicate AddableAt(q: Params, index: Index, key: Key, i: nat, p: nat)
    requires q.Valid()
  {
    q.Uses(key, p, i) > 0 ==> key !in Entries(RecordAt(index, p) + Repeat(key, q.Uses(key, p, i) - 1), q.hashSize)
  }

  ghost predicate Addable(q: Params, index: Index, key: Key, i: nat)
    requires q.Valid()
  {
    forall p :: AddableAt(q, index, key, i, p)
  }

  lemma {:induction false} EntriesPrefix(rec: Bytes, more: Bytes, hs: nat)
    requires hs > 0
    ensures forall e :: e in Entries(rec, hs) ==> e in Entries(rec + more, hs)
    decreases |rec|
  {
    if |rec| >= hs {
      assert (rec + more)[..hs] == rec[..hs] && (rec + more)[hs..] == rec[hs..] + more;
      EntriesPrefix(rec[hs..], more, hs);
    }
  }

  lemma {:induction false} UsesPosition(q: Params, key: Key, p: nat, i: nat)
    requires q.filterSize > 0
    ensures q.Uses(key, p, i) > 0 <==> p in q.PositionsFrom(key, i)
    ensures q.DistinctFrom(key, i) ==> q.Uses(key, p, i) <= 1
    decreases q.functionCount - i
  {
    if i < q.functionCount {
      PositionsStep(q, key, i);
      UsesPosition(q, key, p, i + 1);
    }
  }

  lemma AddableStep(q: Params, index: Index, key: Key, i: nat, p: nat)
    requires q.Valid() && i < q.functionCount && !ListedAt(q, index, key, q.Pos(key, i))
    ensures var r := q.Pos(key, i);
            AddableAt(q, index, key, i, p) <==> AddableAt(q, index[r := RecordAt(index, r) + key], key, i + 1, p)
  {
    hide Entries;
    var rec, more := RecordAt(index, p), q.Uses(key, p, i + 1);
    if p == q.Pos(key, i) {
      if more == 0 {
        assert rec + Repeat(key, 0) == rec;
      } else {
        ConcatAssociative(rec, key, Repeat(key, more - 1));
        assert Repeat(key, more) == key + Repeat(key, more - 1);
      }
    }
  }

  lemma {:induction false} AddIndexIff(q: Params, index: Index, key: Key, i: nat)
    requires q.Valid()
    ensures AddIndex(q, index, key, i).1 <==> Addable(q, index, key, i)
    decreases q.functionCount - i
  {
    if i < q.functionCount {
      var p := q.Pos(key, i);
      if ListedAt(q, index, key, p) {
        EntriesPrefix(RecordAt(index, p), Repeat(key, q.Uses(key, p, i) - 1), q.hashSize);
        assert !AddableAt(q, index, key, i, p);
      } else {
        var next := index[p := RecordAt(index, p) + key];
        assert [] + key == key;
        AddIndexIff(q, next, key, i + 1);
        AddableNext(q, index, next, key, i);
        AddIndexNext(q, index, next, key, i);
      }
    }
  }

  lemma AddableNext(q: Params, index: Index, next: Index, key: Key, i: nat)
    requires q.Valid() && i < q.functionCount && !ListedAt(q, index, key, q.Pos(key, i))
    requires next == index[q.Pos(key, i) := RecordAt(index, q.Pos(key, i)) + key]
    ensures Addable(q, index, key, i) <==> Addable(q, next, key, i + 1)
  {
    var j := i + 1;
    forall p
      ensures AddableAt(q, index, key, i, p) <==> AddableAt(q, next, key, j, p)
    {
      AddableStep(q, index, key, i, p);
    }
  }

  lemma AddIndexNext(q: Params, index: Index, next: Index, key: Key, i: nat)
    requires q.Valid() && i < q.functionCount && !ListedAt(q, index, key, q.Pos(key, i))
    requires next == index[q.Pos(key, i) := RecordAt(index, q.Pos(key, i)) + key]
    ensures AddIndex(q, index, key, i) == AddIndex(q, next, key, i + 1)
  {
    assert [] + key == key;
  }

  /** What an insertion can check beforehand: the key's positions differ and none lists it yet. */
  ghost predicate Unlisted(q: Params, index: Index, key: Key)
    requires q.Valid()
  {
    q.Distinct(key) && forall p :: p in q.Positions(key) ==> !ListedAt(q, index, key, p)
  }

  /** An addition runs to its end, and sets the key's bits, exactly when no position of the key lists
    it, be it before the addition or after the addition itself has entered it there.  For a key
    whose positions differ that means that none lists it before. */
  lemma AddCompletesIff(q: Params, index: Index, key: Key)
    requires q.Valid()
    ensures Completes(q, index, key) <==> Addable(q, index, key, 0)
    ensures Unlisted(q, index, key) <==> q.Distinct(key) && Addable(q, index, key, 0)
  {
    AddIndexIff(q, index, key, 0);
    if q.Distinct(key) {
      forall p
        ensures AddableAt(q, index, key, 0, p) <==> (p in q.Positions(key) ==> !ListedAt(q, index, key, p))
      {
        UsesPosition(q, key, p, 0);
        assert RecordAt(index, p) + Repeat(key, 0) == RecordAt(index, p);
      }
    }
  }

  lemma {:induction false} SetBitsAt(q: Params, bits: seq<bool>, key: Key, i: nat)
    requires q.filterSize > 0 && |bits| >= q.filterSize
    ensures forall p :: 0 <= p < |bits| ==>
              (SetBits(q, bits, key, i)[p] <==> bits[p] || p in q.PositionsFrom(key, i))
    decreases q.functionCount - i
  {
    if i < q.functionCount {
      SetBitsAt(q, bits[q.Pos(key, i) := true], key, i + 1);
      PositionsStep(q, key, i);
    }
  }

  /** Adding an unlisted key: its record entries and its bits, and nothing else. */
  lemma AddKeyEffect(q: Params, f: Filter, key: Key)
    requires q.Valid() && |f.bits| >= q.filterSize && |key| == q.hashSize && Unlisted(q, f.index, key)
    ensures Appended(f.index, q.Positions(key), key, AddKey(q, f, key).index)
    ensures forall p :: 0 <= p < |f.bits| ==> (AddKey(q, f, key).bits[p] <==> f.bits[p] || p in q.Positions(key))
  {
    AddIndexDistinct(q, f.index, key, 0);
    SetBitsAt(q, f.bits, key, 0);
  }

  /** After an addition a key is contained exactly when the addition ran to its end or the key was
    contained anyway; the other keys get the bits of the added one or none. */
  lemma AddContainsIff(q: Params, f: Filter, key: Key, other: Key)
    requires q.Valid() && |f.bits| >= q.filterSize
    ensures BloomSpec.Contains(q, AddKey(q, f, key).bits, key) <==>
            Addable(q, f.index, key, 0) || BloomSpec.Contains(q, f.bits, key)
    ensures BloomSpec.Contains(q, AddKey(q, f, key).bits, other) <==>
            forall p :: p in q.Positions(other) ==>
              f.bits[p] || (Addable(q, f.index, key, 0) && p in q.Positions(key))
  {
    AddCompletesIff(q, f.index, key);
    SetBitsAt(q, f.bits, key, 0);
    hide Addable, AddIndex, SetBits;
  }

  ghost predicate SameAt(f: Filter, g: Filter, p: nat) {
    && (p in f.index <==> p in g.index) && (p in f.index ==> f.index[p] == g.index[p])
    && |f.bits| == |g.bits| && (p < |f.bits| ==> f.bits[p] == g.bits[p])
  }

  /** A removal works on each of the key's positions by itself. */
  lemma {:induction false} RemoveFromDistinct(q: Params, f: Filter, key: Key, i: nat, p: nat)
    requires q.Valid() && |f.bits| >= q.filterSize && q.DistinctFrom(key, i)
    ensures p in q.PositionsFrom(key, i) ==>
              p < |f.bits| && SameAt(RemoveFrom(q, f, key, i).0, RemoveAt(q, f, key, p).0, p)
    ensures p !in q.PositionsFrom(key, i) ==> SameAt(RemoveFrom(q, f, key, i).0, f, p)
    decreases q.functionCount - i
  {
    if i < q.functionCount {
      PositionsStep(q, key, i);
      RemoveFromDistinct(q, RemoveAt(q, f, key, q.Pos(key, i)).0, key, i + 1, p);
    }
  }

  /** The removal of a key comes down to a record of one hash at p, and takes the bit: before that
    each of its functions that use p has taken a byte. */
  ghost predicate Clears(q: Params, index: Index, key: Key, i: nat, p: nat)
    requires q.Valid()
  {
    var uses := q.Uses(key, p, i);
    uses > 0 && p in index && |index[p]| < 2 * q.hashSize + uses - 1
  }

  lemma SeveralEntries(len: nat, hs: nat)
    requires hs > 0
    ensures len / hs > 1 <==> len >= 2 * hs
  {
    var d, m := len / hs, len % hs;
    assert len == hs * d + m;
    MulGap(hs, d, 2);
    MulGap(hs, 1, d);
  }

  lemma {:induction false} RemovedBits(q: Params, f: Filter, key: Key, i: nat, p: nat)
    requires q.Valid() && |f.bits| >= q.filterSize && p < |f.bits|
    ensures RemoveFrom(q, f, key, i).0.bits[p] <==> f.bits[p] && !Clears(q, f.index, key, i, p)
    decreases q.functionCount - i
  {
    if i < q.functionCount {
      var r := q.Pos(key, i);
      var g := RemoveAt(q, f, key, r).0;
      RemovedBits(q, g, key, i + 1, p);
      RemoveFromNext(q, f, key, i);
      hide RemoveFrom, Shrunk;
      if r in f.index {
        SeveralEntries(|f.index[r]|, q.hashSize);
      }
    }
  }

  lemma RemoveFromNext(q: Params, f: Filter, key: Key, i: nat)
    requires q.Valid() && |f.bits| >= q.filterSize && i < q.functionCount
    ensures RemoveFrom(q, f, key, i).0 == RemoveFrom(q, RemoveAt(q, f, key, q.Pos(key, i)).0, key, i + 1).0
  {
  }

  lemma AnswerNext(q: Params, f: Filter, key: Key, i: nat)
    requires q.Valid() && |f.bits| >= q.filterSize && i < q.functionCount
    ensures var (g, found) := RemoveAt(q, f, key, q.Pos(key, i));
            RemoveFrom(q, f, key, i).1 <==> found || RemoveFrom(q, g, key, i + 1).1
  {
  }

  /** Which positions are cleared from function i on: the one of function i if it has a single hash, and
    those cleared by the functions after it. */
  lemma ClearsNext(q: Params, f: Filter, key: Key, i: nat, p: nat)
    requires q.Valid() && |f.bits| >= q.filterSize && i < q.functionCount
    ensures var (g, found) := RemoveAt(q, f, key, q.Pos(key, i));
            Clears(q, f.index, key, i, p) <==> (found && p == q.Pos(key, i)) || Clears(q, g.index, key, i + 1, p)
  {
    hide Shrunk;
    var r := q.Pos(key, i);
    if r in f.index {
      SeveralEntries(|f.index[r]|, q.hashSize);
    }
  }

  /** A removal answers whether it clears some position. */
  lemma {:induction false} RemoveFromAnswer(q: Params, f: Filter, key: Key, i: nat)
    requires q.Valid() && |f.bits| >= q.filterSize
    ensures RemoveFrom(q, f, key, i).1 <==> exists p :: Clears(q, f.index, key, i, p)
    decreases q.functionCount - i
  {
    if i < q.functionCount {
      var (g, found) := RemoveAt(q, f, key, q.Pos(key, i));
      AnswerNext(q, f, key, i);
      var next := i + 1;
      RemoveFromAnswer(q, g, key, next);
      forall p
        ensures Clears(q, f.index, key, i, p) <==> (found && p == q.Pos(key, i)) || Clears(q, g.index, key, next, p)
      {
        ClearsNext(q, f, key, i, p);
      }
      hide RemoveFrom, RemoveAt, Clears;
      assert found ==> Clears(q, f.index, key, i, q.Pos(key, i));
    }
  }

  /** The answer of a removal: true exactly if the key was contained and some position of it has no
    more than one hash left when its turn comes, so that its record and its bit go. */
  lemma RemoveAnswerIff(q: Params, f: Filter, key: Key)
    requires q.Valid() && |f.bits| >= q.filterSize
    ensures RemoveKey(q, f, key).1 <==> BloomSpec.Contains(q, f.bits, key) && exists p :: Clears(q, f.index, key, 0, p)
  {
    ContainsByFunction(q, f.bits, key);
    hide RemoveFrom, Clears;
    RemoveFromAnswer(q, f, key, 0);
  }

  /** After a removal a key is contained exactly when it was before and the removal clears none of
    its positions; a key that is not contained is not removed at all. */
  lemma RemoveContainsIff(q: Params, f: Filter, key: Key, other: Key)
    requires q.Valid() && |f.bits| >= q.filterSize
    ensures BloomSpec.Contains(q, RemoveKey(q, f, key).0.bits, other) <==>
            && BloomSpec.Contains(q, f.bits, other)
            && (BloomSpec.Contains(q, f.bits, key) ==>
                 forall p :: p in q.Positions(other) ==> !Clears(q, f.index, key, 0, p))
  {
    ContainsByFunction(q, f.bits, key);
    hide RemoveFrom, Clears;
    if BloomSpec.Contains(q, f.bits, key) {
      forall p | p in q.Positions(other)
        ensures RemoveFrom(q, f, key, 0).0.bits[p] <==> f.bits[p] && !Clears(q, f.index, key, 0, p)
      {
        RemovedBits(q, f, key, 0, p);
      }
    }
  }

  lemma ContainsByFunction(q: Params, bits: seq<bool>, key: Key)
    requires q.Valid() && |bits| >= q.filterSize
    ensures BloomSpec.Contains(q, bits, key) <==> forall i :: 0 <= i < q.functionCount ==> bits[q.Pos(key, i)]
  {
    forall i | 0 <= i < q.functionCount
      ensures q.Pos(key, i) in q.Positions(key)
    {
    }
  }

  /** For keys whose positions differ: a removal hides another key exactly when both use a position
    that is left with a single hash. */
  lemma RemoveHidesIff(q: Params, f: Filter, key: Key, other: Key)
    requires q.Valid() && |f.bits| >= q.filterSize && q.Distinct(key)
    requires BloomSpec.Contains(q, f.bits, key) && BloomSpec.Contains(q, f.bits, other)
    ensures BloomSpec.Contains(q, RemoveKey(q, f, key).0.bits, other) <==>
            forall p :: p in q.Positions(key) && p in q.Positions(other) && p in f.index ==>
              |f.index[p]| / q.hashSize > 1
  {
    RemoveContainsIff(q, f, key, other);
    forall p
      ensures Clears(q, f.index, key, 0, p) <==>
              p in q.Positions(key) && p in f.index && |f.index[p]| / q.hashSize <= 1
    {
      UsesPosition(q, key, p, 0);
      if p in f.index {
        SeveralEntries(|f.index[p]|, q.hashSize);
      }
    }
    hide Clears, RemoveKey;
  }

  // ----- bits that agree with the records

  /** A bit is set exactly if there is a record for it. */
  ghost predicate Agrees(q: Params, f: Filter) {
    && |f.bits| >= q.filterSize && (forall p :: p in f.index ==> p < q.filterSize)
    && forall p :: 0 <= p < |f.bits| ==> (f.bits[p] <==> p in f.index)
  }

  /** Reloading: what the records of a store say is the filter that was closed exactly if its bits
    agreed with them. */
  lemma ReloadRebuildsIff(q: Params, f: Filter, g: Filter)
    requires |g.bits| == |f.bits| >= q.filterSize && g.index == f.index
    requires forall p :: p in f.index ==> p < q.filterSize
    requires forall p :: 0 <= p < |g.bits| ==> (g.bits[p] <==> p in g.index)
    ensures g == f <==> Agrees(q, f)
  {
    if Agrees(q, f) {
      assert g.bits == f.bits;
    }
  }

  lemma {:induction false} RemoveFromAgrees(q: Params, f: Filter, key: Key, i: nat)
    requires q.Valid() && Agrees(q, f)
    ensures Agrees(q, RemoveFrom(q, f, key, i).0)
    decreases q.functionCount - i
  {
    if i < q.functionCount {
      hide Shrunk;
      RemoveFromAgrees(q, RemoveAt(q, f, key, q.Pos(key, i)).0, key, i + 1);
      RemoveFromNext(q, f, key, i);
    }
  }

  /** Every removal, as written, keeps the bits in agreement with the records. */
  lemma RemoveKeepsAgrees(q: Params, f: Filter, key: Key)
    requires q.Valid() && Agrees(q, f)
    ensures Agrees(q, RemoveKey(q, f, key).0)
  {
    RemoveFromAgrees(q, f, key, 0);
  }

  /** The positions in ks, and new ones among ps: all of them when the addition runs to its end. */
  ghost predicate Grown(ks: set<nat>, ps: set<nat>, ks': set<nat>, completed: bool) {
    ks <= ks' <= ks + ps && (completed ==> ks' == ks + ps)
  }

  /** The positions that an addition makes records for. */
  lemma {:induction false} AddIndexKeys(q: Params, index: Index, key: Key, i: nat)
    requires q.Valid()
    ensures var (index', completed) := AddIndex(q, index, key, i);
            Grown(index.Keys, q.PositionsFrom(key, i), index'.Keys, completed)
    decreases q.functionCount - i
  {
    if i < q.functionCount {
      PositionsStep(q, key, i);
      var p := q.Pos(key, i);
      if !ListedAt(q, index, key, p) {
        var next := index[p := RecordAt(index, p) + key];
        AddIndexKeys(q, next, key, i + 1);
        AddIndexNext(q, index, next, key, i);
        var (index', completed) := AddIndex(q, next, key, i + 1);
        hide AddIndex, Entries, Params.PositionsFrom;
        GrownStep(index.Keys, next.Keys, p, q.PositionsFrom(key, i + 1), index'.Keys, completed);
      }
    }
  }

  lemma GrownStep(ks: set<nat>, next: set<nat>, p: nat, ps: set<nat>, ks': set<nat>, completed: bool)
    requires next == ks + {p} && Grown(next, ps, ks', completed)
    ensures Grown(ks, {p} + ps, ks', completed)
  {
  }

  /** An addition keeps the agreement exactly if it runs to its end, or makes no new record before
    it stops; if it is entered but the filter throws, exactly if it makes no new record, that is, if
    the key was contained already. */
  lemma AddAgreesIff(q: Params, f: Filter, key: Key)
    requires q.Valid() && Agrees(q, f)
    ensures var g := AddKey(q, f, key);
            && (Agrees(q, g) <==> Addable(q, f.index, key, 0) || g.index.Keys == f.index.Keys)
            && (Agrees(q, g.(bits := f.bits)) <==> g.index.Keys == f.index.Keys)
            && (Addable(q, f.index, key, 0) ==>
                  (g.index.Keys == f.index.Keys <==> BloomSpec.Contains(q, f.bits, key)))
  {
    AddCompletesIff(q, f.index, key);
    AddIndexKeys(q, f.index, key, 0);
    SetBitsAt(q, f.bits, key, 0);
    hide Addable, AddIndex, SetBits;
    var g := AddKey(q, f, key);
    SameKeysSameBits(q, f, g);
    SameKeysSameBits(q, f, g.(bits := f.bits));
  }

  lemma SameKeysSameBits(q: Params, f: Filter, g: Filter)
    requires Agrees(q, f) && |g.bits| == |f.bits| && forall p :: p in g.index ==> p < q.filterSize
    ensures g.bits == f.bits ==> (Agrees(q, g) <==> g.index.Keys == f.index.Keys)
  {
    if g.bits == f.bits && Agrees(q, g) {
      forall p
        ensures p in g.index.Keys <==> p in f.index.Keys
      {
        assert p in g.index ==> g.bits[p];
        assert p in f.index ==> f.bits[p];
      }
    }
  }

  // ----- no false negatives, with the removal as it is

  /** The keys of a set that use a position. */
  function Users(q: Params, keys: set<Key>, p: nat): set<Key>
    requires q.filterSize > 0
  {
    set k | k in keys && p in q.Positions(k)
  }

  lemma UsersChange(q: Params, keys: set<Key>, k: Key, p: nat)
    requires q.filterSize > 0
    ensures p !in q.Positions(k) ==> Users(q, keys + {k}, p) == Users(q, keys, p) == Users(q, keys - {k}, p)
    ensures p in q.Positions(k) ==> Users(q, keys + {k}, p) == Users(q, keys, p) + {k}
    ensures p in q.Positions(k) ==> Users(q, keys - {k}, p) == Users(q, keys, p) - {k}
  {
  }

  ghost predicate ProperKeys(q: Params, keys: set<Key>)
    requires q.filterSize > 0
  {
    forall k :: k in keys ==> |k| == q.hashSize && q.Distinct(k)
  }

  /** Every position a key uses has its bit and a record with room for all of its users. */
  ghost predicate Covers(q: Params, f: Filter, keys: set<Key>)
    requires q.Valid()
  {
    && |f.bits| >= q.filterSize && ProperKeys(q, keys)
    && forall p :: Users(q, keys, p) != {} ==> CoversAt(q, f, keys, p)
  }

  ghost predicate CoversAt(q: Params, f: Filter, keys: set<Key>, p: nat)
    requires q.Valid()
  {
    p in f.index && p < |f.bits| && f.bits[p] && |f.index[p]| >= Times(q.hashSize, |Users(q, keys, p)|)
  }

  lemma CoversNothing(q: Params, f: Filter)
    requires q.Valid() && |f.bits| >= q.filterSize
    ensures Covers(q, f, {})
  {
  }

  /** A covered key passes the Bloom test. */
  lemma CoveredIsContained(q: Params, f: Filter, keys: set<Key>, k: Key)
    requires q.Valid() && Covers(q, f, keys) && k in keys
    ensures BloomSpec.Contains(q, f.bits, k)
  {
    forall p | p in q.Positions(k)
      ensures f.bits[p]
    {
      assert k in Users(q, keys, p);
    }
  }

  lemma AddCovers(q: Params, f: Filter, keys: set<Key>, k: Key)
    requires q.Valid() && Covers(q, f, keys) && |k| == q.hashSize && Unlisted(q, f.index, k)
    ensures Covers(q, AddKey(q, f, k), keys + {k})
  {
    AddKeyEffect(q, f, k);
    forall p | Users(q, keys + {k}, p) != {}
      ensures CoversAt(q, AddKey(q, f, k), keys + {k}, p)
    {
      hide AddKey;
      AddCoversAt(q, f, AddKey(q, f, k), keys, k, p);
    }
  }

  lemma AddCoversAt(q: Params, f: Filter, g: Filter, keys: set<Key>, k: Key, p: nat)
    requires q.Valid() && Covers(q, f, keys) && |k| == q.hashSize && |g.bits| == |f.bits|
    requires Appended(f.index, q.Positions(k), k, g.index)
    requires forall i :: 0 <= i < |f.bits| ==> (g.bits[i] <==> f.bits[i] || i in q.Positions(k))
    requires Users(q, keys + {k}, p) != {}
    ensures CoversAt(q, g, keys + {k}, p)
  {
    UsersChange(q, keys, k, p);
    hide Users, Times;
    if p in q.Positions(k) {
      TimesFacts(q.hashSize, |Users(q, keys, p)|, 0);
      TimesFacts(q.hashSize, |Users(q, keys, p) + {k}|, |Users(q, keys, p)| + 1);
      if Users(q, keys, p) == {} {
        TimesFacts(q.hashSize, 0, 0);
      }
    }
  }

  lemma FewEntriesFewUsers(len: nat, h: nat, c: nat)
    requires h > 0 && len >= Times(h, c) && len / h <= 1
    ensures c <= 1
  {
    assert len == h * (len / h) + len % h;
    assert Times(h, 2) == h + h;
    TimesFacts(h, 2, c);
  }

  lemma RemoveCovers(q: Params, f: Filter, keys: set<Key>, k: Key)
    requires q.Valid() && Covers(q, f, keys) && k in keys
    ensures Covers(q, RemoveKey(q, f, k).0, keys - {k})
  {
    CoveredIsContained(q, f, keys, k);
    assert forall i :: 0 <= i < q.functionCount ==> q.Pos(k, i) in q.Positions(k);
    var g := RemoveKey(q, f, k).0;
    forall p | Users(q, keys - {k}, p) != {}
      ensures CoversAt(q, g, keys - {k}, p)
    {
      UsersChange(q, keys, k, p);
      RemoveFromDistinct(q, f, k, 0, p);
      if p in q.Positions(k) {
        assert k in Users(q, keys, p);
        assert |Users(q, keys - {k}, p)| == |Users(q, keys, p)| - 1;
        assert |Users(q, keys, p)| >= 2;
        TimesFacts(q.hashSize, |Users(q, keys, p)| - 1, 0);
        if |f.index[p]| / q.hashSize <= 1 {
          FewEntriesFewUsers(|f.index[p]|, q.hashSize, |Users(q, keys, p)|);
        }
      }
    }
  }

  // ----- the exact index

  ghost predicate NoDuplicates(v: seq<Key>) {
    forall i, j :: 0 <= i < j < |v| ==> v[i] != v[j]
  }

  /** A record is read as a list of exactly these keys, each once. */
  ghost predicate Lists(rec: Bytes, hs: nat, users: set<Key>)
    requires hs > 0
  {
    NoDuplicates(Entries(rec, hs)) && forall k :: k in Entries(rec, hs) <==> k in users
  }

  /** Every bit says whether there is a record, and every record lists the keys that use it. */
  ghost predicate Exact(q: Params, f: Filter, keys: set<Key>)
    requires q.Valid()
  {
    && |f.bits| >= q.filterSize && ProperKeys(q, keys)
    && forall p {:trigger Users(q, keys, p)} :: ExactAt(q, f, Users(q, keys, p), p)
  }

  ghost predicate ExactAt(q: Params, f: Filter, users: set<Key>, p: nat)
    requires q.Valid()
  {
    && (p in f.index <==> users != {})
    && (p in f.index ==> p < q.filterSize && Lists(f.index[p], q.hashSize, users))
    && (p < |f.bits| ==> (f.bits[p] <==> p in f.index))
  }

  lemma {:induction false} NoDuplicatesSize(v: seq<Key>, users: set<Key>)
    requires NoDuplicates(v) && forall k :: k in v <==> k in users
    ensures |v| == |users|
  {
    if v == [] {
      assert users == {};
    } else {
      var k := v[|v|-1];
      assert k in users;
      NoDuplicatesSize(v[..|v|-1], users - {k});
    }
  }

  lemma EmptyIsExact(q: Params, f: Filter)
    requires q.Valid() && |f.bits| >= q.filterSize && f.index == map[]
    requires forall p :: 0 <= p < |f.bits| ==> !f.bits[p]
    ensures Exact(q, f, {})
  {
  }

  lemma ExactAgrees(q: Params, f: Filter, keys: set<Key>)
    requires q.Valid() && Exact(q, f, keys)
    ensures Agrees(q, f)
  {
    forall p: nat
      ensures p in f.index ==> p < q.filterSize
      ensures p < |f.bits| ==> (f.bits[p] <==> p in f.index)
    {
      assert ExactAt(q, f, Users(q, keys, p), p);
    }
  }

  /** The next hash appended to a record will be read back as it was written. */
  ghost predicate Clean(rec: Bytes, key: Key, hs: nat)
    requires hs > 0 && |key| == hs
  {
    (Tail(rec, hs) + key)[..hs] == key
  }

  lemma AppendLists(rec: Bytes, key: Key, hs: nat, users: set<Key>)
    requires hs > 0 && |key| == hs && key !in users && Lists(rec, hs, users)
    ensures Lists(rec + key, hs, users + {key}) <==> Clean(rec, key, hs)
  {
    EntriesAppend(rec, key, hs);
    var v, w := Entries(rec, hs), Entries(rec + key, hs);
    assert w[|v|] == (Tail(rec, hs) + key)[..hs];
    assert forall i :: 0 <= i < |v| ==> w[i] == v[i] && w[i] in users;
    if Lists(rec + key, hs, users + {key}) {
      var i :| 0 <= i < |w| && w[i] == key;
      assert i == |v|;
    }
  }

  /** Adding a new key keeps the index exact precisely when its positions differ and no record it
    goes to has stray bytes that would be read as part of it; aligned records never have. */
  lemma AddKeepsExactIff(q: Params, f: Filter, keys: set<Key>, k: Key)
    requires q.Valid() && Exact(q, f, keys) && k !in keys && |k| == q.hashSize
    ensures Exact(q, AddKey(q, f, k), keys + {k}) <==>
            q.Distinct(k) && forall p :: p in q.Positions(k) ==> Clean(RecordAt(f.index, p), k, q.hashSize)
  {
    if q.Distinct(k) {
      AddKeepsExact(q, f, keys, k);
    } else {
      assert k in keys + {k};
    }
  }

  lemma AddKeepsExact(q: Params, f: Filter, keys: set<Key>, k: Key)
    requires q.Valid() && Exact(q, f, keys) && k !in keys && |k| == q.hashSize && q.Distinct(k)
    ensures Exact(q, AddKey(q, f, k), keys + {k}) <==>
            forall p :: p in q.Positions(k) ==> Clean(RecordAt(f.index, p), k, q.hashSize)
  {
    var g := AddKey(q, f, k);
    forall p | p in q.Positions(k)
      ensures !ListedAt(q, f.index, k, p)
    {
      assert ExactAt(q, f, Users(q, keys, p), p);
    }
    AddKeyEffect(q, f, k);
    forall p
      ensures ExactAt(q, g, Users(q, keys + {k}, p), p) <==>
              (p in q.Positions(k) ==> Clean(RecordAt(f.index, p), k, q.hashSize))
    {
      UsersChange(q, keys, k, p);
      assert ExactAt(q, f, Users(q, keys, p), p);
      if p in q.Positions(k) {
        assert Entries([], q.hashSize) == [];
        assert Lists(RecordAt(f.index, p), q.hashSize, Users(q, keys, p));
        AppendLists(RecordAt(f.index, p), k, q.hashSize, Users(q, keys, p));
      }
    }
    assert ProperKeys(q, keys + {k});
    if Exact(q, g, keys + {k}) {
      forall p | p in q.Positions(k)
        ensures Clean(RecordAt(f.index, p), k, q.hashSize)
      {
        assert ExactAt(q, g, Users(q, keys + {k}, p), p);
      }
    }
  }

  // ----- removal from a record with several entries

  function Without(v: seq<Key>, key: Key): (r: seq<Key>)
    ensures forall k :: k in r <==> k in v && k != key
  {
    if v == [] then [] else (if v[0] == key then [] else [v[0]]) + Without(v[1..], key)
  }

  lemma {:induction false} WithoutOnce(v: seq<Key>, key: Key)
    requires NoDuplicates(v)
    ensures NoDuplicates(Without(v, key))
    ensures |Without(v, key)| == if key in v then |v| - 1 else |v|
  {
    if v != [] {
      var rest := v[1..];
      assert forall i, j :: 0 <= i < j < |rest| ==> rest[i] == v[i+1] && rest[j] == v[j+1];
      WithoutOnce(rest, key);
      assert v[0] !in rest;
      assert key in v <==> v[0] == key || key in rest;
      var w := Without(rest, key);
      if v[0] != key {
        assert Without(v, key) == [v[0]] + w;
        assert v[0] !in w;
      } else {
        assert Without(v, key) == w;
      }
    }
  }

  function Joined(v: seq<Key>): Bytes {
    if v == [] then [] else v[0] + Joined(v[1..])
  }

  lemma {:induction false} EntriesOfJoined(v: seq<Key>, rest: Bytes, hs: nat)
    requires hs > 0 && |rest| < hs && forall k :: k in v ==> |k| == hs
    ensures Entries(Joined(v) + rest, hs) == v
  {
    if v == [] {
      assert Joined(v) + rest == rest;
    } else {
      EntriesOfJoined(v[1..], rest, hs);
      ConcatAssociative(v[0], Joined(v[1..]), rest);
      EntriesStep(v[0], Joined(v[1..]) + rest, hs);
    }
  }

  lemma EntriesStep(e: Key, rest: Bytes, hs: nat)
    requires hs > 0 && |e| == hs
    ensures Entries(e + rest, hs) == [e] + Entries(rest, hs)
  {
    assert (e + rest)[..hs] == e && (e + rest)[hs..] == rest;
  }

  lemma {:induction false} JoinedSize(v: seq<Key>, hs: nat)
    requires forall k :: k in v ==> |k| == hs
    ensures |Joined(v)| == Times(hs, |v|)
  {
    hide Times;
    if v == [] {
      TimesFacts(hs, 0, 0);
    } else {
      JoinedSize(v[1..], hs);
      TimesFacts(hs, |v| - 1, 0);
    }
  }

  lemma {:induction false} EntriesSize(rec: Bytes, hs: nat)
    requires hs > 0
    ensures forall k :: k in Entries(rec, hs) ==> |k| == hs
  {
    if |rec| >= hs {
      EntriesSize(rec[hs..], hs);
    }
  }

  /** One round of the compaction, with the buffer it leaves. */
  lemma CompactRound(buf: Bytes, src: nat, dst: nat, e: Key, next: Bytes, key: Key, hs: nat)
    requires hs > 0 && dst <= src && src + hs <= |buf|
    requires buf[src..src+hs] == e && next == buf[..dst] + e + buf[dst+hs..]
    ensures Compact(buf, src, dst, key, hs) == Compact(next, src + hs, if e == key then dst else dst + hs, key, hs)
  {
  }

  lemma CompactEnd(buf: Bytes, src: nat, dst: nat, key: Key, hs: nat)
    requires hs > 0 && dst <= src && src + hs > |buf|
    ensures Compact(buf, src, dst, key, hs) == buf
  {
  }

  /** Compaction leaves the other entries, in order, at the front of the buffer. */
  lemma {:induction false} CompactFront(buf: Bytes, src: nat, dst: nat, key: Key, hs: nat)
    requires hs > 0 && dst <= src <= |buf|
    ensures var kept := Joined(Without(Entries(buf[src..], hs), key));
            dst + |kept| <= |buf| && Compact(buf, src, dst, key, hs)[..dst+|kept|] == buf[..dst] + kept
    decreases |buf| - src
  {
    hide Joined, Without, Entries;
    if src + hs > |buf| {
      NoMoreEntries(buf[src..], key, hs);
    } else {
      var e := buf[src..src+hs];
      var next := buf[..dst] + e + buf[dst+hs..];
      EntriesAhead(buf, src, dst, key, hs);
      var part := if e == key then [] else e;
      var dst' := dst + |part|;
      assert next[..dst'] == buf[..dst] + part;
      CompactFront(next, src + hs, dst', key, hs);
      FrontLonger(Compact(buf, src, dst, key, hs), buf[..dst], part,
                  Joined(Without(Entries(next[src+hs..], hs), key)));
    }
  }

  lemma NoMoreEntries(rest: Bytes, key: Key, hs: nat)
    requires |rest| < hs
    ensures Joined(Without(Entries(rest, hs), key)) == []
  {
  }

  lemma FrontLonger(r: Bytes, front: Bytes, part: Bytes, later: Bytes)
    requires |front| + |part| + |later| <= |r|
    requires r[..|front|+|part|+|later|] == (front + part) + later
    ensures r[..|front|+|part+later|] == front + (part + later)
  {
  }

  /** One round of the compaction does not touch the entries still to come. */
  lemma EntriesAhead(buf: Bytes, src: nat, dst: nat, key: Key, hs: nat)
    requires hs > 0 && dst <= src && src + hs <= |buf|
    ensures var e := buf[src..src+hs]; var next := buf[..dst] + e + buf[dst+hs..];
            && next[src+hs..] == buf[src+hs..]
            && Joined(Without(Entries(buf[src..], hs), key)) ==
               (if e == key then [] else e) + Joined(Without(Entries(next[src+hs..], hs), key))
  {
    var e := buf[src..src+hs];
    var next := buf[..dst] + e + buf[dst+hs..];
    assert next[src+hs..] == buf[src+hs..];
    assert buf[src..][..hs] == e && buf[src..][hs..] == buf[src+hs..];
    var rest := Entries(buf[src+hs..], hs);
    assert Entries(buf[src..], hs) == [e] + rest;
    assert ([e] + rest)[1..] == rest;
    assert Without([e] + rest, key) == (if e == key then [] else [e]) + Without(rest, key);
    if e == key {
      assert Without([e] + rest, key) == Without(rest, key);
      assert [] + Joined(Without(rest, key)) == Joined(Without(rest, key));
    } else {
      var w := [e] + Without(rest, key);
      assert w[0] == e && w[1..] == Without(rest, key);
      assert Joined(w) == e + Joined(w[1..]);
    }
  }

  lemma ShrunkAligned(rec: Bytes, key: Key, hs: nat, users: set<Key>)
    requires hs > 0 && Lists(rec, hs, users) && key in users && |rec| > 0 && AlignedRecord(rec, hs)
    ensures Lists(Shrunk(rec, key, hs), hs, users - {key})
  {
    var v := Entries(rec, hs);
    var kept := Without(v, key);
    WithoutOnce(v, key);
    assert Entries(Shrunk(rec, key, hs), hs) == kept by {
      RecordSize(rec, hs);
      EntriesSize(rec, hs);
      JoinedSize(kept, hs);
      TimesFacts(hs, |kept|, 0);
      hide Times, Entries, Tail, Without, Joined;
      CompactFront(rec, 0, 0, key, hs);
      assert rec[0..] == rec && rec[..0] == [];
      ShrunkIsJoined(rec, key, hs, kept);
    }
  }

  lemma ShrunkIsJoined(rec: Bytes, key: Key, hs: nat, kept: seq<Key>)
    requires hs > 0 && |rec| == |Joined(kept)| + hs && forall k :: k in kept ==> |k| == hs
    requires Compact(rec, 0, 0, key, hs)[..|Joined(kept)|] == [] + Joined(kept)
    ensures Entries(Shrunk(rec, key, hs), hs) == kept
  {
    hide Entries, Joined, Compact;
    var r := Shrunk(rec, key, hs);
    var rest := r[|Joined(kept)|..];
    assert r == Joined(kept) + rest;
    EntriesOfJoined(kept, rest, hs);
  }

  lemma RecordSize(rec: Bytes, hs: nat)
    requires hs > 0
    ensures |rec| == Times(hs, |Entries(rec, hs)|) + |Tail(rec, hs)|
  {
    EntriesCount(rec, hs);
  }

  lemma ShrunkMisaligned(rec: Bytes, key: Key, hs: nat, users: set<Key>)
    requires hs > 0 && Lists(rec, hs, users) && key in users && |rec| > 0 && !AlignedRecord(rec, hs)
    ensures !Lists(Shrunk(rec, key, hs), hs, users - {key})
  {
    var v := Entries(rec, hs);
    NoDuplicatesSize(v, users);
    RecordSize(rec, hs);
    hide Entries, Compact, Tail;
    var r := Shrunk(rec, key, hs);
    EntriesCount(r, hs);
    DivModUnique(|r|, hs, |v|, |Tail(rec, hs)| - 1);
    if Lists(r, hs, users - {key}) {
      NoDuplicatesSize(Entries(r, hs), users - {key});
    }
  }

  /** The record written back lists the other keys exactly when the record was aligned; otherwise
    it still lists as many hashes as before. */
  lemma ShrunkLists(rec: Bytes, key: Key, hs: nat, users: set<Key>)
    requires hs > 0 && Lists(rec, hs, users) && key in users && |rec| > 0
    ensures Lists(Shrunk(rec, key, hs), hs, users - {key}) <==> AlignedRecord(rec, hs)
  {
    if AlignedRecord(rec, hs) {
      ShrunkAligned(rec, key, hs, users);
    } else {
      ShrunkMisaligned(rec, key, hs, users);
    }
  }

  /** Removal of a key that has its position to itself, or shares an aligned record. */
  ghost predicate Removable(q: Params, f: Filter, keys: set<Key>, p: nat)
    requires q.Valid()
  {
    |Users(q, keys, p)| == 1 || AlignedRecord(RecordAt(f.index, p), q.hashSize)
  }

  lemma RemoveExactAt(q: Params, f: Filter, keys: set<Key>, k: Key, p: nat)
    requires q.Valid() && Exact(q, f, keys) && k in keys && p in q.Positions(k) && p < |f.bits|
    ensures ExactAt(q, RemoveAt(q, f, k, p).0, Users(q, keys - {k}, p), p) <==> Removable(q, f, keys, p)
  {
    var users := Users(q, keys, p);
    assert ExactAt(q, f, users, p);
    assert k in users;
    UsersChange(q, keys, k, p);
    var rec := f.index[p];
    NoDuplicatesSize(Entries(rec, q.hashSize), users);
    EntriesCount(rec, q.hashSize);
    if |users| == 1 {
      assert users - {k} == {} by {
        assert |users - {k}| == 0;
      }
    } else {
      assert |users - {k}| == |users| - 1;
      if rec != [] {
        ShrunkLists(rec, k, q.hashSize, users);
      }
    }
  }

  /** Removing a key keeps the index exact precisely when each of its positions is its own or has an
    aligned record. */
  lemma RemoveKeepsExactIff(q: Params, f: Filter, keys: set<Key>, k: Key)
    requires q.Valid() && Exact(q, f, keys) && k in keys
    ensures Exact(q, RemoveKey(q, f, k).0, keys - {k}) <==>
            forall p :: p in q.Positions(k) ==> Removable(q, f, keys, p)
  {
    var g := RemoveKey(q, f, k).0;
    forall i | 0 <= i < q.functionCount
      ensures f.bits[q.Pos(k, i)]
    {
      assert q.Pos(k, i) in q.Positions(k);
      assert k in Users(q, keys, q.Pos(k, i));
      assert ExactAt(q, f, Users(q, keys, q.Pos(k, i)), q.Pos(k, i));
    }
    forall p
      ensures ExactAt(q, g, Users(q, keys - {k}, p), p) <==> (p in q.Positions(k) ==> Removable(q, f, keys, p))
    {
      UsersChange(q, keys, k, p);
      RemoveFromDistinct(q, f, k, 0, p);
      assert ExactAt(q, f, Users(q, keys, p), p);
      if p in q.Positions(k) {
        RemoveExactAt(q, f, keys, k, p);
      }
    }
    if Exact(q, g, keys - {k}) {
      forall p | p in q.Positions(k)
        ensures Removable(q, f, keys, p)
      {
        assert ExactAt(q, g, Users(q, keys - {k}, p), p);
      }
    }
  }

  /** A removal from a shared record leaves it misaligned, so the next one at that position is not
    exact any more. */
  lemma SharedRemovalMisaligns(rec: Bytes, key: Key, hs: nat)
    requires hs > 1 && |rec| > 0 && AlignedRecord(rec, hs)
    ensures !AlignedRecord(Shrunk(rec, key, hs), hs)
  {
    EntriesCount(rec, hs);
    EntriesCount(Shrunk(rec, key, hs), hs);
    assert |rec| == hs * (|rec| / hs) + 0;
    DivModUnique(|rec| - 1, hs, |rec| / hs - 1, hs - 1);
  }

  // ----- comparing filters

  lemma {:induction false} DiffMember(q: Params, f: Filter, remote: seq<bool>, base: nat, k: Key)
    requires q.hashSize > 0 && base + |remote| <= |f.bits|
    ensures k in Diff(q, f, remote, base) <==>
            exists i :: 0 <= i < |remote| && k in DiffAt(q, f, remote[i], base + i)
  {
    hide DiffAt;
    if remote != [] {
      DiffMember(q, f, remote[1..], base + 1, k);
      if i :| 0 <= i < |remote| && k in DiffAt(q, f, remote[i], base + i) {
        if i > 0 {
          assert remote[1..][i-1] == remote[i];
        }
      }
      if i :| 0 <= i < |remote[1..]| && k in DiffAt(q, f, remote[1..][i], base + 1 + i) {
        assert k in DiffAt(q, f, remote[i+1], base + (i + 1));
      }
    }
  }

  /** Comparing all the bits of another filter reports exactly the local keys it does not contain,
    hence no key of the other set. */
  lemma DiffReportsMissingKeys(q: Params, f: Filter, keys: set<Key>, remote: seq<bool>, k: Key)
    requires q.Valid() && Exact(q, f, keys) && |remote| == |f.bits|
    ensures k in Diff(q, f, remote, 0) <==> k in keys && !BloomSpec.Contains(q, remote, k)
  {
    hide Entries, Diff;
    DiffMember(q, f, remote, 0, k);
    forall p | 0 <= p < |remote|
      ensures k in DiffAt(q, f, remote[p], 0 + p) <==> !remote[p] && k in Users(q, keys, p)
    {
      assert ExactAt(q, f, Users(q, keys, p), p);
    }
    hide DiffAt, Exact, ExactAt;
    if k in keys && !BloomSpec.Contains(q, remote, k) {
      var p :| p in q.Positions(k) && !remote[p];
      assert k in DiffAt(q, f, remote[p], 0 + p);
    }
  }

  /** However the other filter is cut into chunks, the reports add up to those of the whole. */
  lemma {:induction false} DiffOfChunks(q: Params, f: Filter, chunks: seq<seq<bool>>, base: nat)
    requires q.hashSize > 0 && base + |Concat(chunks)| <= |f.bits|
    ensures Diffs(q, f, chunks, base) == Diff(q, f, Concat(chunks), base)
  {
    if chunks != [] {
      DiffOfChunks(q, f, chunks[1..], base + |chunks[0]|);
      DiffConcat(q, f, chunks[0], Concat(chunks[1..]), base);
    }
  }

  /** The reports of one chunk after the other. */
  function Diffs(q: Params, f: Filter, chunks: seq<seq<bool>>, base: nat): seq<Key>
    requires q.hashSize > 0 && base + |Concat(chunks)| <= |f.bits|
  {
    if chunks == [] then []
    else Diff(q, f, chunks[0], base) + Diffs(q, f, chunks[1..], base + |chunks[0]|)
  }
}
