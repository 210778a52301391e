/** Filters whose index is exact and made of whole hashes: what keeps them so. */
module BloomHistories {
  import opened Bitset
  import opened BloomSpec
  import opened BloomProofs
  import opened Arithmetic

  /** Every record consists of whole hashes, and the index is exact. */
  ghost predicate Tidy(q: Params, f: Filter, keys: set<Key>)
    requires q.Valid()
  {
    Exact(q, f, keys) && forall p :: p in f.index ==> AlignedRecord(f.index[p], q.hashSize)
  }

  lemma EmptyIsTidy(q: Params, f: Filter)
    requires q.Valid() && |f.bits| >= q.filterSize && f.index == map[]
    requires forall p :: 0 <= p < |f.bits| ==> !f.bits[p]
    ensures Tidy(q, f, {})
  {
    EmptyIsExact(q, f);
  }

  /** Adding a new key whose positions differ keeps a filter tidy; no position lists the key before. */
  lemma AddKeepsTidy(q: Params, f: Filter, keys: set<Key>, k: Key)
    requires q.Valid() && Tidy(q, f, keys) && k !in keys && |k| == q.hashSize && q.Distinct(k)
    ensures Unlisted(q, f.index, k) && Tidy(q, AddKey(q, f, k), keys + {k})
  {
    forall p | p in q.Positions(k)
      ensures !ListedAt(q, f.index, k, p) && Clean(RecordAt(f.index, p), k, q.hashSize)
      ensures AlignedRecord(RecordAt(f.index, p) + k, q.hashSize)
    {
      assert ExactAt(q, f, Users(q, keys, p), p);
      EntriesAppend(RecordAt(f.index, p), k, q.hashSize);
    }
    AddKeepsExactIff(q, f, keys, k);
    hide Exact, Entries, AddKey;
    AddKeyEffect(q, f, k);
  }

  /** Removing a key keeps a tidy filter tidy exactly when the key shares none of its positions, or
    hashes are single bytes. */
  lemma RemoveKeepsTidyIff(q: Params, f: Filter, keys: set<Key>, k: Key)
    requires q.Valid() && Tidy(q, f, keys) && k in keys
    ensures Tidy(q, RemoveKey(q, f, k).0, keys - {k}) <==>
            q.hashSize == 1 || forall p :: p in q.Positions(k) ==> Users(q, keys, p) == {k}
  {
    var g := RemoveKey(q, f, k).0;
    forall p | p in q.Positions(k)
      ensures Removable(q, f, keys, p)
    {
      assert ExactAt(q, f, Users(q, keys, p), p);
    }
    RemoveKeepsExactIff(q, f, keys, k);
    forall p
      ensures (p in g.index ==> AlignedRecord(g.index[p], q.hashSize)) <==>
              (p in q.Positions(k) ==> q.hashSize == 1 || Users(q, keys, p) == {k})
    {
      RemovedRecord(q, f, keys, k, p);
    }
  }

  lemma RemovedRecord(q: Params, f: Filter, keys: set<Key>, k: Key, p: nat)
    requires q.Valid() && Tidy(q, f, keys) && k in keys
    ensures var g := RemoveKey(q, f, k).0;
            (p in g.index ==> AlignedRecord(g.index[p], q.hashSize)) <==>
            (p in q.Positions(k) ==> q.hashSize == 1 || Users(q, keys, p) == {k})
  {
    ExactIsContained(q, f, keys, k);
    assert ExactAt(q, f, Users(q, keys, p), p);
    hide Shrunk, Exact;
    RemoveFromDistinct(q, f, k, 0, p);
    if p in q.Positions(k) {
      assert k in Users(q, keys, p);
      NoDuplicatesSize(Entries(f.index[p], q.hashSize), Users(q, keys, p));
      EntriesCount(f.index[p], q.hashSize);
      if |Users(q, keys, p)| == 1 {
        SingleUser(Users(q, keys, p), k);
      } else if q.hashSize > 1 {
        SharedRemovalMisaligns(f.index[p], k, q.hashSize);
      } else {
        EntriesCount(Shrunk(f.index[p], k, 1), 1);
      }
    }
  }

  lemma SingleUser(users: set<Key>, k: Key)
    requires k in users && |users| == 1
    ensures users == {k}
  {
    assert |users - {k}| == 0;
  }

  lemma ExactIsContained(q: Params, f: Filter, keys: set<Key>, k: Key)
    requires q.Valid() && Exact(q, f, keys) && k in keys
    ensures forall i :: 0 <= i < q.functionCount ==> f.bits[q.Pos(k, i)]
    ensures q.DistinctFrom(k, 0)
  {
    forall i | 0 <= i < q.functionCount
      ensures f.bits[q.Pos(k, i)]
    {
      var p := q.Pos(k, i);
      assert p in q.Positions(k) && k in Users(q, keys, p);
      assert ExactAt(q, f, Users(q, keys, p), p);
    }
  }

  // ----- removal as it is meant

  /** What is left of a record with several entries when one whole hash less is written back, in place
    of one byte less. */
  function ShrunkWhole(rec: Bytes, key: Key, hs: nat): (r: Bytes)
    requires 0 < hs <= |rec|
    ensures |r| == |rec| - hs
  {
    Compact(rec, 0, 0, key, hs)[..|rec|-hs]
  }

  function RemoveWholeAt(q: Params, f: Filter, key: Key, p: nat): (g: Filter)
    requires q.hashSize > 0 && p < |f.bits|
    ensures |g.bits| == |f.bits|
  {
    if p !in f.index then f
    else if |f.index[p]| / q.hashSize > 1 then
      SeveralEntries(|f.index[p]|, q.hashSize);
      Filter(f.bits, f.index[p := ShrunkWhole(f.index[p], key, q.hashSize)])
    else Filter(f.bits[p := false], f.index - {p})
  }

  function RemoveWholeFrom(q: Params, f: Filter, key: Key, i: nat): (g: Filter)
    requires q.Valid() && |f.bits| >= q.filterSize
    ensures |g.bits| == |f.bits|
    decreases q.functionCount - i
  {
    if i >= q.functionCount then f
    else RemoveWholeFrom(q, RemoveWholeAt(q, f, key, q.Pos(key, i)), key, i + 1)
  }

  function RemoveWhole(q: Params, f: Filter, key: Key): (g: Filter)
    requires q.Valid() && |f.bits| >= q.filterSize
    ensures |g.bits| == |f.bits|
  {
    if forall i :: 0 <= i < q.functionCount ==> f.bits[q.Pos(key, i)] then RemoveWholeFrom(q, f, key, 0) else f
  }

  lemma {:induction false} RemoveWholeDistinct(q: Params, f: Filter, key: Key, i: nat, p: nat)
    requires q.Valid() && |f.bits| >= q.filterSize && q.DistinctFrom(key, i)
    ensures p in q.PositionsFrom(key, i) ==>
              p < |f.bits| && SameAt(RemoveWholeFrom(q, f, key, i), RemoveWholeAt(q, f, key, p), p)
    ensures p !in q.PositionsFrom(key, i) ==> SameAt(RemoveWholeFrom(q, f, key, i), f, p)
    decreases q.functionCount - i
  {
    if i < q.functionCount {
      PositionsStep(q, key, i);
      RemoveWholeDistinct(q, RemoveWholeAt(q, f, key, q.Pos(key, i)), key, i + 1, p);
    }
  }

  /** A whole record of several users without one of them. */
  lemma ShrunkWholeLists(rec: Bytes, key: Key, hs: nat, users: set<Key>)
    requires 0 < hs <= |rec| && Lists(rec, hs, users) && key in users && AlignedRecord(rec, hs)
    ensures Lists(ShrunkWhole(rec, key, hs), hs, users - {key}) && AlignedRecord(ShrunkWhole(rec, key, hs), hs)
  {
    var kept := Without(Entries(rec, hs), key);
    WithoutOnce(Entries(rec, hs), key);
    ShrunkWholeIs(rec, key, hs, kept);
  }

  lemma ShrunkWholeIs(rec: Bytes, key: Key, hs: nat, kept: seq<Key>)
    requires 0 < hs <= |rec| && AlignedRecord(rec, hs) && kept == Without(Entries(rec, hs), key)
    requires |kept| == |Entries(rec, hs)| - 1
    ensures Entries(ShrunkWhole(rec, key, hs), hs) == kept && AlignedRecord(ShrunkWhole(rec, key, hs), hs)
  {
    EntriesSize(rec, hs);
    RecordSize(rec, hs);
    hide Entries, Tail, Without, Joined, Compact, ShrunkWhole, Times;
    JoinedSize(kept, hs);
    TimesFacts(hs, |kept|, 0);
    FrontIsJoined(rec, key, hs, kept);
    JoinedIsWhole(kept, hs);
  }

  lemma FrontIsJoined(rec: Bytes, key: Key, hs: nat, kept: seq<Key>)
    requires 0 < hs <= |rec| && kept == Without(Entries(rec, hs), key) && |rec| == |Joined(kept)| + hs
    ensures ShrunkWhole(rec, key, hs) == Joined(kept)
  {
    hide Entries, Without, Joined, Compact;
    CompactFront(rec, 0, 0, key, hs);
    assert rec[0..] == rec && rec[..0] == [];
    assert [] + Joined(kept) == Joined(kept);
  }

  lemma JoinedIsWhole(v: seq<Key>, hs: nat)
    requires hs > 0 && forall k :: k in v ==> |k| == hs
    ensures Entries(Joined(v), hs) == v && AlignedRecord(Joined(v), hs)
  {
    hide Entries, Tail, Joined, Times;
    EntriesOfJoined(v, [], hs);
    assert Joined(v) + [] == Joined(v);
    RecordSize(Joined(v), hs);
    JoinedSize(v, hs);
  }

  /** With whole hashes written back, removal keeps every tidy filter tidy. */
  lemma RemoveWholeKeepsTidy(q: Params, f: Filter, keys: set<Key>, k: Key)
    requires q.Valid() && Tidy(q, f, keys) && k in keys
    ensures Tidy(q, RemoveWhole(q, f, k), keys - {k})
  {
    ExactIsContained(q, f, keys, k);
    var g := RemoveWhole(q, f, k);
    forall p
      ensures ExactAt(q, g, Users(q, keys - {k}, p), p)
      ensures p in g.index ==> AlignedRecord(g.index[p], q.hashSize)
    {
      WholeRecord(q, f, keys, k, p);
    }
  }

  lemma WholeRecord(q: Params, f: Filter, keys: set<Key>, k: Key, p: nat)
    requires q.Valid() && Tidy(q, f, keys) && k in keys
    ensures var g := RemoveWholeFrom(q, f, k, 0);
            && ExactAt(q, g, Users(q, keys - {k}, p), p)
            && (p in g.index ==> AlignedRecord(g.index[p], q.hashSize))
  {
    ExactIsContained(q, f, keys, k);
    assert ExactAt(q, f, Users(q, keys, p), p);
    UsersChange(q, keys, k, p);
    hide ShrunkWhole, Exact, Entries;
    RemoveWholeDistinct(q, f, k, 0, p);
    if p in q.Positions(k) {
      var users, rec := Users(q, keys, p), f.index[p];
      assert k in users;
      NoDuplicatesSize(Entries(rec, q.hashSize), users);
      EntriesCount(rec, q.hashSize);
      SeveralEntries(|rec|, q.hashSize);
      if |rec| / q.hashSize > 1 {
        ShrunkWholeLists(rec, k, q.hashSize, users);
        assert |users - {k}| == |users| - 1;
      } else {
        SingleUser(users, k);
      }
    }
  }

  // ----- histories

  datatype Operation = AddKeyOp(key: Key) | RemoveKeyOp(key: Key) | ClearOp

  /** The set calls add for new keys and remove for present ones. */
  ghost predicate Proper(q: Params, keys: set<Key>, op: Operation)
    requires q.Valid()
  {
    match op
    case AddKeyOp(k) => k !in keys && |k| == q.hashSize && q.Distinct(k)
    case RemoveKeyOp(k) => k in keys
    case ClearOp => true
  }

  function KeysAfter(keys: set<Key>, op: Operation): set<Key> {
    match op
    case AddKeyOp(k) => keys + {k}
    case RemoveKeyOp(k) => keys - {k}
    case ClearOp => {}
  }

  /** An operation on a filter; whole says which removal. */
  function FilterAfter(q: Params, f: Filter, op: Operation, whole: bool): (g: Filter)
    requires q.Valid() && |f.bits| >= q.filterSize
    ensures |g.bits| == |f.bits|
  {
    match op
    case AddKeyOp(k) => AddKey(q, f, k)
    case RemoveKeyOp(k) => if whole then RemoveWhole(q, f, k) else RemoveKey(q, f, k).0
    case ClearOp => Filter(seq(|f.bits|, _ => false), map[])
  }

  /** A history of filters, keys and operations. */
  ghost predicate IsHistory(q: Params, fs: seq<Filter>, ks: seq<set<Key>>, ops: seq<Operation>, whole: bool)
    requires q.Valid()
  {
    && |fs| == |ks| == |ops| + 1
    && (forall i :: 0 <= i < |fs| ==> |fs[i].bits| >= q.filterSize)
    && fs[0].index == map[] && (forall p :: 0 <= p < |fs[0].bits| ==> !fs[0].bits[p]) && ks[0] == {}
    && (forall i :: 0 <= i < |ops| ==> Proper(q, ks[i], ops[i]) && ks[i+1] == KeysAfter(ks[i], ops[i]))
    && (forall i :: 0 <= i < |ops| ==> fs[i+1] == FilterAfter(q, fs[i], ops[i], whole))
  }

  /** A removal of the code does what is meant, unless the key shares a position and hashes have
    several bytes. */
  ghost predicate Harmless(q: Params, keys: set<Key>, op: Operation)
    requires q.Valid()
  {
    op.RemoveKeyOp? ==> q.hashSize == 1 || forall p :: p in q.Positions(op.key) ==> Users(q, keys, p) == {op.key}
  }

  lemma OperationKeepsTidy(q: Params, f: Filter, keys: set<Key>, op: Operation, whole: bool)
    requires q.Valid() && Tidy(q, f, keys) && Proper(q, keys, op) && (whole || Harmless(q, keys, op))
    ensures Tidy(q, FilterAfter(q, f, op, whole), KeysAfter(keys, op))
  {
    match op
    case AddKeyOp(k) => AddKeepsTidy(q, f, keys, k);
    case RemoveKeyOp(k) =>
      if whole {
        RemoveWholeKeepsTidy(q, f, keys, k);
      } else {
        RemoveKeepsTidyIff(q, f, keys, k);
      }
    case ClearOp => EmptyIsTidy(q, FilterAfter(q, f, ClearOp, whole));
  }

  /** Whole-record removal keeps the filter tidy over every history; the removal of the code does over
    every history without a removal from a shared record. */
  lemma {:induction false} HistoryStaysTidy(q: Params, fs: seq<Filter>, ks: seq<set<Key>>, ops: seq<Operation>,
                                           whole: bool, i: nat)
    requires q.Valid() && IsHistory(q, fs, ks, ops, whole) && i < |fs|
    requires whole || forall j :: 0 <= j < i ==> Harmless(q, ks[j], ops[j])
    ensures Tidy(q, fs[i], ks[i])
  {
    if i == 0 {
      EmptyIsTidy(q, fs[0]);
    } else {
      HistoryStaysTidy(q, fs, ks, ops, whole, i - 1);
      hide Tidy, FilterAfter, Proper, Harmless;
      OperationKeepsTidy(q, fs[i-1], ks[i-1], ops[i-1], whole);
    }
  }

  /** So with whole-record removal the filter never denies a key that was added and not removed. */
  lemma WholeHistoryContains(q: Params, fs: seq<Filter>, ks: seq<set<Key>>, ops: seq<Operation>, i: nat, k: Key)
    requires q.Valid() && IsHistory(q, fs, ks, ops, true) && i < |fs| && k in ks[i]
    ensures BloomSpec.Contains(q, fs[i].bits, k)
  {
    HistoryStaysTidy(q, fs, ks, ops, true, i);
    ExactIsContained(q, fs[i], ks[i], k);
    ContainsByFunction(q, fs[i].bits, k);
  }

  /** The first removal of the code from a shared record, with hashes of several bytes, ends it. */
  lemma FirstSharedRemoval(q: Params, fs: seq<Filter>, ks: seq<set<Key>>, ops: seq<Operation>, i: nat)
    requires q.Valid() && IsHistory(q, fs, ks, ops, false) && i < |ops|
    requires forall j :: 0 <= j < i ==> Harmless(q, ks[j], ops[j])
    ensures Tidy(q, fs[i+1], ks[i+1]) <==> Harmless(q, ks[i], ops[i])
  {
    HistoryStaysTidy(q, fs, ks, ops, false, i);
    if Harmless(q, ks[i], ops[i]) {
      HistoryStaysTidy(q, fs, ks, ops, false, i + 1);
    } else {
      RemoveKeepsTidyIff(q, fs[i], ks[i], ops[i].key);
    }
  }
}
