/** The set: a trie of its keys behind a Bloom test. */
module SetModel {
  import opened Bitset
  import opened Digests
  import opened TrieStore
  import opened KeyValueTries
  import opened Wrappers
  import opened BloomSpec
  import opened BloomProofs
  import opened BloomHistories
  import opened CountingBloom

  /** The trie keys of a set of hashes. */
  function TrieKeys(keys: set<Key>): set<Bits> {
    set k | k in keys :: Unpack(k)
  }

  lemma TrieKeysMember(keys: set<Key>, k: Key)
    ensures Unpack(k) in TrieKeys(keys) <==> k in keys
  {
    if j :| j in keys && Unpack(j) == Unpack(k) {
      UnpackInjective(j, k);
    }
  }

  lemma TrieKeysChange(keys: set<Key>, k: Key)
    ensures TrieKeys(keys + {k}) == TrieKeys(keys) + {Unpack(k)}
    ensures TrieKeys(keys - {k}) == TrieKeys(keys) - {Unpack(k)}
  {
    forall j | j in keys - {k}
      ensures Unpack(j) != Unpack(k)
    {
      if Unpack(j) == Unpack(k) {
        UnpackInjective(j, k);
      }
    }
    assert TrieKeys(keys + {k}) <= TrieKeys(keys) + {Unpack(k)};
    assert Unpack(k) in TrieKeys(keys + {k});
  }

  lemma TrieKeysInjective(a: set<Key>, b: set<Key>)
    requires TrieKeys(a) == TrieKeys(b)
    ensures a == b
  {
    forall k
      ensures k in a <==> k in b
    {
      TrieKeysMember(a, k);
      TrieKeysMember(b, k);
    }
  }

  lemma {:induction false} TrieKeysSize(keys: set<Key>)
    ensures |TrieKeys(keys)| == |keys|
  {
    if k :| k in keys {
      TrieKeysSize(keys - {k});
      TrieKeysChange(keys - {k}, k);
      TrieKeysMember(keys - {k}, k);
      assert keys == keys - {k} + {k};
    } else {
      assert TrieKeys(keys) == {};
    }
  }

  /** The removal of a key clears no position of another one. */
  ghost predicate Spared(q: Params, index: Index, key: Key, other: Key)
    requires q.Valid()
  {
    forall p :: p in q.Positions(other) ==> !Clears(q, index, key, 0, p)
  }

  lemma RemoveSpares(q: Params, f: Filter, key: Key)
    requires q.Valid() && |f.bits| >= q.filterSize
    ensures forall other :: BloomSpec.Contains(q, RemoveKey(q, f, key).0.bits, other) <==>
              && BloomSpec.Contains(q, f.bits, other)
              && (BloomSpec.Contains(q, f.bits, key) ==> Spared(q, f.index, key, other))
  {
    forall other
      ensures BloomSpec.Contains(q, RemoveKey(q, f, key).0.bits, other) <==>
                && BloomSpec.Contains(q, f.bits, other)
                && (BloomSpec.Contains(q, f.bits, key) ==> Spared(q, f.index, key, other))
    {
      RemoveContainsIff(q, f, key, other);
    }
  }

  /** Every position of a key has its bit, or gets it from another key that is entered. */
  ghost predicate LitBy(q: Params, f: Filter, key: Key, entered: bool, other: Key)
    requires q.Valid() && |f.bits| >= q.filterSize
  {
    forall p :: p in q.Positions(other) ==> f.bits[p] || (entered && p in q.Positions(key))
  }

  lemma AddLights(q: Params, f: Filter, key: Key)
    requires q.Valid() && |f.bits| >= q.filterSize
    ensures forall other :: BloomSpec.Contains(q, AddKey(q, f, key).bits, other) <==>
                            LitBy(q, f, key, Addable(q, f.index, key, 0), other)
    ensures forall other :: BloomSpec.Contains(q, f.bits, other) <==> LitBy(q, f, key, false, other)
  {
    forall other
      ensures BloomSpec.Contains(q, AddKey(q, f, key).bits, other) <==>
              LitBy(q, f, key, Addable(q, f.index, key, 0), other)
    {
      AddContainsIff(q, f, key, other);
    }
  }

  /** The filter after an addition, or after one at which it threw. */
  function Entered(q: Params, f: Filter, key: Key, thrown: bool): (g: Filter)
    requires q.Valid() && |f.bits| >= q.filterSize
    ensures |g.bits| == |f.bits|
  {
    if thrown then AddKey(q, f, key).(bits := f.bits) else AddKey(q, f, key)
  }

  /** No other key of the set uses a position of this one. */
  ghost predicate Unshared(q: Params, keys: set<Key>, key: Key)
    requires q.Valid()
  {
    forall p :: p in q.Positions(key) ==> Users(q, keys, p) == {key}
  }

  class Set {
    const trie: KeyValueTrie
    const bf: CountingBloomFilter
    const hardMaximum: bool
    const maxSize: nat
    /** The hashes in the set. */
    ghost var keys: set<Key>
    /** Whether every insertion since the set was last empty got a filter entry: its positions
      differed and did not list the key, and the filter had room. */
    ghost var covered: bool
    /** Whether besides no two keys ever shared a position when one of them was erased. */
    ghost var tidy: bool

    ghost predicate Valid()
      reads this, trie, bf, bf.bitArray
    {
      && trie.Valid() && bf.Valid() && trie.n == 8 * bf.q.hashSize
      && bf.hardMaximum == hardMaximum && bf.maxElements == maxSize
      && (forall k :: k in keys ==> |k| == bf.q.hashSize)
      && trie.Keys() == TrieKeys(keys) && trie.size == |keys|
      && (hardMaximum ==> |keys| <= maxSize)
      && (covered ==> Covers(bf.q, bf.State(), keys))
      && (tidy ==> covered && Tidy(bf.q, bf.State(), keys))
    }

    /** What find answers: a key of the set that passes the Bloom test. */
    ghost predicate Finds(key: Key)
      requires bf.Valid()
      reads this, bf, bf.bitArray
    {
      key in keys && BloomSpec.Contains(bf.q, bf.State().bits, key)
    }

    /** The filter gets the same maximum as the set. */
    constructor (params: Params, hard: bool, max: nat)
      requires params.Valid() && 8 * params.hashSize <= 255 && max < COUNTS
      ensures Valid() && keys == {} && covered && tidy && bf.completed == 0
      ensures fresh(trie) && fresh(bf) && fresh(bf.bitArray)
      ensures bf.q == params && hardMaximum == hard && maxSize == max
    {
      trie := new KeyValueTrie(8 * params.hashSize);
      bf := new CountingBloomFilter.Empty(params, hard, max);
      hardMaximum, maxSize := hard, max;
      keys, covered, tidy := {}, true, true;
      new;
      EmptyIsTidy(bf.q, bf.State());
    }

    /** Whether an insertion gets past the maximum, and is of a new key. */
    ghost predicate Enters(key: Key)
      reads this
    {
      key !in keys && !(hardMaximum && |keys| >= maxSize)
    }

    /** Whether the filter would throw at an insertion: the entries can be made, but as many additions
      as the maximum allows have been made since the filter was last empty, erased or not. */
    ghost predicate Overflows(key: Key)
      requires bf.Valid()
      reads this, bf
    {
      hardMaximum && Addable(bf.q, bf.index, key, 0) && bf.completed >= maxSize
    }

    method Insert(key: Key) returns (r: Result<bool>)
      requires Valid() && |key| == bf.q.hashSize
      modifies this`keys, this`covered, this`tidy, trie, bf`index, bf`itemCount, bf`completed, bf.bitArray
      ensures Valid()
      ensures r.Thrown? <==> old(Enters(key)) && old(Overflows(key))
      ensures r.Ok? ==> (r.value <==> key !in old(keys) && (hardMaximum ==> |old(keys)| < maxSize))
      ensures r.Ok? ==> r.value == old(Enters(key))
      ensures keys == old(keys) + if old(Enters(key)) then {key} else {}
      ensures covered == (old(covered) && (old(Enters(key)) ==> Unlisted(bf.q, old(bf.index), key) && r.Ok?))
      ensures tidy == (old(tidy) && (old(Enters(key)) ==> bf.q.Distinct(key) && r.Ok?))
      ensures bf.completed == old(bf.completed) +
                if old(Enters(key)) && Addable(bf.q, old(bf.index), key, 0) && r.Ok? then 1 else 0
      ensures bf.State() == if old(Enters(key)) then Entered(bf.q, old(bf.State()), key, r.Thrown?) else old(bf.State())
      ensures old(Enters(key)) ==>
                (Finds(key) <==> (Addable(bf.q, old(bf.index), key, 0) && r.Ok?) ||
                                 BloomSpec.Contains(bf.q, old(bf.State()).bits, key))
      ensures old(Enters(key)) ==> forall other :: other != key ==>
                (Finds(other) <==>
                  && other in old(keys)
                  && LitBy(bf.q, old(bf.State()), key, Addable(bf.q, old(bf.index), key, 0) && r.Ok?, other))
    {
      if hardMaximum {
        if trie.size >= maxSize {
          return Ok(false);
        }
      }
      r := InsertKey(key);
    }

    method InsertKey(key: Key) returns (r: Result<bool>)
      requires Valid() && |key| == bf.q.hashSize && (hardMaximum ==> |keys| < maxSize)
      modifies this`keys, this`covered, this`tidy, trie, bf`index, bf`itemCount, bf`completed, bf.bitArray
      ensures Valid()
      ensures r.Thrown? <==> key !in old(keys) && old(Overflows(key))
      ensures r.Ok? ==> (r.value <==> key !in old(keys))
      ensures keys == old(keys) + {key}
      ensures covered == (old(covered) && (key !in old(keys) ==> Unlisted(bf.q, old(bf.index), key) && r.Ok?))
      ensures tidy == (old(tidy) && (key !in old(keys) ==> bf.q.Distinct(key) && r.Ok?))
      ensures bf.completed == old(bf.completed) +
                if key !in old(keys) && Addable(bf.q, old(bf.index), key, 0) && r.Ok? then 1 else 0
      ensures bf.State() ==
                if key !in old(keys) then Entered(bf.q, old(bf.State()), key, r.Thrown?) else old(bf.State())
      ensures key !in old(keys) ==>
                (Finds(key) <==> (Addable(bf.q, old(bf.index), key, 0) && r.Ok?) ||
                                 BloomSpec.Contains(bf.q, old(bf.State()).bits, key))
      ensures key !in old(keys) ==> forall other :: other != key ==>
                (Finds(other) <==>
                  && other in old(keys)
                  && LitBy(bf.q, old(bf.State()), key, Addable(bf.q, old(bf.index), key, 0) && r.Ok?, other))
    {
      TrieKeysMember(keys, key);
      TrieKeysChange(keys, key);
      TrieKeysSize(keys + {key});
      hide TrieKeys, WellFormed, Leaves, Covers, Unlisted, Tidy, Addable, BloomSpec.Contains, LitBy, Entered;
      var inserted := trie.Add(Unpack(key));
      if !inserted {
        return Ok(false);
      }
      var added := AddToFilter(key);
      keys := keys + {key};
      r := if added.Ok? then Ok(true) else Thrown;
    }

    /** Enters the key in the filter. */
    method AddToFilter(key: Key) returns (r: Result<()>)
      requires bf.Valid() && |key| == bf.q.hashSize && bf.hardMaximum == hardMaximum && bf.maxElements == maxSize
      requires covered ==> Covers(bf.q, bf.State(), keys)
      requires key !in keys && (tidy ==> covered && Tidy(bf.q, bf.State(), keys))
      modifies this`covered, this`tidy, bf`index, bf`itemCount, bf`completed, bf.bitArray
      ensures bf.Valid() && (r.Thrown? <==> old(Overflows(key)))
      ensures covered == (old(covered) && Unlisted(bf.q, old(bf.index), key) && r.Ok?)
      ensures tidy == (old(tidy) && bf.q.Distinct(key) && r.Ok?)
      ensures covered ==> Covers(bf.q, bf.State(), keys + {key})
      ensures tidy ==> covered && Tidy(bf.q, bf.State(), keys + {key})
      ensures bf.completed == old(bf.completed) + if Addable(bf.q, old(bf.index), key, 0) && r.Ok? then 1 else 0
      ensures BloomSpec.Contains(bf.q, bf.State().bits, key) <==>
                (Addable(bf.q, old(bf.index), key, 0) && r.Ok?) || BloomSpec.Contains(bf.q, old(bf.State()).bits, key)
      ensures bf.State() == Entered(bf.q, old(bf.State()), key, r.Thrown?)
      ensures forall other :: BloomSpec.Contains(bf.q, bf.State().bits, other) <==>
                LitBy(bf.q, old(bf.State()), key, Addable(bf.q, old(bf.index), key, 0) && r.Ok?, other)
    {
      ghost var f := bf.State();
      ghost var listed := Unlisted(bf.q, bf.index, key);
      if tidy && bf.q.Distinct(key) {
        AddKeepsTidy(bf.q, f, keys, key);
      }
      if covered && listed {
        AddCovers(bf.q, f, keys, key);
      }
      AddContainsIff(bf.q, f, key, key);
      AddLights(bf.q, f, key);
      hide AddKey, Covers, Unlisted, Tidy, Addable, BloomSpec.Contains, LitBy;
      r := bf.Add(key);
      covered := covered && listed && r.Ok?;
      tidy := tidy && bf.q.Distinct(key) && r.Ok?;
    }

    method RemoveFromFilter(key: Key)
      requires bf.Valid() && key in keys
      requires covered ==> Covers(bf.q, bf.State(), keys)
      requires tidy ==> Tidy(bf.q, bf.State(), keys)
      modifies this`tidy, bf`index, bf.bitArray
      ensures bf.Valid() && (covered ==> Covers(bf.q, bf.State(), keys - {key}))
      ensures tidy == (old(tidy) && (bf.q.hashSize == 1 || Unshared(bf.q, keys, key)))
      ensures tidy ==> Tidy(bf.q, bf.State(), keys - {key})
      ensures bf.State() == RemoveKey(bf.q, old(bf.State()), key).0
    {
      if tidy {
        RemoveKeepsTidyIff(bf.q, bf.State(), keys, key);
      }
      tidy := tidy && (bf.q.hashSize == 1 || Unshared(bf.q, keys, key));
      if covered {
        RemoveCovers(bf.q, bf.State(), keys, key);
      }
      hide RemoveKey, Covers, Tidy;
      var _ := bf.Remove(key);
    }

    /** Erasing a key hides just the keys that use a position it clears. */
    method Erase(key: Key) returns (erased: bool)
      requires Valid() && |key| == bf.q.hashSize
      modifies this`keys, this`tidy, trie, bf`index, bf.bitArray
      ensures Valid()
      ensures erased <==> key in old(keys)
      ensures keys == old(keys) - {key}
      ensures tidy == (old(tidy) && (erased ==> bf.q.hashSize == 1 || Unshared(bf.q, old(keys), key)))
      ensures forall other :: Finds(other) <==>
                other != key && old(Finds(other)) &&
                (old(Finds(key)) ==> Spared(bf.q, old(bf.index), key, other))
    {
      TrieKeysMember(keys, key);
      TrieKeysChange(keys, key);
      TrieKeysSize(keys - {key});
      hide TrieKeys, WellFormed, Leaves, Covers, Tidy, Unshared, RemoveKey, BloomSpec.Contains, Spared;
      erased := trie.Remove(LeafKey(Unpack(key)));
      if erased {
        ghost var f := bf.State();
        RemoveFromFilter(key);
        keys := keys - {key};
        RemoveSpares(bf.q, f, key);
      }
    }

    /** A key is found exactly when it is in the set and passes the Bloom test, and the test never
      hides a key as long as every insertion got its entry. */
    method Find(key: Key) returns (found: bool)
      requires Valid() && |key| == bf.q.hashSize
      ensures found <==> Finds(key)
      ensures covered ==> (found <==> key in keys)
    {
      TrieKeysMember(keys, key);
      if covered && key in keys {
        CoveredIsContained(bf.q, bf.State(), keys, key);
      }
      var passed := bf.Contains(key);
      if passed {
        if trie.root.Some? {
          LookupLeaf(trie.root.value, Unpack(key));
        }
        var t := trie.Contains(LeafKey(Unpack(key)));
        return t == LEAF_NODE;
      }
      return false;
    }

    method Clear()
      requires Valid()
      modifies this`keys, this`covered, this`tidy, trie
      modifies bf`index, bf`savedCount, bf`itemCount, bf`completed, bf.bitArray
      ensures Valid() && keys == {} && covered && tidy && bf.completed == 0
    {
      trie.Clear();
      bf.Clear();
      keys, covered, tidy := {}, true, true;
      CoversNothing(bf.q, bf.State());
      EmptyIsTidy(bf.q, bf.State());
    }

    method Equals(other: Set) returns (same: bool)
      requires Valid() && other.Valid() && trie.n == other.trie.n
      ensures same <==> keys == other.keys
    {
      same := trie.Equals(other.trie);
      if TrieKeys(keys) == TrieKeys(other.keys) {
        TrieKeysInjective(keys, other.keys);
      }
    }
  }

  lemma TidyAndEmpty(q: Params, f: Filter, key: Key)
    requires q.Valid() && Tidy(q, f, {}) && |key| == q.hashSize && q.Distinct(key)
    ensures Addable(q, f.index, key, 0) && !BloomSpec.Contains(q, f.bits, key)
  {
    AddKeepsTidy(q, f, {}, key);
    AddCompletesIff(q, f.index, key);
    var p := q.Pos(key, 0);
    assert p in q.Positions(key);
    assert ExactAt(q, f, Users(q, {}, p), p);
  }

  /** An insertion at which the filter throws leaves records behind without bits. */
  lemma ThrownDisagrees(q: Params, f: Filter, key: Key)
    requires q.Valid() && Tidy(q, f, {}) && |key| == q.hashSize && q.Distinct(key)
    ensures var g := Entered(q, f, key, true);
            && !Agrees(q, g) && (forall p :: p in g.index ==> p < q.filterSize)
            && (forall p :: p in q.Positions(key) ==> p in g.index)
  {
    TidyAndEmpty(q, f, key);
    ExactAgrees(q, f, {});
    AddAgreesIff(q, f, key);
    AddCompletesIff(q, f.index, key);
    AddIndexKeys(q, f.index, key, 0);
    hide Addable, AddIndex, Exact;
  }

  lemma OnlyUser(q: Params, key: Key)
    requires q.Valid()
    ensures Unshared(q, {key}, key)
  {
  }

  /** A set with a hard maximum of one after an insertion and an erasure. */
  method AddedAndErased(params: Params, a: Key) returns (s: Set)
    requires params.Valid() && 8 * params.hashSize <= 255 && |a| == params.hashSize && params.Distinct(a)
    ensures fresh(s) && fresh(s.trie) && fresh(s.bf) && fresh(s.bf.bitArray)
    ensures s.Valid() && s.bf.q == params && s.hardMaximum && s.maxSize == 1
    ensures s.keys == {} && s.tidy && s.bf.completed == 1
  {
    hide Addable, Unlisted, Tidy, Covers, Unshared, BloomSpec.Contains, Spared, LitBy, Entered, Params.Distinct;
    s := new Set(params, true, 1);
    TidyAndEmpty(params, s.bf.State(), a);
    var first := s.Insert(a);
    assert s.keys == {a} && s.tidy;
    OnlyUser(params, a);
    var erased := s.Erase(a);
  }

  /** Erasing makes no room: with a hard maximum of one, the second insertion throws although the set
    is empty, and leaves behind a key that is in the trie but is not found.  Closing the filter and
    loading it again sets other bits than it had, and then the key passes the Bloom test. */
  method ErasingMakesNoRoom(params: Params, a: Key, b: Key)
      returns (s: Set, second: Result<bool>, found: bool, reloaded: CountingBloomFilter)
    requires params.Valid() && 8 * params.hashSize <= 255
    requires |a| == |b| == params.hashSize && params.Distinct(a) && params.Distinct(b)
    ensures second.Thrown? && s.keys == {b} && !found
    ensures reloaded.Valid() && s.bf.Valid() && reloaded.q == params && reloaded.State() != s.bf.State()
    ensures BloomSpec.Contains(params, reloaded.State().bits, b)
  {
    hide Addable, Unlisted, Tidy, Covers, Unshared, Spared, LitBy, Entered, Agrees, Params.Distinct;
    s := AddedAndErased(params, a);
    TidyAndEmpty(params, s.bf.State(), b);
    ThrownDisagrees(params, s.bf.State(), b);
    second := s.Insert(b);
    found := s.Find(b);
    reloaded := Reopen(s.bf);
  }
}
