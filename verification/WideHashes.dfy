/** Prefix lengths are kept in eight bits: what an addition makes of a trie for hashes of any length. */
module WideHashes {
  import opened Digests
  import opened KeyValueTries
  import opened Wrappers

  /** The prefix length in a node's record. */
  function StoredMask(d: Digest): nat {
    match d
    case LeafKey(b) => |b| % 256
    case Inner(_, _) => Mask(d)
  }

  /** The tries that additions build: Patricia tries in terms of the stored prefix lengths. */
  ghost predicate Trie(d: Digest, n: nat)
    ensures Trie(d, n) ==> |Rep(d)| == n && StoredMask(d) <= n % 256
    ensures Trie(d, n) && d.Inner? ==> Mask(d) < n % 256 <= n
  {
    match d
    case LeafKey(b) => |b| == n
    case Inner(l, r) =>
      && Trie(l, n) && Trie(r, n)
      && Mask(d) < StoredMask(l) && Mask(d) < StoredMask(r)
      && !Rep(l)[Mask(d)] && Rep(r)[Mask(d)]
  }

  datatype Insertion = Duplicate | Throws | Inserted(d: Digest)

  /** Inserting below a node, for hashes of n bits. */
  ghost function InsertBelow(d: Digest, key: Bits, n: nat): Insertion
    requires Trie(d, n) && |key| == n
  {
    var mask := StoredMask(d);
    if !Agree(key, Rep(d), mask) then Inserted(SplitNode(d, key))
    else if mask == n then Duplicate
    else if d.LeafKey? then Throws  // the insertion goes on to a child, and a leaf has none
    else if key[mask] then
      match InsertBelow(d.larger, key, n)
      case Inserted(l) => Inserted(Inner(d.smaller, l))
      case other => other
    else
      match InsertBelow(d.smaller, key, n)
      case Inserted(s) => Inserted(Inner(s, d.larger))
      case other => other
  }

  /** The root, the digests that have a record in the store, and the size counter. */
  datatype State = State(root: Option<Digest>, stored: set<Digest>, size: nat)

  ghost predicate Proper(s: State, n: nat) {
    s.root.Some? ==> Trie(s.root.value, n)
  }

  function NodesOf(root: Option<Digest>): set<Digest> {
    if root.None? then {} else Nodes(root.value)
  }

  function KeysOf(root: Option<Digest>): set<Bits> {
    if root.None? then {} else Leaves(root.value)
  }

  /** Nothing but the nodes of the trie is stored, and the counter counts its keys. */
  ghost predicate InOrder(s: State) {
    s.stored == NodesOf(s.root) && s.size == |KeysOf(s.root)|
  }

  /** Adding a key: whatever is thrown, the key gets a record and becomes the root; else the new nodes
    are stored, and the nodes they replace deleted. */
  ghost function Add(s: State, key: Bits, n: nat): (State, bool)
    requires |key| == n && Proper(s, n)
  {
    var caught := State(Some(LeafKey(key)), s.stored + {LeafKey(key)}, s.size + 1);
    if s.root.None? then (caught, true)
    else match InsertBelow(s.root.value, key, n)
      case Duplicate => (s, false)
      case Throws => (caught, true)
      case Inserted(d) =>
        (State(Some(d), s.stored + Nodes(d) - (Nodes(s.root.value) - Nodes(d)), s.size + 1), true)
  }

  /** A key of the trie that agrees with this one on the bits that a stored prefix length can count. */
  ghost predicate Clashes(d: Digest, key: Bits, n: nat) {
    exists k :: k in Leaves(d) && Agree(k, key, n % 256)
  }

  lemma {:induction false} KeysAgree(d: Digest, n: nat, k: Bits)
    requires Trie(d, n) && k in Leaves(d)
    ensures |k| == n && Agree(k, Rep(d), StoredMask(d))
  {
    if d.Inner? {
      KeysAgree(if k in Leaves(d.smaller) then d.smaller else d.larger, n, k);
    }
  }

  lemma SplitClashes(d: Digest, key: Bits, n: nat)
    requires Trie(d, n) && |key| == n && !Agree(key, Rep(d), StoredMask(d))
    ensures CommonPrefix(Rep(d), key) < StoredMask(d) && !Clashes(d, key, n)
    ensures var e := SplitNode(d, key); Trie(e, n) && Leaves(e) == Leaves(d) + {key}
  {
    var c := CommonPrefix(Rep(d), key);
    CommonPrefixSymmetric(Rep(d), key);
    assert c >= StoredMask(d) ==> Agree(key, Rep(d), StoredMask(d));
    assert key[c] != Rep(d)[c];
    forall k | k in Leaves(d)
      ensures !Agree(k, key, n % 256)
    {
      KeysAgree(d, n, k);
      assert k[c] == Rep(d)[c];
    }
  }

  lemma SideClashes(d: Digest, key: Bits, n: nat)
    requires Trie(d, n) && d.Inner? && |key| == n
    ensures Clashes(d, key, n) <==> Clashes(if key[Mask(d)] then d.larger else d.smaller, key, n)
  {
    var side, m := if key[Mask(d)] then d.larger else d.smaller, Mask(d);
    if Clashes(d, key, n) {
      var k :| k in Leaves(d) && Agree(k, key, n % 256);
      if k in Leaves(d.smaller) {
        KeysAgree(d.smaller, n, k);
        assert k[m] == Rep(d.smaller)[m];
      }
      if k in Leaves(d.larger) {
        KeysAgree(d.larger, n, k);
        assert k[m] == Rep(d.larger)[m];
      }
      assert k in Leaves(side);
    }
  }

  /** The first bits of a node's prefix that a new key shares stay as they are. */
  ghost predicate Kept(d: Digest, e: Digest, key: Bits) {
    forall j: nat :: j <= StoredMask(d) && Agree(key, Rep(d), j) ==> j <= StoredMask(e) && Agree(Rep(e), Rep(d), j)
  }

  lemma ChildReplaced(d: Digest, onLarger: bool, c: Digest, key: Bits, n: nat)
    requires Trie(d, n) && d.Inner? && |key| == n && Agree(key, Rep(d), Mask(d)) && key[Mask(d)] == onLarger
    requires Trie(c, n) && Kept(if onLarger then d.larger else d.smaller, c, key)
    ensures var e := if onLarger then Inner(d.smaller, c) else Inner(c, d.larger);
            Trie(e, n) && Kept(d, e, key)
  {
    var o, m := if onLarger then d.larger else d.smaller, Mask(d);
    assert Agree(key, Rep(o), m + 1);
    assert Agree(Rep(c), Rep(o), m + 1) && m + 1 <= StoredMask(c);
    var e := if onLarger then Inner(d.smaller, c) else Inner(c, d.larger);
    assert Agree(Rep(e.smaller), Rep(e.larger), m) && Rep(e.smaller)[m] != Rep(e.larger)[m];
    CommonPrefixAtLeast(Rep(e.smaller), Rep(e.larger), m);
    assert Mask(e) == m;
  }

  lemma SplitKeeps(d: Digest, key: Bits, n: nat)
    requires Trie(d, n) && |key| == n && !Agree(key, Rep(d), StoredMask(d))
    requires CommonPrefix(Rep(d), key) < |key|
    ensures Kept(d, SplitNode(d, key), key)
  {
    var e := SplitNode(d, key);
    CommonPrefixSymmetric(Rep(d), key);
    forall j: nat | j <= StoredMask(d) && Agree(key, Rep(d), j)
      ensures j <= StoredMask(e) && Agree(Rep(e), Rep(d), j)
    {
      CommonPrefixAtLeast(Rep(d), key, j);
    }
  }

  /** What is claimed of an insertion: it inserts exactly if the key does not clash with one of the
    trie; if it does, a hash of less than 256 bits is a duplicate, and with a wider one the insertion
    throws. */
  ghost predicate AsClaimed(d: Digest, key: Bits, n: nat, r: Insertion)
    requires Trie(d, n)
  {
    && (r.Inserted? <==> !Clashes(d, key, n))
    && (r.Inserted? ==> Trie(r.d, n) && Leaves(r.d) == Leaves(d) + {key} && Kept(d, r.d, key))
    && (!r.Inserted? ==> if n < 256 then r == Duplicate && key in Leaves(d) else r == Throws)
  }

  lemma {:induction false} InsertBelowIff(d: Digest, key: Bits, n: nat)
    requires Trie(d, n) && |key| == n
    ensures AsClaimed(d, key, n, InsertBelow(d, key, n))
  {
    if !Agree(key, Rep(d), StoredMask(d)) {
      SplitClashes(d, key, n);
      SplitKeeps(d, key, n);
    } else if d.LeafKey? {
      LeafClashes(d, key, n);
    } else {
      InsertBelowIff(if key[Mask(d)] then d.larger else d.smaller, key, n);
      InsertedBelow(d, key, n);
    }
  }

  lemma LeafClashes(d: Digest, key: Bits, n: nat)
    requires Trie(d, n) && |key| == n && d.LeafKey? && Agree(key, Rep(d), StoredMask(d))
    ensures AsClaimed(d, key, n, InsertBelow(d, key, n))
  {
    assert Agree(d.bits, key, n % 256);
    if n < 256 {
      assert d.bits == key;
    }
  }

  lemma InsertedBelow(d: Digest, key: Bits, n: nat)
    requires Trie(d, n) && |key| == n && d.Inner? && Agree(key, Rep(d), StoredMask(d))
    requires var side := if key[Mask(d)] then d.larger else d.smaller;
             AsClaimed(side, key, n, InsertBelow(side, key, n))
    ensures AsClaimed(d, key, n, InsertBelow(d, key, n))
  {
    var onLarger := key[Mask(d)];
    var below := InsertBelow(if onLarger then d.larger else d.smaller, key, n);
    SideClashes(d, key, n);
    BelowChild(d, key, n);
    if below.Inserted? {
      ChildReplaced(d, onLarger, below.d, key, n);
    }
    ClaimLifted(d, onLarger, key, n, below);
  }

  lemma ClaimLifted(d: Digest, onLarger: bool, key: Bits, n: nat, below: Insertion)
    requires Trie(d, n) && d.Inner?
    requires var side := if onLarger then d.larger else d.smaller;
             AsClaimed(side, key, n, below) && (Clashes(d, key, n) <==> Clashes(side, key, n))
    requires below.Inserted? ==>
               var e := if onLarger then Inner(d.smaller, below.d) else Inner(below.d, d.larger);
               Trie(e, n) && Kept(d, e, key)
    ensures AsClaimed(d, key, n,
              if below.Inserted? then
                Inserted(if onLarger then Inner(d.smaller, below.d) else Inner(below.d, d.larger))
              else below)
  {
    hide Clashes, Kept, Agree, CommonPrefix, Rep, Mask, StoredMask;
  }

  lemma BelowChild(d: Digest, key: Bits, n: nat)
    requires Trie(d, n) && |key| == n && d.Inner? && Agree(key, Rep(d), StoredMask(d))
    ensures var below := InsertBelow(if key[Mask(d)] then d.larger else d.smaller, key, n);
            InsertBelow(d, key, n) ==
              if below.Inserted? then
                Inserted(if key[Mask(d)] then Inner(d.smaller, below.d) else Inner(below.d, d.larger))
              else below
  {
  }

  /** Whether an addition is what it should be: set insertion, with the right answer, in an orderly trie. */
  ghost predicate Inserts(s: State, key: Bits, s': State, added: bool) {
    KeysOf(s'.root) == KeysOf(s.root) + {key} && (added <==> key !in KeysOf(s.root)) && InOrder(s')
  }

  /** An addition to an orderly trie is what it should be exactly for hashes of less than 256 bits or
    keys that do not clash.  Otherwise the key becomes the only one of the trie, though all others
    keep their records, and the counter counts on. */
  lemma AddIff(s: State, key: Bits, n: nat)
    requires |key| == n && Proper(s, n) && InOrder(s)
    ensures var (s', added) := Add(s, key, n);
            && s'.root.Some? && Proper(s', n)
            && (Inserts(s, key, s', added) <==> n < 256 || s.root.None? || !Clashes(s.root.value, key, n))
            && (n >= 256 && s.root.Some? && Clashes(s.root.value, key, n) ==>
                  s' == State(Some(LeafKey(key)), s.stored + {LeafKey(key)}, s.size + 1) && added)
  {
    if s.root.Some? {
      var d := s.root.value;
      InsertBelowIff(d, key, n);
      if key in Leaves(d) {
        OwnClash(d, key, n);
      }
      hide Clashes, Agree, InsertBelow, Trie, Kept;
      AddAsClaimed(s, key, n, InsertBelow(d, key, n));
    }
  }

  /** What becomes of the store and the counter. */
  lemma AddAsClaimed(s: State, key: Bits, n: nat, r: Insertion)
    requires |key| == n && s.root.Some? && Trie(s.root.value, n) && InOrder(s) && AsClaimed(s.root.value, key, n, r)
    requires r == InsertBelow(s.root.value, key, n) && (key in Leaves(s.root.value) ==> Clashes(s.root.value, key, n))
    ensures var (s', added) := Add(s, key, n);
            && s'.root.Some? && Proper(s', n)
            && (Inserts(s, key, s', added) <==> n < 256 || !Clashes(s.root.value, key, n))
  {
    var d := s.root.value;
    assert Trie(LeafKey(key), n);
    hide Clashes, Agree, InsertBelow, Trie, Kept;
    match r
    case Duplicate =>
      assert Leaves(d) + {key} == Leaves(d);
    case Throws =>
    case Inserted(e) =>
      assert Nodes(d) + Nodes(e) - (Nodes(d) - Nodes(e)) == Nodes(e);
  }

  lemma OwnClash(d: Digest, key: Bits, n: nat)
    requires |key| == n && key in Leaves(d)
    ensures Clashes(d, key, n)
  {
    assert Agree(key, key, n % 256);
  }

  // ----- hashes of 256 and 512 bits

  /** With 256 or 512 bits every key clashes: a trie never holds more than the last key added. */
  lemma AllClash(s: State, key: Bits, n: nat)
    requires Proper(s, n) && |key| == n >= 256 && n % 256 == 0
    ensures Add(s, key, n) == (State(Some(LeafKey(key)), s.stored + {LeafKey(key)}, s.size + 1), true)
  {
    if s.root.Some? {
      var d := s.root.value;
      RepIsLeaf(d);
      assert Agree(Rep(d), key, 0);
      InsertBelowIff(d, key, n);
    }
  }

  /** So every record is one of a leaf without a parent. */
  ghost predicate Flat(s: State) {
    (forall d :: d in s.stored ==> d.LeafKey?) && (s.root.Some? ==> s.root.value in s.stored)
  }

  /** Removing a key then: a leaf without a parent is taken for the root. */
  function Remove(s: State, key: Bits): (State, bool) {
    if s.root.None? then (s, false)
    else
      var removed := LeafKey(key) in s.stored;
      var s' := if removed then State(None, s.stored - {LeafKey(key)}, if s.size > 0 then s.size - 1 else 0) else s;
      (if s'.size == 0 then State(None, {}, 0) else s', removed)
  }

  function AddAll(keys: seq<Bits>): State {
    if keys == [] then State(None, {}, 0)
    else State(Some(LeafKey(keys[|keys|-1])), AddAll(keys[..|keys|-1]).stored + {LeafKey(keys[|keys|-1])}, |keys|)
  }

  /** After any additions from an empty trie the flat lookup finds every key ever added, the root is
    the last one, and the size is the number of additions, repeated ones as well. */
  lemma {:induction false} Additions(keys: seq<Bits>, n: nat, k: Bits)
    requires n >= 256 && n % 256 == 0 && forall key :: key in keys ==> |key| == n
    ensures var s := AddAll(keys);
            && Proper(s, n) && Flat(s) && s.size == |keys|
            && (LeafKey(k) in s.stored <==> k in keys)
    ensures keys != [] ==>
              AddAll(keys) == Add(AddAll(keys[..|keys|-1]), keys[|keys|-1], n).0
  {
    if keys != [] {
      var init, last := keys[..|keys|-1], keys[|keys|-1];
      assert last in keys && keys == init + [last];
      hide Proper, Flat, Add;
      Additions(init, n, k);
      AllClash(AddAll(init), last, n);
      LeafAdded(AddAll(init), last, n);
    }
  }

  lemma LeafAdded(s: State, key: Bits, n: nat)
    requires |key| == n && Flat(s)
    ensures var s' := State(Some(LeafKey(key)), s.stored + {LeafKey(key)}, s.size + 1); Proper(s', n) && Flat(s')
  {
    assert Trie(LeafKey(key), n);
  }

  /** Removing any key that was ever added empties the trie of its last key too: then no root is left,
    and the size is wrong unless there was one addition only.  Any other removal changes nothing. */
  lemma RemovalAfterAdditions(keys: seq<Bits>, n: nat, k: Bits)
    requires n >= 256 && n % 256 == 0 && (forall key :: key in keys ==> |key| == n)
    ensures var (s, removed) := Remove(AddAll(keys), k);
            && (removed <==> k in keys)
            && (removed ==> s.root == None && s.size == |keys| - 1)
            && (!removed ==> s == AddAll(keys))
  {
    Additions(keys, n, k);
  }

  /** For narrow hashes these are the tries of the class. */
  lemma {:induction false} NarrowTries(d: Digest, n: nat)
    requires n < 256
    ensures Trie(d, n) <==> Patricia(d, n)
  {
    if d.Inner? {
      NarrowTries(d.smaller, n);
      NarrowTries(d.larger, n);
      LeafMasks(d.smaller, n);
      LeafMasks(d.larger, n);
    }
  }

  lemma LeafMasks(d: Digest, n: nat)
    requires n < 256
    ensures Trie(d, n) || Patricia(d, n) ==> StoredMask(d) == Mask(d)
  {
  }
}
