/** The key-value trie: insertion and removal by editing flat records and rehashing ancestors. */
module KeyValueTries {
  import opened Digests
  import opened TrieStore
  import opened Wrappers

  datatype TrieNodeType = NOT_FOUND | LEAF_NODE | INNER_NODE

  /** A node held in memory, copied by value: its digest and the record to be stored under it. */
  datatype TrieNode = TrieNode(hash: Digest, r: Record) {
    function SetParent(q: TrieNode): TrieNode {
      this.(r := r.(hasParent := true, parent := q.hash))
    }

    function SetChildren(s: TrieNode, l: TrieNode): TrieNode {
      this.(r := r.(hasChildren := true, smaller := s.hash, larger := l.hash, dirty := true))
    }

    function SetSmaller(s: TrieNode): TrieNode
      requires r.hasChildren
    {
      this.(r := r.(smaller := s.hash, dirty := true))
    }

    function SetLarger(l: TrieNode): TrieNode
      requires r.hasChildren
    {
      this.(r := r.(larger := l.hash, dirty := true))
    }

    /** The hash of an inner node is the hash of its children's hashes. */
    function UpdateHash(): TrieNode {
      if r.hasChildren then TrieNode(Inner(r.smaller, r.larger), r.(dirty := false)) else this
    }

    predicate IsEqualToSmaller(c: TrieNode) {
      c.hash == r.smaller
    }

    predicate IsEqualToLarger(c: TrieNode) {
      c.hash == r.larger
    }

    predicate IsSmaller(c: TrieNode, n: nat)
      requires r.mask != n ==> r.mask < |c.r.prefix|
    {
      if r.mask == n then false else !c.r.prefix[r.mask]
    }

    predicate IsLarger(c: TrieNode, n: nat)
      requires r.mask != n ==> r.mask < |c.r.prefix|
    {
      if r.mask == n then false else c.r.prefix[r.mask]
    }

    /** The first mask bits of this node's prefix are those of the other node. */
    method Similar(node: TrieNode) returns (same: bool)
      requires r.mask <= |r.prefix| && r.mask <= |node.r.prefix|
      ensures same <==> Agree(r.prefix, node.r.prefix, r.mask)
    {
      for i := 0 to r.mask
        invariant Agree(r.prefix, node.r.prefix, i)
      {
        if r.prefix[i] != node.r.prefix[i] {
          return false;
        }
      }
      return true;
    }

    method CommonPrefixSize(other: TrieNode, n: nat) returns (common: nat)
      requires |r.prefix| == n && |other.r.prefix| == n
      ensures common == CommonPrefix(r.prefix, other.r.prefix)
    {
      common := 0;
      for i := 0 to n
        invariant common == i && Agree(r.prefix, other.r.prefix, i)
      {
        if r.prefix[i] != other.r.prefix[i] {
          break;
        }
        common := common + 1;
      }
      CommonPrefixAtLeast(r.prefix, other.r.prefix, common);
    }
  }

  function Hashes(v: seq<TrieNode>): set<Digest> {
    set i | 0 <= i < |v| :: v[i].hash
  }

  lemma HashesEmpty()
    ensures Hashes([]) == {}
  {
  }

  lemma HashesOfTwo(a: TrieNode, b: TrieNode)
    ensures Hashes([a, b]) == {a.hash, b.hash}
  {
    assert [a, b][0] == a && [a, b][1] == b;
  }

  lemma HashesPush(v: seq<TrieNode>, x: TrieNode)
    ensures Hashes(v + [x]) == Hashes(v) + {x.hash}
  {
    assert (v + [x])[|v|] == x;
    forall i | 0 <= i < |v|
      ensures v[i].hash in Hashes(v + [x])
    {
      assert (v + [x])[i] == v[i];
    }
  }

  /** A freshly made leaf. */
  ghost predicate NewLeaf(node: TrieNode, k: Bits, n: nat) {
    && node.hash == LeafKey(k) && |k| == n
    && node.r.prefix == k && node.r.mask == n
    && !node.r.hasChildren && !node.r.hasParent && !node.r.dirty
  }

  // ----- splitting a node

  /** The new inner node over a node and a leaf that leaves its prefix. */
  function SplitNode(o: Digest, k: Bits): Digest
    requires CommonPrefix(Rep(o), k) < |k|
  {
    if k[CommonPrefix(Rep(o), k)] then Inner(o, LeafKey(k)) else Inner(LeafKey(k), o)
  }

  /** The bits of k that lead to the child o of a node are those of the keys below o. */
  ghost predicate LeadsTo(s: Digest, onLarger: bool, o: Digest, k: Bits, n: nat) {
    var m := Mask(Join(s, onLarger, o));
    m < Mask(o) && m < n && |k| == n && |Rep(o)| == n && Agree(k, Rep(o), m + 1)
  }

  /** The search for k has come down the path to o. */
  ghost predicate Searching(p: Path, o: Digest, k: Bits, n: nat) {
    && |k| == n && k !in SiblingLeaves(p)
    && (p.Up? ==> LeadsTo(p.sibling, p.onLarger, o, k, n))
  }

  lemma LeadsToChild(o: Digest, k: Bits, n: nat)
    requires Patricia(o, n) && o.Inner? && |k| == n && Agree(k, Rep(o), Mask(o))
    ensures k[Mask(o)] ==> LeadsTo(o.smaller, true, o.larger, k, n)
    ensures !k[Mask(o)] ==> LeadsTo(o.larger, false, o.smaller, k, n)
  {
  }

  lemma SearchDown(p: Path, o: Digest, k: Bits, n: nat)
    requires Patricia(o, n) && o.Inner? && Searching(p, o, k, n)
    requires Agree(k, Rep(o), Mask(o))
    ensures Mask(o) < n
    ensures k[Mask(o)] ==> Searching(Up(o.smaller, true, p), o.larger, k, n)
    ensures !k[Mask(o)] ==> Searching(Up(o.larger, false, p), o.smaller, k, n)
  {
    LeadsToChild(o, k, n);
    if k in Leaves(o) {
      SideOfLeaf(o, n, k);
    }
  }

  lemma SplitPrefix(o: Digest, k: Bits, n: nat)
    requires Patricia(o, n) && |k| == n && !Agree(k, Rep(o), Mask(o))
    ensures k !in Leaves(o)
    ensures CommonPrefix(Rep(o), k) < Mask(o) <= n
  {
    if k in Leaves(o) {
      LeavesAgree(o, n, k);
    }
    var m := CommonPrefix(Rep(o), k);
    if m >= Mask(o) {
      assert Agree(k, Rep(o), Mask(o));
    }
  }

  lemma CommonPrefixSymmetric(a: Bits, b: Bits)
    ensures CommonPrefix(a, b) == CommonPrefix(b, a)
  {
    CommonPrefixAtLeast(a, b, CommonPrefix(b, a));
    CommonPrefixAtLeast(b, a, CommonPrefix(a, b));
  }

  lemma SplitNodePatricia(o: Digest, k: Bits, n: nat)
    requires Patricia(o, n) && |k| == n && CommonPrefix(Rep(o), k) < Mask(o)
    ensures Patricia(SplitNode(o, k), n)
    ensures Mask(SplitNode(o, k)) == CommonPrefix(Rep(o), k)
    ensures Leaves(SplitNode(o, k)) == Leaves(o) + {k}
    ensures Agree(Rep(SplitNode(o, k)), Rep(o), CommonPrefix(Rep(o), k))
  {
    CommonPrefixSymmetric(Rep(o), k);
  }

  lemma SplitIsPatricia(p: Path, o: Digest, k: Bits, n: nat)
    requires Patricia(Plug(p, o), n) && Patricia(o, n) && Searching(p, o, k, n)
    requires k !in Leaves(o) && CommonPrefix(Rep(o), k) < Mask(o)
    ensures OneKeyApart(p, o, SplitNode(o, k), k, n)
  {
    SplitNodePatricia(o, k, n);
    if p.Up? {
      SplitFits(p.sibling, p.onLarger, o, k, n);
    }
    hide CommonPrefix, Mask, Rep, Patricia, FitsBeside;
    ReplaceKeepsPatricia(p, o, SplitNode(o, k), n);
  }

  lemma SplitFits(s: Digest, onLarger: bool, o: Digest, k: Bits, n: nat)
    requires LeadsTo(s, onLarger, o, k, n) && CommonPrefix(Rep(o), k) < Mask(o)
    requires Mask(SplitNode(o, k)) == CommonPrefix(Rep(o), k) && |Rep(SplitNode(o, k))| == n
    requires Agree(Rep(SplitNode(o, k)), Rep(o), CommonPrefix(Rep(o), k))
    ensures FitsBeside(s, onLarger, o, SplitNode(o, k), n)
  {
    CommonPrefixAtLeast(Rep(o), k, Mask(Join(s, onLarger, o)) + 1);
    hide CommonPrefix;
  }

  /** Bits of a stored prefix past the mask play no part in a split. */
  lemma StoredPrefixSplits(o: Digest, prefix: Bits, k: Bits, n: nat)
    requires |prefix| == n && |k| == n && |Rep(o)| == n && Mask(o) <= n
    requires Agree(prefix, Rep(o), Mask(o)) && !Agree(prefix, k, Mask(o))
    ensures CommonPrefix(prefix, k) == CommonPrefix(Rep(o), k) < Mask(o)
  {
    var m := CommonPrefix(prefix, k);
    assert m < Mask(o);
    CommonPrefixAtLeast(Rep(o), k, m);
  }

  lemma SplitNodesAreNew(p: Path, o: Digest, k: Bits)
    requires k !in Leaves(o) && k !in SiblingLeaves(p) && CommonPrefix(Rep(o), k) < |k|
    ensures LeafKey(k) !in Nodes(Plug(p, o)) && SplitNode(o, k) !in Nodes(Plug(p, o))
    ensures k !in Leaves(Plug(p, o)) && Nodes(o) <= Nodes(Plug(p, o))
    ensures Nodes(SplitNode(o, k)) == {SplitNode(o, k), LeafKey(k)} + Nodes(o)
    ensures Leaves(Plug(p, SplitNode(o, k))) == Leaves(Plug(p, o)) + {k}
  {
    hide CommonPrefix;
    var d, c := Plug(p, o), SplitNode(o, k);
    PlugParts(p, o);
    PlugParts(p, c);
    LeafNodes(d, k);
    assert k in Leaves(c);
    if c in Nodes(d) {
      NodesBelow(d, c);
    }
  }

  /** What the split writes: the leaf and the split node, both linked to the new inner node c. */
  ghost predicate SplitWritten(o: Digest, leaf: Digest, c: Digest, st: Store, st': Store, n: nat) {
    && leaf in st' && RecordOk(leaf, Some(c), st'[leaf], n)
    && o in st && o in st' && st'[o] == st[o].(hasParent := true, parent := c)
    && forall x :: x in st && x != leaf && x != o && x != c ==> x in st' && st'[x] == st[x]
  }

  lemma SplitStored(p: Path, o: Digest, k: Bits, st: Store, st': Store, n: nat)
    requires Stored(o, ParentOf(p, o), st, n) && PathStored(p, o, st, n)
    requires CommonPrefix(Rep(o), k) < |k| && OneKeyApart(p, o, SplitNode(o, k), k, n)
    requires k !in Leaves(o)
    requires SplitWritten(o, LeafKey(k), SplitNode(o, k), st, st', n)
    ensures Climbing(p, o, SplitNode(o, k), k, st', n)
  {
    hide Patricia, CommonPrefix, Mask, Rep;
    var c, leaf := SplitNode(o, k), LeafKey(k);
    SplitNodesAreNew(p, o, k);
    PathBesideSplit(p, o, k, st, st', n);
    Reparented(o, ParentOf(p, o), c, st, st', n);
    assert Stored(leaf, Some(c), st', n) by {
      assert Below(leaf, st', n);
    }
    assert Below(c, st', n);
  }

  lemma PathBesideSplit(p: Path, o: Digest, k: Bits, st: Store, st': Store, n: nat)
    requires PathStored(p, o, st, n) && Patricia(Plug(p, o), n) && o in st
    requires k !in Leaves(o) && k !in SiblingLeaves(p) && CommonPrefix(Rep(o), k) < |k|
    requires SplitWritten(o, LeafKey(k), SplitNode(o, k), st, st', n)
    ensures PathStored(p, o, st', n)
  {
    hide Patricia, CommonPrefix, Mask, Rep;
    SplitNodesAreNew(p, o, k);
    PlugParts(p, o);
    PathDisjoint(p, o, n);
    var x :| x in Leaves(o);
    assert o !in Ancestors(p, o) && o !in SiblingNodes(p);
    PathFrame(p, o, st, st', n);
  }

  // ----- the end of a climb

  /** The nodes that a replacement takes out of the trie. */
  function Replaced(p: Path, o: Digest, c: Digest): set<Digest> {
    Ancestors(p, o) + (Nodes(o) - Nodes(c))
  }

  lemma ReplacedGone(p: Path, o: Digest, c: Digest, k: Bits, n: nat)
    requires OneKeyApart(p, o, c, k, n)
    ensures Replaced(p, o, c) !! Nodes(Plug(p, c))
    ensures Nodes(Plug(p, o)) + Nodes(Plug(p, c)) - Replaced(p, o, c) == Nodes(Plug(p, c))
  {
    hide Patricia, CommonPrefix, Mask, Rep, Plug;
    PathDisjoint(p, o, n);
    PathDisjoint(p, c, n);
    PlugParts(p, o);
    PlugParts(p, c);
    AncestorKeys(p, o);
    AncestorKeys(p, c);
    forall x | x in Nodes(c)
      ensures x !in Ancestors(p, o)
    {
      NodesBelow(c, x);
    }
    forall x | x in Nodes(o)
      ensures x !in Ancestors(p, c) && x !in SiblingNodes(p)
    {
      NodesBelow(o, x);
      var l :| l in Leaves(x);
      assert l !in SiblingLeaves(p);
    }
    forall x | x in SiblingNodes(p)
      ensures x !in Ancestors(p, o)
    {
      var l :| l in Leaves(o);
      assert l !in SiblingLeaves(p);
    }
    forall x | x in Ancestors(p, c)
      ensures x !in Ancestors(p, o)
    {
      assert k in Leaves(x) <==> k in Leaves(c);
    }
  }

  /** A leaf on both sides of a replacement pins the branch bit of the parent. */
  lemma MaskKept(s: Digest, onLarger: bool, o: Digest, c: Digest, l: Bits, n: nat)
    requires Patricia(Join(s, onLarger, o), n) && Patricia(Join(s, onLarger, c), n)
    requires l in Leaves(o) && l in Leaves(c)
    ensures Mask(Join(s, onLarger, o)) == Mask(Join(s, onLarger, c)) < n
    ensures Agree(Rep(Join(s, onLarger, o)), Rep(Join(s, onLarger, c)), Mask(Join(s, onLarger, c)))
  {
    var q0, q := Join(s, onLarger, o), Join(s, onLarger, c);
    var m0, m := Mask(q0), Mask(q);
    LeavesAgree(o, n, l);
    LeavesAgree(c, n, l);
    assert Agree(l, Rep(s), m0) && l[m0] != Rep(s)[m0];
    assert Agree(l, Rep(s), m) && l[m] != Rep(s)[m];
  }

  /** Everything one round of the climb reads and writes, and where it leads. */
  lemma ClimbFacts(p: Path, o: Digest, c: Digest, k: Bits, st: Store, n: nat)
    requires p.Up? && Climbing(p, o, c, k, st, n)
    ensures var s, rest := p.sibling, p.rest;
            var q0, q := Join(s, p.onLarger, o), Join(s, p.onLarger, c);
            && Plug(rest, q0) == Plug(p, o) && Plug(rest, q) == Plug(p, c)
            && s != o && s != c && q !in {s, c}
            && q0 in st && RecordOk(q0, ParentOf(rest, q0), st[q0], n)
            && s in st && RecordOk(s, Some(q0), st[s], n)
            && RecordOk(q, ParentOf(rest, q0), st[q0].(smaller := q.smaller, larger := q.larger), n)
            && Nodes(q) == {q} + Nodes(c) + Nodes(s)
            && Nodes(s) <= Nodes(Plug(p, o)) && q0 in Nodes(Plug(p, o))
            && Ancestors(p, o) == {q0} + Ancestors(rest, q0)
  {
    hide CommonPrefix, Ancestors;
    var s, rest := p.sibling, p.rest;
    var q0, q := Join(s, p.onLarger, o), Join(s, p.onLarger, c);
    PatriciaInPlug(rest, q0, n);
    PatriciaInPlug(rest, q, n);
    ClimbNodes(p, o, c, n);
    var l := SharedLeaf(o, c, k);
    MaskKept(s, p.onLarger, o, c, l, n);
  }

  lemma SharedLeaf(o: Digest, c: Digest, k: Bits) returns (l: Bits)
    requires (k in Leaves(c) <==> k !in Leaves(o)) && Leaves(c) <= Leaves(o) + {k} && Leaves(o) <= Leaves(c) + {k}
    ensures l in Leaves(o) && l in Leaves(c)
  {
    if k in Leaves(o) {
      l :| l in Leaves(c);
    } else {
      l :| l in Leaves(o);
    }
  }

  lemma ClimbNodes(p: Path, o: Digest, c: Digest, n: nat)
    requires p.Up?
    requires Patricia(Join(p.sibling, p.onLarger, o), n) && Patricia(Join(p.sibling, p.onLarger, c), n)
    ensures var s, rest := p.sibling, p.rest;
            var q0, q := Join(s, p.onLarger, o), Join(s, p.onLarger, c);
            && s != o && s != c && q !in {s, c}
            && Nodes(q) == {q} + Nodes(c) + Nodes(s)
            && Nodes(s) <= Nodes(Plug(p, o)) && q0 in Nodes(Plug(p, o))
            && Ancestors(p, o) == {q0} + Ancestors(rest, q0)
  {
    hide CommonPrefix;
    ChildrenDisjoint(Join(p.sibling, p.onLarger, o), n);
    ChildrenDisjoint(Join(p.sibling, p.onLarger, c), n);
    SubtreesDisjoint(Join(p.sibling, p.onLarger, c), n);
    PlugParts(p, o);
  }

  /** The final store of a split, before the climb. */
  lemma SplitDone(p: Path, o: Digest, k: Bits, st: Store, st': Store, leaf: Record, old_: Record, inner: Record, n: nat)
    requires WellFormed(Plug(p, o), st, n) && Searching(p, o, k, n) && !Agree(k, Rep(o), Mask(o))
    requires CommonPrefix(Rep(o), k) < |k|
    requires var c := SplitNode(o, k);
             && RecordOk(LeafKey(k), Some(c), leaf, n)
             && o in st && old_ == st[o].(hasParent := true, parent := c)
             && var written := st[LeafKey(k) := leaf][o := old_];
                (st' == if p.Up? then written else written[c := inner])
    ensures Climbing(p, o, SplitNode(o, k), k, st', n)
    ensures st'.Keys + {SplitNode(o, k)} == Nodes(Plug(p, o)) + Nodes(SplitNode(o, k))
    ensures Nodes(o) <= Nodes(SplitNode(o, k)) && o in st'
    ensures p.Top? ==> SplitNode(o, k) in st' && st'[SplitNode(o, k)] == inner
  {
    hide CommonPrefix, Patricia, Leaves, Nodes, Stored, PathStored, Plug, Mask, Rep, RecordOk, OneKeyApart, Climbing;
    AtNode(p, o, k, st, n);
    SplitReady(p, o, k, n);
    var c := SplitNode(o, k);
    assert SplitWritten(o, LeafKey(k), c, st, st', n);
    SplitStored(p, o, k, st, st', n);
  }

  lemma ClimbedToTop(o: Digest, c: Digest, k: Bits, st: Store, n: nat)
    requires Climbing(Top, o, c, k, st, n) && c in st && RecordOk(c, None, st[c], n)
    ensures Stored(c, None, st, n) && Plug(Top, c) == c && Ancestors(Top, o) == {}
  {
  }

  lemma ClimbFinished(p: Path, o: Digest, c: Digest, st: Store, st': Store, k: Bits, n: nat)
    requires OneKeyApart(p, o, c, k, n)
    requires Stored(Plug(p, c), None, st, n)
    requires st.Keys == Nodes(Plug(p, o)) + Nodes(Plug(p, c))
    requires st' == st - Replaced(p, o, c)
    ensures WellFormed(Plug(p, c), st', n)
  {
    ReplacedGone(p, o, c, k, n);
    StoredFrame(Plug(p, c), None, st, st', n);
  }

  /** What an insertion finds at a node on its way down. */
  lemma AtNode(p: Path, o: Digest, k: Bits, st: Store, n: nat)
    requires WellFormed(Plug(p, o), st, n) && Searching(p, o, k, n)
    ensures Patricia(Plug(p, o), n) && Patricia(o, n)
    ensures Stored(o, ParentOf(p, o), st, n) && PathStored(p, o, st, n)
    ensures o in st && RecordOk(o, ParentOf(p, o), st[o], n) && Mask(o) <= n
    ensures o.LeafKey? ==> Mask(o) == n
    ensures o.LeafKey? && Agree(k, Rep(o), Mask(o)) ==> k in Leaves(Plug(p, o))
    ensures o.Inner? ==> Mask(o) < n && o.smaller in st && o.larger in st
    ensures o.Inner? && Agree(k, Rep(o), Mask(o)) ==>
              if k[Mask(o)] then Searching(Up(o.smaller, true, p), o.larger, k, n)
              else Searching(Up(o.larger, false, p), o.smaller, k, n)
    ensures o.Inner? ==> Plug(Up(o.smaller, true, p), o.larger) == Plug(p, o) == Plug(Up(o.larger, false, p), o.smaller)
  {
    hide CommonPrefix, Leaves, Nodes;
    PlugStored(p, o, st, n);
    PatriciaInPlug(p, o, n);
    if o.Inner? {
      StoredChildren(o, ParentOf(p, o), st, n);
    }
    if Agree(k, Rep(o), Mask(o)) {
      if o.Inner? {
        SearchDown(p, o, k, n);
      } else {
        LeafFound(p, o, k);
      }
    }
  }

  lemma LeafFound(p: Path, o: Digest, k: Bits)
    requires o.LeafKey? && |k| == |o.bits| && Agree(k, o.bits, |k|)
    ensures k in Leaves(Plug(p, o))
  {
    assert k == o.bits;
    PlugParts(p, o);
  }

  /** What a split needs to know about the node it splits. */
  lemma SplitReady(p: Path, o: Digest, k: Bits, n: nat)
    requires Patricia(Plug(p, o), n) && Patricia(o, n) && Searching(p, o, k, n)
    requires !Agree(k, Rep(o), Mask(o))
    ensures CommonPrefix(Rep(o), k) < Mask(o) <= n && |k| == n
    ensures k !in Leaves(o) && k !in Leaves(Plug(p, o))
    ensures var c := SplitNode(o, k);
            && OneKeyApart(p, o, c, k, n)
            && Nodes(c) == {c, LeafKey(k)} + Nodes(o)
            && Leaves(Plug(p, c)) == Leaves(Plug(p, o)) + {k}
            && c !in Nodes(Plug(p, o)) && LeafKey(k) !in Nodes(Plug(p, o))
            && Nodes(o) <= Nodes(Plug(p, o))
  {
    hide CommonPrefix, Patricia, Nodes, Leaves, Plug, Rep, Mask, SiblingLeaves;
    SplitPrefix(o, k, n);
    SplitIsPatricia(p, o, k, n);
    SplitNodesAreNew(p, o, k);
  }

  /** The records a split writes are right. */
  lemma SplitRecords(p: Path, o: Digest, k: Bits, r: Record, node: TrieNode, n: nat)
    requires Patricia(o, n) && |k| == n && NewLeaf(node, k, n) && !Agree(k, Rep(o), Mask(o))
    requires RecordOk(o, ParentOf(p, o), r, n) && CommonPrefix(Rep(o), k) < Mask(o) <= n
    ensures CommonPrefix(r.prefix, k) == CommonPrefix(Rep(o), k)
    ensures |r.prefix| == n && (r.hasParent <==> p.Up?)
    ensures var c := SplitNode(o, k);
            && RecordOk(c, ParentOf(p, o), r.(mask := CommonPrefix(r.prefix, k), hasChildren := true,
                          smaller := c.smaller, larger := c.larger, dirty := false), n)
            && RecordOk(LeafKey(k), Some(c), node.r.(hasParent := true, parent := c), n)
  {
    NewLeafRecord(node, k, SplitNode(o, k), n);
    hide CommonPrefix, Patricia, Nodes, Leaves, Rep, Mask, Agree;
    StoredPrefixSplits(o, r.prefix, k, n);
    SplitNodePatricia(o, k, n);
    PrefixOfSplit(o, r.prefix, k, n);
  }

  lemma NewLeafRecord(node: TrieNode, k: Bits, c: Digest, n: nat)
    requires |k| == n && NewLeaf(node, k, n)
    ensures RecordOk(LeafKey(k), Some(c), node.r.(hasParent := true, parent := c), n)
  {
  }

  /** The old node's prefix serves for the split node. */
  lemma PrefixOfSplit(o: Digest, prefix: Bits, k: Bits, n: nat)
    requires Patricia(o, n) && |k| == |prefix| == n && CommonPrefix(Rep(o), k) < Mask(o)
    requires Agree(prefix, Rep(o), Mask(o))
    ensures Agree(prefix, Rep(SplitNode(o, k)), CommonPrefix(Rep(o), k))
  {
  }

  /** The state of a climb that replaces o by c below the path p and has come up to the path up,
    with the digests in gone waiting to be deleted. */
  ghost predicate Rehashing(p: Path, o: Digest, c: Digest, k: Bits, up: Path, oldchild: TrieNode, child: TrieNode,
                            par: Option<Digest>, st: Store, gone: set<Digest>, n: nat)
  {
    && Plug(up, oldchild.hash) == Plug(p, o) && Plug(up, child.hash) == Plug(p, c)
    && Climbing(up, oldchild.hash, child.hash, k, st, n) && oldchild.hash in st
    && (oldchild.r.hasParent <==> up.Up?)
    && RecordOk(oldchild.hash, ParentOf(up, oldchild.hash), oldchild.r, n)
    && RecordOk(child.hash, par, child.r, n)
    && st.Keys + {child.hash} == Nodes(Plug(p, o)) + Nodes(child.hash)
    && (up.Top? ==> par == None && child.hash in st && st[child.hash] == child.r)
    && gone + Ancestors(up, oldchild.hash) == Ancestors(p, o)
  }

  /** What one round of a climb gives back. */
  ghost predicate RoundDone(up: Path, oldchild: TrieNode, child: TrieNode, oldparent: TrieNode, parent: TrieNode,
                            k: Bits, st: Store, st': Store, n: nat)
    requires up.Up?
  {
    && oldparent.hash == Join(up.sibling, up.onLarger, oldchild.hash)
    && parent.hash == Join(up.sibling, up.onLarger, child.hash)
    && RecordOk(oldparent.hash, ParentOf(up.rest, oldparent.hash), oldparent.r, n)
    && RecordOk(parent.hash, ParentOf(up.rest, oldparent.hash), parent.r, n)
    && st'.Keys == st.Keys + {child.hash, parent.hash} && st'[parent.hash] == parent.r
    && oldparent.hash in st
    && Climbing(up.rest, oldparent.hash, parent.hash, k, st', n)
  }

  lemma RehashingStep(p: Path, o: Digest, c: Digest, k: Bits, up: Path, oldchild: TrieNode, child: TrieNode,
                      par: Option<Digest>, st: Store, gone: set<Digest>, oldparent: TrieNode, parent: TrieNode,
                      st': Store, n: nat)
    requires up.Up? && Rehashing(p, o, c, k, up, oldchild, child, par, st, gone, n)
    requires RoundDone(up, oldchild, child, oldparent, parent, k, st, st', n)
    ensures Rehashing(p, o, c, k, up.rest, oldparent, parent, ParentOf(up.rest, oldparent.hash), st',
                      gone + {oldparent.hash}, n)
  {
    hide CommonPrefix, Patricia, Leaves, Nodes, Stored, PathStored, Mask, Rep, Below, Climbing, Ancestors, Plug;
    ClimbFacts(up, oldchild.hash, child.hash, k, st, n);
  }

  lemma RehashingDone(p: Path, o: Digest, c: Digest, k: Bits, up: Path, oldchild: TrieNode, child: TrieNode,
                      par: Option<Digest>, st: Store, gone: set<Digest>, st': Store, n: nat)
    requires Rehashing(p, o, c, k, up, oldchild, child, par, st, gone, n) && !oldchild.r.hasParent
    requires OneKeyApart(p, o, c, k, n) && st' == st - (gone + (Nodes(o) - Nodes(c)))
    ensures up == Top && child.hash == Plug(p, c) && WellFormed(Plug(p, c), st', n)
  {
    hide CommonPrefix, Patricia, Nodes, Leaves, Mask, Rep, WellFormed;
    ClimbedToTop(oldchild.hash, child.hash, k, st, n);
    ClimbFinished(p, o, c, st, st', k, n);
  }

  // ----- looking up digests

  /** What a flat lookup of a digest means in the tree. */
  function Lookup(root: Option<Digest>, hash: Digest): TrieNodeType {
    if root.None? || hash !in Nodes(root.value) then NOT_FOUND
    else if hash.Inner? then INNER_NODE else LEAF_NODE
  }

  /** A digest is found as a leaf exactly when it is a key of the set. */
  lemma LookupLeaf(root: Digest, k: Bits)
    ensures Lookup(Some(root), LeafKey(k)) == (if k in Leaves(root) then LEAF_NODE else NOT_FOUND)
  {
    LeafNodes(root, k);
  }

  /** Pruning is sound: when the other trie knows a digest, it has every key below it. */
  lemma FoundSubtrieIsShared(other: Option<Digest>, hash: Digest)
    requires Lookup(other, hash) != NOT_FOUND
    ensures other.Some? && Leaves(hash) <= Leaves(other.value)
  {
    NodesBelow(other.value, hash);
  }

  // ----- canonical stores

  /** The root hash and the store are those of the trie over a set of keys. */
  ghost predicate Holds(root: Option<Digest>, st: Store, keys: set<Bits>, n: nat) {
    match root
    case None => st == map[] && keys == {}
    case Some(d) => WellFormed(d, st, n) && Leaves(d) == keys
  }

  /** Equality of the fields of two records that mean something. */
  ghost predicate SameRecord(r: Record, r': Record) {
    && r.hasParent == r'.hasParent && (r.hasParent ==> r.parent == r'.parent)
    && r.hasChildren == r'.hasChildren && (r.hasChildren ==> r.smaller == r'.smaller && r.larger == r'.larger)
    && r.mask == r'.mask && r.dirty == r'.dirty
    && |r.prefix| == |r'.prefix| && Agree(r.prefix, r'.prefix, r.mask)
  }

  /** Whatever the history, the same set of keys is stored the same way, up to unused fields;
    in particular removing a freshly added key restores the store. */
  lemma SameKeysSameStore(root: Option<Digest>, st: Store, root': Option<Digest>, st': Store, keys: set<Bits>, n: nat)
    requires Holds(root, st, keys, n) && Holds(root', st', keys, n)
    ensures root == root' && st.Keys == st'.Keys
    ensures forall x :: x in st ==> SameRecord(st[x], st'[x])
  {
    if root.Some? && root'.Some? {
      Canonical(root.value, root'.value, n);
      forall x | x in st
        ensures SameRecord(st[x], st'[x])
      {
        var p := FindPath(root.value, x, Top);
        NodeOnPath(p, x, st, n);
        NodeOnPath(p, x, st', n);
      }
    }
  }

  /** Equal root digests mean equal sets, and different ones different sets. */
  lemma RootsDecideEquality(root: Option<Digest>, st: Store, keys: set<Bits>,
                            root': Option<Digest>, st': Store, keys': set<Bits>, n: nat)
    requires Holds(root, st, keys, n) && Holds(root', st', keys', n)
    ensures root == root' <==> keys == keys'
  {
    if keys == keys' && root.Some? && root'.Some? {
      Canonical(root.value, root'.value, n);
    }
  }

  /** The leaves of x are the keys of a set that share the first m bits of x's prefix. */
  ghost predicate PrefixClass(x: Digest, keys: set<Bits>, m: nat) {
    forall k :: k in Leaves(x) <==> k in keys && Agree(k, Rep(x), m)
  }

  lemma {:induction false} RepIsLeaf(x: Digest)
    ensures Rep(x) in Leaves(x)
  {
    if x.Inner? {
      RepIsLeaf(x.smaller);
    }
  }

  lemma {:induction false} NodeIsPrefixClass(d: Digest, x: Digest, n: nat) returns (m: nat)
    requires Patricia(d, n) && x in Nodes(d)
    ensures m <= n && PrefixClass(x, Leaves(d), m)
  {
    hide CommonPrefix;
    RepIsLeaf(x);
    if x == d {
      m := 0;
      forall k | k in Leaves(d)
        ensures Agree(k, Rep(x), 0)
      {
        LeavesAgree(d, n, k);
      }
    } else {
      var child := if x in Nodes(d.smaller) then d.smaller else d.larger;
      var below := NodeIsPrefixClass(child, x, n);
      m := if below <= Mask(d) then Mask(d) + 1 else below;
      NodesBelow(child, x);
      LeavesAgree(child, n, Rep(x));
      hide Rep, Mask, Leaves;
      forall k
        ensures k in Leaves(x) <==> k in Leaves(d) && Agree(k, Rep(x), m)
      {
        ClassBelow(d, child, x, k, below, m, n);
      }
    }
  }

  /** One key more or less: the class of a node in a child is its class in the parent. */
  lemma ClassBelow(d: Digest, child: Digest, x: Digest, k: Bits, below: nat, m: nat, n: nat)
    requires Patricia(d, n) && d.Inner? && (child == d.smaller || child == d.larger)
    requires Rep(x) in Leaves(child) && below <= n && PrefixClass(x, Leaves(child), below)
    requires m == if below <= Mask(d) then Mask(d) + 1 else below
    ensures k in Leaves(x) <==> k in Leaves(d) && Agree(k, Rep(x), m)
  {
    hide CommonPrefix;
    ChildrenDisjoint(d, n);
    SideOfLeaf(d, n, Rep(x));
    LeavesAgree(child, n, Rep(x));
    if k in Leaves(d) {
      SideOfLeaf(d, n, k);
      if k in Leaves(child) {
        LeavesAgree(child, n, k);
      }
    }
  }

  lemma {:induction false} PrefixClassIsNode(d: Digest, x: Digest, m: nat, n: nat)
    requires Patricia(d, n) && Patricia(x, n) && PrefixClass(x, Leaves(d), m)
    ensures x in Nodes(d)
  {
    RepIsLeaf(x);
    assert Agree(Rep(x), Rep(x), m);
    if Leaves(x) == Leaves(d) {
      Canonical(x, d, n);
    } else {
      var k :| k in Leaves(d) && k !in Leaves(x);
      LeavesAgree(d, n, k);
      LeavesAgree(d, n, Rep(x));
      assert d.Inner? && m > Mask(d);
      SideOfLeaf(d, n, Rep(x));
      var child := if Rep(x) in Leaves(d.smaller) then d.smaller else d.larger;
      forall l
        ensures l in Leaves(x) <==> l in Leaves(child) && Agree(l, Rep(x), m)
      {
        if l in Leaves(d) {
          SideOfLeaf(d, n, l);
        }
      }
      PrefixClassIsNode(child, x, m, n);
    }
  }

  /** A digest is known exactly when its leaves are all the keys with some shared prefix. */
  lemma LookupPrefixClass(root: Digest, hash: Digest, n: nat)
    requires Patricia(root, n) && Patricia(hash, n)
    ensures Lookup(Some(root), hash) != NOT_FOUND <==> exists m: nat :: m <= n && PrefixClass(hash, Leaves(root), m)
  {
    hide PrefixClass, Patricia, Leaves;
    if hash in Nodes(root) {
      var m := NodeIsPrefixClass(root, hash, n);
    }
    if m: nat :| m <= n && PrefixClass(hash, Leaves(root), m) {
      PrefixClassIsNode(root, hash, m, n);
    }
  }

  /** Removing a key takes away exactly the nodes above it; read from right to left, adding a key
    creates only nodes above it. */
  lemma RemovalTakesNodesAbove(d: Digest, e: Digest, k: Bits, n: nat)
    requires Patricia(d, n) && Patricia(e, n) && Leaves(e) == Leaves(d) - {k}
    ensures forall x :: x in Nodes(d) ==> (x in Nodes(e) <==> k !in Leaves(x))
  {
    forall x | x in Nodes(d)
      ensures x in Nodes(e) <==> k !in Leaves(x)
    {
      NodesBelow(d, x);
      if x in Nodes(e) {
        NodesBelow(e, x);
      } else if k !in Leaves(x) {
        var m := NodeIsPrefixClass(d, x, n);
        assert PrefixClass(x, Leaves(e), m);
        PrefixClassIsNode(e, x, m, n);
      }
    }
  }

  lemma FirstKey(key: Bits, r: Record, n: nat)
    requires NewLeaf(TrieNode(LeafKey(key), r), key, n)
    ensures WellFormed(LeafKey(key), map[LeafKey(key) := r], n)
  {
    assert Below(LeafKey(key), map[LeafKey(key) := r], n);
  }

  // ----- removal

  /** What a stored node's parent pointer says about the path above it. */
  lemma NodeOnPath(p: Path, x: Digest, st: Store, n: nat)
    requires WellFormed(Plug(p, x), st, n)
    ensures x in st && RecordOk(x, ParentOf(p, x), st[x], n)
    ensures Stored(x, ParentOf(p, x), st, n) && PathStored(p, x, st, n)
    ensures p.Up? ==>
              var q := Join(p.sibling, p.onLarger, x);
              && q in st && RecordOk(q, ParentOf(p.rest, q), st[q], n)
              && p.sibling in st && RecordOk(p.sibling, Some(q), st[p.sibling], n)
              && Stored(p.sibling, Some(q), st, n) && p.sibling != x
              && Patricia(q, n) && PathStored(p.rest, q, st, n)
  {
    hide CommonPrefix;
    PlugStored(p, x, st, n);
    if p.Up? {
      PatriciaInPlug(p.rest, Join(p.sibling, p.onLarger, x), n);
      ChildrenDisjoint(Join(p.sibling, p.onLarger, x), n);
    }
  }

  lemma LeafKeyStored(d: Digest, hash: Digest)
    ensures hash.LeafKey? ==> (hash in Nodes(d) <==> hash.bits in Leaves(d))
  {
    if hash.LeafKey? {
      LeafNodes(d, hash.bits);
    }
  }

  lemma LoneLeafErased(k: Bits, st: Store, n: nat)
    requires WellFormed(LeafKey(k), st, n)
    ensures st - {LeafKey(k)} == map[]
  {
  }

  lemma LeafBeside(s: Digest, onLarger: bool, k: Bits, n: nat)
    requires Patricia(Join(s, onLarger, LeafKey(k)), n)
    ensures var q := Join(s, onLarger, LeafKey(k));
            && Patricia(s, n) && Leaves(q) - {k} == Leaves(s) && k !in Leaves(s) && k in Leaves(q)
            && Nodes(q) - Nodes(s) == {q, LeafKey(k)} && Nodes(s) <= Nodes(q)
  {
    hide CommonPrefix, Mask, Rep;
    var q := Join(s, onLarger, LeafKey(k));
    ChildrenDisjoint(q, n);
    SubtreesDisjoint(q, n);
  }

  /** Erasing one of two subtries under the root promotes the other one. */
  lemma SiblingPromoted(s: Digest, onLarger: bool, k: Bits, st: Store, st': Store, n: nat)
    requires WellFormed(Join(s, onLarger, LeafKey(k)), st, n) && s in st
    requires st' == st[s := st[s].(hasParent := false)] - {Join(s, onLarger, LeafKey(k))} - {LeafKey(k)}
    ensures WellFormed(s, st', n) && Leaves(s) == Leaves(Join(s, onLarger, LeafKey(k))) - {k}
  {
    hide CommonPrefix, Patricia, Leaves, Nodes, Mask, Rep, Stored;
    var q := Join(s, onLarger, LeafKey(k));
    LeafBeside(s, onLarger, k, n);
    StoredChildren(q, None, st, n);
    assert LeafKey(k) !in Nodes(s) && q !in Nodes(s);
    Unparented(s, Some(q), st, st', n);
    assert st'.Keys == Nodes(q) - {q, LeafKey(k)};
  }

  /** The sibling of an erased leaf can take the place of their parent. */
  lemma SiblingApart(p: Path, s: Digest, onLarger: bool, k: Bits, n: nat)
    requires Patricia(Plug(p, Join(s, onLarger, LeafKey(k))), n)
    ensures var q := Join(s, onLarger, LeafKey(k));
            && OneKeyApart(p, q, s, k, n)
            && Nodes(q) - Nodes(s) == {q, LeafKey(k)}
            && Nodes(s) <= Nodes(q) <= Nodes(Plug(p, q))
            && k in Leaves(Plug(p, q)) && Leaves(Plug(p, s)) == Leaves(Plug(p, q)) - {k}
  {
    hide CommonPrefix, Patricia, Leaves, Nodes, Mask, Rep, Fits;
    var q := Join(s, onLarger, LeafKey(k));
    PatriciaInPlug(p, q, n);
    LeafBeside(s, onLarger, k, n);
    SiblingFits(p, s, onLarger, k, n);
    ReplaceKeepsPatricia(p, q, s, n);
    PathDisjoint(p, q, n);
    PlugParts(p, q);
    PlugParts(p, s);
  }

  /** Ready to climb from the parent of an erased leaf. */
  lemma EraseReady(p: Path, k: Bits, st: Store, leaf: TrieNode, parent: TrieNode, n: nat)
    requires p.Up? && p.rest.Up? && WellFormed(Plug(p, LeafKey(k)), st, n)
    requires leaf.hash == LeafKey(k) && parent.hash == Join(p.sibling, p.onLarger, LeafKey(k))
    requires parent.hash in st && parent.r == st[parent.hash]
    ensures var q, s, above := parent.hash, p.sibling, p.rest;
            && Plug(above, q) == Plug(p, LeafKey(k))
            && s in st && s != leaf.hash && parent.r.hasChildren
            && parent.r.smaller == q.smaller && parent.r.larger == q.larger
            && RecordOk(q, ParentOf(above, q), parent.r, n) && RecordOk(s, Some(q), st[s], n)
            && Rehashing(above, q, s, k, above, parent, TrieNode(s, st[s]), Some(q), st, {}, n)
            && OneKeyApart(above, q, s, k, n)
            && Nodes(q) - Nodes(s) == {q, LeafKey(k)}
            && Leaves(Plug(above, s)) == Leaves(Plug(p, LeafKey(k))) - {k}
  {
    hide CommonPrefix, Patricia, Leaves, Nodes, Mask, Rep, Stored, PathStored, RecordOk, OneKeyApart;
    var q, s, above := parent.hash, p.sibling, p.rest;
    NodeOnPath(p, LeafKey(k), st, n);
    NodeOnPath(above, q, st, n);
    SiblingApart(above, s, p.onLarger, k, n);
    ParentFields(q, ParentOf(above, q), parent.r, n);
    BelowOf(s, Some(q), st, n);
  }

  lemma ParentFields(q: Digest, par: Option<Digest>, r: Record, n: nat)
    requires RecordOk(q, par, r, n) && q.Inner?
    ensures r.hasChildren && r.smaller == q.smaller && r.larger == q.larger && (r.hasParent <==> par.Some?)
  {
  }

  lemma BelowOf(d: Digest, par: Option<Digest>, st: Store, n: nat)
    requires Stored(d, par, st, n)
    ensures Below(d, st, n)
  {
  }

  lemma SiblingFits(p: Path, s: Digest, onLarger: bool, k: Bits, n: nat)
    requires Patricia(Plug(p, Join(s, onLarger, LeafKey(k))), n)
    ensures Patricia(s, n) && Fits(p, Join(s, onLarger, LeafKey(k)), s, n)
  {
    var q := Join(s, onLarger, LeafKey(k));
    PatriciaInPlug(p, q, n);
    assert Mask(q) < Mask(s) && Agree(Rep(s), Rep(q), Mask(q));
    if p.Up? {
      PatriciaInPlug(p.rest, Join(p.sibling, p.onLarger, q), n);
      assert Mask(Join(p.sibling, p.onLarger, q)) < Mask(q);
    }
  }

  class KeyValueTrie {
    /** Number of bits of a hash; a prefix length fits the eight bits the source keeps it in. */
    const n: nat
    var store: Store
    var root: Option<Digest>
    var size: nat

    ghost predicate Valid()
      reads this
    {
      && 0 < n <= 255 && n % 8 == 0
      && match root
         case None => store == map[] && size == 0
         case Some(d) => WellFormed(d, store, n) && size == |Leaves(d)|
    }

    /** The set of keys the trie holds. */
    ghost function Keys(): set<Bits>
      reads this
    {
      if root.None? then {} else Leaves(root.value)
    }

    /** Number of bytes of a hash. */
    function HashSize(): (h: nat)
      requires n > 0 && n % 8 == 0
      ensures h > 0 && 8 * h == n
    {
      n / 8
    }

    /** Number of whole hashes that fit a buffer. */
    function Capacity(buffersize: nat): (c: nat)
      requires n > 0 && n % 8 == 0
      ensures c * HashSize() <= buffersize < (c + 1) * HashSize()
    {
      buffersize / HashSize()
    }

    constructor (bits: nat)
      requires 0 < bits <= 255 && bits % 8 == 0
      ensures Valid() && n == bits && root == None && Keys() == {}
    {
      n := bits;
      store := map[];
      root := None;
      size := 0;
    }

    // ----- loading and saving nodes

    /** Loading a node; each call has to show that the source's lookup does not throw. */
    method Load(hash: Digest) returns (node: TrieNode)
      requires hash in store
      ensures node == TrieNode(hash, store[hash])
    {
      node := TrieNode(hash, store[hash]);
    }

    method ToDb(node: TrieNode)
      modifies this`store
      ensures store == old(store)[node.hash := node.r]
    {
      store := store[node.hash := node.r];
    }

    method DeleteAll(v: seq<TrieNode>)
      modifies this`store
      ensures store == old(store) - Hashes(v)
    {
      for i := 0 to |v|
        invariant store == old(store) - Hashes(v[..i])
      {
        store := store - {v[i].hash};
        HashesPush(v[..i], v[i]);
        assert v[..i+1] == v[..i] + [v[i]];
      }
      assert v[..|v|] == v;
    }

    // ----- insertion

    method Insert(self: TrieNode, node: TrieNode, ghost k: Bits, ghost p: Path) returns (inserted: bool)
      requires 0 < n <= 255 && n % 8 == 0
      requires root == Some(Plug(p, self.hash)) && WellFormed(Plug(p, self.hash), store, n)
      requires self.hash in store && self.r == store[self.hash]
      requires NewLeaf(node, k, n) && Searching(p, self.hash, k, n)
      modifies this`store, this`root
      ensures inserted <==> k !in old(Keys())
      ensures root.Some? && WellFormed(root.value, store, n)
      ensures Keys() == old(Keys()) + {k}
      ensures !inserted ==> store == old(store) && root == old(root)
      decreases self.hash
    {
      hide CommonPrefix, Patricia, Leaves, Nodes, Stored, PathStored, Plug, Mask, Rep;
      ghost var o := self.hash;
      AtNode(p, o, k, store, n);
      var thesame := self.Similar(node);
      assert thesame <==> Agree(k, Rep(o), Mask(o));
      if thesame {
        if self.IsLarger(node, n) {
          var larger := Load(self.r.larger);
          inserted := Insert(larger, node, k, Up(o.smaller, true, p));
        } else if self.IsSmaller(node, n) {
          var smaller := Load(self.r.smaller);
          inserted := Insert(smaller, node, k, Up(o.larger, false, p));
        } else {
          // a duplicate: the source's "Missing Child!" is never thrown
          if self.r.mask != n {
            assert false;
          }
          inserted := false;
        }
      } else {
        Split(self, node, k, p);
        inserted := true;
      }
    }

    /** The inner node over self and a leaf that leaves its prefix, with self's parent. */
    method Intermediate(self: TrieNode, node: TrieNode) returns (intermediate: TrieNode)
      requires |self.r.prefix| == n && |node.r.prefix| == n
      requires CommonPrefix(self.r.prefix, node.r.prefix) < n
      ensures var m := CommonPrefix(self.r.prefix, node.r.prefix);
              var (s, l) := if node.r.prefix[m] then (self.hash, node.hash) else (node.hash, self.hash);
              intermediate == TrieNode(Inner(s, l),
                self.r.(mask := m, hasChildren := true, smaller := s, larger := l, dirty := false))
    {
      intermediate := self;
      var common := intermediate.CommonPrefixSize(node, n);
      intermediate := intermediate.(r := intermediate.r.(mask := common));
      if intermediate.IsLarger(node, n) {
        intermediate := intermediate.SetChildren(self, node);
      } else {
        // the new leaf is on one side or the other: the source's "ERROR" is never thrown
        if !intermediate.IsSmaller(node, n) {
          assert false;
        }
        intermediate := intermediate.SetChildren(node, self);
      }
      intermediate := intermediate.UpdateHash();
    }

    /** Puts a new inner node over self and the new leaf, then rehashes the ancestors. */
    method Split(self: TrieNode, node0: TrieNode, ghost k: Bits, ghost p: Path)
      requires 0 < n <= 255 && n % 8 == 0
      requires root == Some(Plug(p, self.hash)) && WellFormed(Plug(p, self.hash), store, n)
      requires self.hash in store && self.r == store[self.hash]
      requires NewLeaf(node0, k, n) && Searching(p, self.hash, k, n)
      requires !Agree(k, Rep(self.hash), Mask(self.hash))
      modifies this`store, this`root
      ensures k !in old(Keys())
      ensures root.Some? && WellFormed(root.value, store, n)
      ensures Keys() == old(Keys()) + {k}
    {
      hide CommonPrefix, Patricia, Leaves, Nodes, Stored, PathStored, Plug, Mask, Rep;
      hide RecordOk, OneKeyApart, Climbing, Searching, SiblingLeaves, SiblingNodes, Ancestors, Agree;
      ghost var o := self.hash;
      ghost var st0 := store;
      AtNode(p, o, k, store, n);
      SplitReady(p, o, k, n);
      SplitRecords(p, o, k, self.r, node0, n);
      ghost var c := SplitNode(o, k);

      var node, oldnode := node0, self;
      var intermediate := Intermediate(self, node);
      assert intermediate.hash == c;
      node := node.SetParent(intermediate);
      ToDb(node);
      oldnode := oldnode.SetParent(intermediate);
      ToDb(oldnode);
      if !intermediate.r.hasParent {
        ToDb(intermediate);
      }
      SplitDone(p, o, k, st0, store, node.r, oldnode.r, intermediate.r, n);
      assert Rehashing(p, o, c, k, p, self, intermediate, ParentOf(p, o), store, {}, n);
      RehashAfterInsert(self, intermediate, k, p);
    }

    /** One round of a climb: copies the parent of oldchild, replaces oldchild by child in the copy,
      rehashes it, and links the sibling and the new child to it. */
    method RehashParent(oldchild: TrieNode, child: TrieNode, ghost par: Option<Digest>, ghost k: Bits, ghost p: Path)
        returns (oldparent: TrieNode, parent: TrieNode)
      requires p.Up? && Climbing(p, oldchild.hash, child.hash, k, store, n) && oldchild.hash in store
      requires RecordOk(oldchild.hash, ParentOf(p, oldchild.hash), oldchild.r, n)
      requires RecordOk(child.hash, par, child.r, n)
      modifies this`store
      ensures RoundDone(p, oldchild, child, oldparent, parent, k, old(store), store, n)
    {
      hide CommonPrefix, Patricia, Leaves, Nodes, Stored, PathStored, Plug, Mask, Rep, Below, Climbing;
      ghost var st := store;
      ClimbFacts(p, oldchild.hash, child.hash, k, store, n);
      oldparent := Load(oldchild.r.parent);
      parent := oldparent;
      var otherchild := Load(oldparent.r.larger);
      if oldparent.IsEqualToSmaller(oldchild) {
        parent := parent.SetSmaller(child);
      } else {
        // "Child hasn't been correct child of parent" is never thrown
        if !oldparent.IsEqualToLarger(oldchild) {
          assert false;
        }
        otherchild := Load(oldparent.r.smaller);
        parent := parent.SetLarger(child);
      }
      parent := parent.UpdateHash();
      otherchild := otherchild.SetParent(parent);
      ToDb(otherchild);
      ToDb(child.SetParent(parent));
      ToDb(parent);
      ClimbStep(p, oldchild.hash, child.hash, k, st, store, n);
    }

    /** The climb of insert: every ancestor gets a rehashed copy; the old ones go at the end. */
    method RehashAfterInsert(self: TrieNode, intermediate: TrieNode, ghost k: Bits, ghost p: Path)
      requires OneKeyApart(p, self.hash, intermediate.hash, k, n) && Nodes(self.hash) <= Nodes(intermediate.hash)
      requires Rehashing(p, self.hash, intermediate.hash, k, p, self, intermediate, ParentOf(p, self.hash), store,
                         {}, n)
      modifies this`store, this`root
      ensures root == Some(Plug(p, intermediate.hash))
      ensures WellFormed(Plug(p, intermediate.hash), store, n)
    {
      ghost var o, c := self.hash, intermediate.hash;
      assert Nodes(o) - Nodes(c) == {};
      hide CommonPrefix, Patricia, Leaves, Nodes, Stored, PathStored, Mask, Rep, Below, Climbing, WellFormed;
      hide OneKeyApart, Plug, Ancestors, Hashes;
      ghost var up := p;
      var toBeDeleted: seq<TrieNode> := [];
      HashesEmpty();
      var oldchild, child := self, intermediate;
      var roothash := intermediate.hash;
      while oldchild.r.hasParent
        invariant Rehashing(p, o, c, k, up, oldchild, child, ParentOf(up, oldchild.hash), store, Hashes(toBeDeleted), n)
        invariant !oldchild.r.hasParent ==> roothash == child.hash
        decreases up
      {
        ghost var st, gone, par := store, Hashes(toBeDeleted), ParentOf(up, oldchild.hash);
        var oldparent, parent := RehashParent(oldchild, child, par, k, up);
        RehashingStep(p, o, c, k, up, oldchild, child, par, st, gone, oldparent, parent, store, n);
        if !parent.r.hasParent {
          roothash := parent.hash;
        }
        HashesPush(toBeDeleted, oldparent);
        toBeDeleted := toBeDeleted + [oldparent];
        oldchild := oldparent;
        child := parent;
        up := up.rest;
      }
      root := Some(roothash);
      ghost var st := store;
      DeleteAll(toBeDeleted);
      RehashingDone(p, o, c, k, up, oldchild, child, ParentOf(up, oldchild.hash), st, Hashes(toBeDeleted), store, n);
    }

    // ----- removal

    method Erase(self: TrieNode, hash: Digest) returns (r: Result<bool>)
      requires Valid() && root == Some(self.hash)
      modifies this`store, this`root
      ensures r.Thrown? <==> hash.Inner? && hash in Nodes(self.hash)
      ensures r.Ok? ==> (r.value <==> hash.LeafKey? && hash.bits in old(Keys()))
      ensures r != Ok(true) ==> store == old(store) && root == old(root)
      ensures r == Ok(true) ==> Holds(root, store, old(Keys()) - {hash.bits}, n)
    {
      if hash !in store {
        // the source catches the exception of the lookup
        LeafKeyStored(self.hash, hash);
        return Ok(false);
      }
      var toBeDeleted := Load(hash);
      StoredNode(self.hash, None, store, n, hash);
      LeafKeyStored(self.hash, hash);
      if toBeDeleted.r.hasChildren {
        return Thrown;
      }
      ghost var k := hash.bits;
      ghost var p := FindPath(self.hash, hash, Top);
      assert Plug(p, hash) == self.hash;
      r := Ok(true);
      EraseLeaf(toBeDeleted, k, p);
    }

    method EraseLeaf(toBeDeleted: TrieNode, ghost k: Bits, ghost p: Path)
      requires toBeDeleted.hash == LeafKey(k) && toBeDeleted.hash in store && toBeDeleted.r == store[toBeDeleted.hash]
      requires root == Some(Plug(p, LeafKey(k))) && WellFormed(Plug(p, LeafKey(k)), store, n)
      modifies this`store, this`root
      ensures Holds(root, store, old(Keys()) - {k}, n)
    {
      ghost var hash := toBeDeleted.hash;
      NodeOnPath(p, hash, store, n);
      if !toBeDeleted.r.hasParent {
        // the root node goes
        LoneLeafErased(k, store, n);
        root := None;
        DeleteFromDb(toBeDeleted);
      } else {
        var parent := Load(toBeDeleted.r.parent);
        if !parent.r.hasParent {
          ghost var st := store;
          // the other child becomes the new root
          var childOfParent;
          if parent.IsEqualToLarger(toBeDeleted) {
            childOfParent := Load(parent.r.smaller);
          } else {
            childOfParent := Load(parent.r.larger);
          }
          childOfParent := childOfParent.(r := childOfParent.r.(hasParent := false));
          ToDb(childOfParent);
          root := Some(childOfParent.hash);
          DeleteFromDb(parent);
          DeleteFromDb(toBeDeleted);
          SiblingPromoted(p.sibling, p.onLarger, k, st, store, n);
        } else {
          EraseBelowGrandparent(toBeDeleted, parent, k, p);
        }
      }
    }

    /** The sibling of the erased leaf takes its parent's place; every ancestor is rehashed. */
    method EraseBelowGrandparent(toBeDeleted: TrieNode, parent: TrieNode, ghost k: Bits, ghost p: Path)
      requires p.Up? && p.rest.Up?
      requires toBeDeleted.hash == LeafKey(k) && parent.hash == Join(p.sibling, p.onLarger, LeafKey(k))
      requires root == Some(Plug(p, LeafKey(k))) && WellFormed(Plug(p, LeafKey(k)), store, n)
      requires parent.hash in store && parent.r == store[parent.hash]
      modifies this`store, this`root
      ensures Holds(root, store, old(Keys()) - {k}, n)
    {
      ghost var q, s, above := parent.hash, p.sibling, p.rest;
      hide CommonPrefix, Patricia, Leaves, Nodes, Stored, PathStored, Mask, Rep, Below, Climbing, WellFormed;
      hide OneKeyApart, Plug, Ancestors, Hashes, RecordOk, RoundDone;
      EraseReady(p, k, store, toBeDeleted, parent, n);
      var childOfParent;
      if parent.IsEqualToLarger(toBeDeleted) {
        childOfParent := Load(parent.r.smaller);
      } else {
        // "Parent has wrong children" is never thrown
        if !parent.IsEqualToSmaller(toBeDeleted) {
          assert false;
        }
        childOfParent := Load(parent.r.larger);
      }
      ghost var st, up, gone, par := store, above, {}, Some(q);
      var oldgrandparent, newgrandparent := RehashParent(parent, childOfParent, par, k, up);
      RehashingStep(above, q, s, k, up, parent, childOfParent, par, st, gone, oldgrandparent, newgrandparent, store, n);
      up, gone := up.rest, gone + {oldgrandparent.hash};
      var oldnodes := [parent, toBeDeleted];
      HashesOfTwo(parent, toBeDeleted);
      HashesPush(oldnodes, oldgrandparent);
      oldnodes := oldnodes + [oldgrandparent];
      while oldgrandparent.r.hasParent
        invariant Rehashing(above, q, s, k, up, oldgrandparent, newgrandparent, ParentOf(up, oldgrandparent.hash),
                            store, gone, n)
        invariant Hashes(oldnodes) == gone + {q, LeafKey(k)}
        decreases up
      {
        st, par := store, ParentOf(up, oldgrandparent.hash);
        var oldparent, newparent := RehashParent(oldgrandparent, newgrandparent, par, k, up);
        RehashingStep(above, q, s, k, up, oldgrandparent, newgrandparent, par, st, gone, oldparent, newparent,
                      store, n);
        up, gone := up.rest, gone + {oldparent.hash};
        HashesPush(oldnodes, oldparent);
        oldnodes := oldnodes + [oldparent];
        oldgrandparent := oldparent;
        newgrandparent := newparent;
      }
      root := Some(newgrandparent.hash);
      st := store;
      DeleteAll(oldnodes);
      RehashingDone(above, q, s, k, up, oldgrandparent, newgrandparent, ParentOf(up, oldgrandparent.hash), st, gone,
                    store, n);
    }

    method DeleteFromDb(node: TrieNode)
      modifies this`store
      ensures store == old(store) - {node.hash}
    {
      store := store - {node.hash};
    }

    // ----- the public operations

    method NewNode(key: Bits) returns (node: TrieNode)
      requires |key| == n && n <= 255
      ensures NewLeaf(node, key, n)
    {
      var unset: Digest :| true;  // fields the source leaves uninitialised
      // the source keeps the prefix length in eight bits
      node := TrieNode(LeafKey(key), Record(unset, unset, unset, key, n % 256, false, false, false));
    }

    method Add(key: Bits) returns (inserted: bool)
      requires Valid() && |key| == n
      modifies this
      ensures Valid()
      ensures Keys() == old(Keys()) + {key}
      ensures inserted <==> key !in old(Keys())
      ensures !inserted ==> store == old(store) && root == old(root)
    {
      if root.Some? {
        var node := NewNode(key);
        var rootnode := Load(root.value);
        inserted := Insert(rootnode, node, key, Top);
        if inserted {
          size := size + 1;
        }
        return;
      }
      // The catch-all of the source: no insertion throws, so only a missing root leads here.
      var node := NewNode(key);
      FirstKey(key, node.r, n);
      ToDb(node);
      root := Some(node.hash);
      size := size + 1;
      inserted := true;
    }

    method Remove(hash: Digest) returns (removed: bool)
      requires Valid()
      modifies this
      ensures Valid()
      ensures removed <==> hash.LeafKey? && hash.bits in old(Keys())
      ensures Keys() == if removed then old(Keys()) - {hash.bits} else old(Keys())
      ensures !removed ==> store == old(store) && root == old(root)
    {
      if root.None? {
        return false;  // the missing root throws, and the source catches everything
      }
      var rootnode := Load(root.value);
      var r := Erase(rootnode, hash);
      if r.Thrown? {
        return false;
      }
      removed := r.value;
      if removed {
        size := size - 1;
      }
      if size == 0 {
        Clear();
      }
    }

    method Clear()
      requires 0 < n <= 255 && n % 8 == 0
      modifies this
      ensures Valid() && Keys() == {}
    {
      store := map[];
      root := None;
      size := 0;
    }

    method Contains(hash: Digest) returns (t: TrieNodeType)
      requires Valid()
      ensures t == Lookup(root, hash)
    {
      if hash in store {
        StoredNode(root.value, None, store, n, hash);
        var node := Load(hash);
        return if node.r.hasChildren then INNER_NODE else LEAF_NODE;
      } else {
        return NOT_FOUND;
      }
    }

    method GetRoot() returns (hash: Option<Digest>)
      requires Valid()
      ensures hash == root
      ensures hash == None <==> Keys() == {}
    {
      if size == 0 {
        return None;
      }
      return root;
    }

    /** Comparing the two root nodes decides whether the two sets of keys are equal. */
    method Equals(other: KeyValueTrie) returns (same: bool)
      requires Valid() && other.Valid() && n == other.n
      ensures same <==> Keys() == other.Keys()
    {
      if root.None? {
        return other.root.None?;
      }
      if other.root.None? {
        return false;
      }
      var mynode := Load(root.value);
      var othernode := other.Load(other.root.value);
      same := mynode.r.mask == othernode.r.mask
        && mynode.r.dirty == othernode.r.dirty
        && mynode.r.hasChildren == othernode.r.hasChildren
        && mynode.r.hasParent == othernode.r.hasParent
        && mynode.hash == othernode.hash
        && (mynode.r.hasParent ==> mynode.r.parent == othernode.r.parent)
        && (mynode.r.dirty ==> mynode.r.smaller == othernode.r.smaller && mynode.r.larger == othernode.r.larger);
      if Keys() == other.Keys() {
        Canonical(root.value, other.root.value, n);
      }
    }
  }
}
