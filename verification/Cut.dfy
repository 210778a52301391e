/** Cutting a subtrie: the digests sent to the peer in place of one digest. */
module Cuts {
  import opened Arithmetic
  import opened Digests
  import opened TrieStore
  import opened KeyValueTries
  import opened Wrappers

  // ----- bags of leaves and nodes

  function LeafBag(d: Digest): (b: multiset<Bits>)
    ensures |b| >= 1
  {
    match d
    case LeafKey(k) => multiset{k}
    case Inner(l, r) => LeafBag(l) + LeafBag(r)
  }

  function NodeBag(d: Digest): (b: multiset<Digest>)
    ensures |b| == NodeCount(d) && b[d] >= 1
  {
    match d
    case LeafKey(_) => multiset{d}
    case Inner(l, r) => multiset{d} + NodeBag(l) + NodeBag(r)
  }

  function LeafBags(v: seq<Digest>): multiset<Bits> {
    if v == [] then multiset{} else LeafBags(v[..|v|-1]) + LeafBag(v[|v|-1])
  }

  function NodeBags(v: seq<Digest>): multiset<Digest> {
    if v == [] then multiset{} else NodeBags(v[..|v|-1]) + NodeBag(v[|v|-1])
  }

  /** Number of nodes in the subtries of a vector. */
  function Weight(v: seq<Digest>): nat {
    if v == [] then 0 else Weight(v[..|v|-1]) + NodeCount(v[|v|-1])
  }

  lemma BagsPush(v: seq<Digest>, x: Digest)
    ensures LeafBags(v + [x]) == LeafBags(v) + LeafBag(x)
    ensures NodeBags(v + [x]) == NodeBags(v) + NodeBag(x)
    ensures Weight(v + [x]) == Weight(v) + NodeCount(x)
  {
    assert (v + [x])[..|v|] == v;
  }

  lemma {:induction false} BagsConcat(v: seq<Digest>, w: seq<Digest>)
    ensures LeafBags(v + w) == LeafBags(v) + LeafBags(w)
    ensures NodeBags(v + w) == NodeBags(v) + NodeBags(w)
  {
    LeafBagsConcat(v, w);
    NodeBagsConcat(v, w);
  }

  lemma {:induction false} LeafBagsConcat(v: seq<Digest>, w: seq<Digest>)
    ensures LeafBags(v + w) == LeafBags(v) + LeafBags(w)
  {
    if w == [] {
      assert v + w == v;
    } else {
      hide LeafBag;
      var init := w[..|w|-1];
      LeafBagsConcat(v, init);
      assert (v + w)[..|v+w|-1] == v + init && (v + w)[|v+w|-1] == w[|w|-1];
    }
  }

  lemma {:induction false} NodeBagsConcat(v: seq<Digest>, w: seq<Digest>)
    ensures NodeBags(v + w) == NodeBags(v) + NodeBags(w)
  {
    if w == [] {
      assert v + w == v;
    } else {
      hide NodeBag;
      var init := w[..|w|-1];
      NodeBagsConcat(v, init);
      assert (v + w)[..|v+w|-1] == v + init && (v + w)[|v+w|-1] == w[|w|-1];
    }
  }

  lemma {:induction false} BagsAt(v: seq<Digest>, i: nat)
    requires i < |v|
    ensures LeafBag(v[i]) <= LeafBags(v) && NodeBag(v[i]) <= NodeBags(v)
  {
    if i < |v| - 1 {
      BagsAt(v[..|v|-1], i);
    }
  }

  lemma {:induction false} BagsAtTwo(v: seq<Digest>, i: nat, j: nat)
    requires i < j < |v|
    ensures LeafBag(v[i]) + LeafBag(v[j]) <= LeafBags(v)
  {
    if j < |v| - 1 {
      BagsAtTwo(v[..|v|-1], i, j);
    } else {
      BagsAt(v[..|v|-1], i);
    }
  }

  lemma {:induction false} LeafBagsWitness(v: seq<Digest>, k: Bits) returns (i: nat)
    requires k in LeafBags(v)
    ensures i < |v| && k in LeafBag(v[i])
  {
    if k in LeafBag(v[|v|-1]) {
      i := |v| - 1;
    } else {
      i := LeafBagsWitness(v[..|v|-1], k);
    }
  }

  lemma {:induction false} LeafBagOfLeaves(d: Digest, n: nat)
    requires Patricia(d, n)
    ensures LeafBag(d) == multiset(Leaves(d)) && |LeafBag(d)| == |Leaves(d)|
  {
    match d
    case LeafKey(_) =>
    case Inner(l, r) =>
      LeafBagOfLeaves(l, n);
      LeafBagOfLeaves(r, n);
      ChildrenDisjoint(d, n);
      assert Leaves(d) == Leaves(l) + Leaves(r);
  }

  lemma {:induction false} NodeBagOfNodes(d: Digest, n: nat)
    requires Patricia(d, n)
    ensures NodeBag(d) == multiset(Nodes(d))
  {
    match d
    case LeafKey(_) =>
    case Inner(l, r) =>
      NodeBagOfNodes(l, n);
      NodeBagOfNodes(r, n);
      SubtreesDisjoint(d, n);
      hide Patricia;
      DisjointBags({d}, Nodes(l));
      DisjointBags({d} + Nodes(l), Nodes(r));
      assert Nodes(d) == {d} + Nodes(l) + Nodes(r);
  }

  lemma DisjointBags<T>(a: set<T>, b: set<T>)
    requires a !! b
    ensures multiset(a + b) == multiset(a) + multiset(b)
  {
  }

  /** Every digest accounts for at least one leaf, and a leaf for exactly one. */
  lemma {:induction false} BagSize(v: seq<Digest>)
    ensures |LeafBags(v)| >= |v|
    ensures (forall x :: x in v ==> x.LeafKey?) ==> |LeafBags(v)| == |v|
  {
    if v != [] {
      BagSize(v[..|v|-1]);
    }
  }

  // ----- what a cut is

  /** f stands for the subtrie d in a buffer for max digests: as many digests as fit or as there
    are leaves; the leaves are split among the digests; no digest but a lone leaf is d itself. */
  ghost predicate CutOf(d: Digest, max: nat, f: seq<Digest>) {
    && |f| == (if |LeafBag(d)| < max then |LeafBag(d)| else max)
    && LeafBags(f) == LeafBag(d)
    && NodeBags(f) + (if d.Inner? then multiset{d} else multiset{}) <= NodeBag(d)
  }

  /** The digests of a cut are distinct nodes of the subtrie whose leaf sets partition its leaves. */
  lemma CutPartitions(d: Digest, max: nat, f: seq<Digest>, n: nat)
    requires Patricia(d, n) && CutOf(d, max, f)
    ensures forall i, j :: 0 <= i < j < |f| ==> Leaves(f[i]) !! Leaves(f[j])
    ensures forall k :: k in Leaves(d) <==> exists i :: 0 <= i < |f| && k in Leaves(f[i])
    ensures forall i :: 0 <= i < |f| ==> f[i] in Nodes(d) && (d.Inner? ==> f[i] != d)
    ensures |f| == if |Leaves(d)| < max then |Leaves(d)| else max
  {
    hide LeafBag, LeafBags, NodeBag, NodeBags, Leaves, Nodes, Patricia;
    LeafBagOfLeaves(d, n);
    NodeBagOfNodes(d, n);
    forall i | 0 <= i < |f|
      ensures f[i] in Nodes(d) && (d.Inner? ==> f[i] != d) && LeafBag(f[i]) == multiset(Leaves(f[i]))
    {
      BagsAt(f, i);
      assert NodeBag(f[i])[f[i]] >= 1;
      assert NodeBags(f)[f[i]] >= 1;
      assert NodeBag(d)[f[i]] >= NodeBags(f)[f[i]] + (if d.Inner? then multiset{d} else multiset{})[f[i]];
      assert multiset(Nodes(d))[f[i]] <= 1;
      NodesBelow(d, f[i]);
      LeafBagOfLeaves(f[i], n);
    }
    forall i, j | 0 <= i < j < |f|
      ensures Leaves(f[i]) !! Leaves(f[j])
    {
      BagsAtTwo(f, i, j);
      forall k | k in Leaves(f[i])
        ensures k !in Leaves(f[j])
      {
        assert LeafBag(f[i])[k] == 1;
        assert LeafBag(f[i])[k] + LeafBag(f[j])[k] <= LeafBags(f)[k];
        assert multiset(Leaves(d))[k] <= 1;
      }
    }
    forall k
      ensures k in Leaves(d) <==> exists i :: 0 <= i < |f| && k in Leaves(f[i])
    {
      if k in Leaves(d) {
        assert k in LeafBags(f);
        var i := LeafBagsWitness(f, k);
        assert k in Leaves(f[i]);
      }
      if i :| 0 <= i < |f| && k in Leaves(f[i]) {
        BagsAt(f, i);
      }
    }
  }

  // ----- the recursive cut

  function DigestsOf(v: seq<TrieNode>): (f: seq<Digest>)
    ensures |f| == |v| && forall i :: 0 <= i < |v| ==> f[i] == v[i].hash
  {
    seq(|v|, i requires 0 <= i < |v| => v[i].hash)
  }

  lemma DigestsOfPush(v: seq<TrieNode>, x: TrieNode)
    ensures DigestsOf(v + [x]) == DigestsOf(v) + [x.hash]
  {
  }

  lemma DigestsOfPop(v: seq<TrieNode>)
    requires v != []
    ensures DigestsOf(v) == DigestsOf(v[..|v|-1]) + [v[|v|-1].hash]
  {
  }

  lemma NothingCut()
    ensures DigestsOf([]) == [] && LeafBags([]) == multiset{} && NodeBags([]) == multiset{} && Weight([]) == 0
  {
  }

  /** node was loaded from this store, where it is part of the trie with this root. */
  ghost predicate LoadedFrom(node: TrieNode, root: Digest, st: Store) {
    node.hash in Nodes(root) && node.hash in st && node.r == st[node.hash]
  }

  /** The two vectors that a cut fills: inner nodes still to be expanded, and leaves. */
  class CutVectors {
    var inner_nodes: seq<TrieNode>
    var child_nodes: seq<TrieNode>

    constructor ()
      ensures inner_nodes == [] && child_nodes == []
    {
      inner_nodes, child_nodes := [], [];
    }

    ghost predicate Loaded(trie: KeyValueTrie)
      reads this, trie
    {
      && trie.root.Some?
      && (forall x :: x in inner_nodes ==> LoadedFrom(x, trie.root.value, trie.store) && x.hash.Inner?)
      && (forall x :: x in child_nodes ==> LoadedFrom(x, trie.root.value, trie.store) && x.hash.LeafKey?)
    }

    ghost function LeafTotal(): multiset<Bits>
      reads this
    {
      LeafBags(DigestsOf(inner_nodes)) + LeafBags(DigestsOf(child_nodes))
    }

    ghost function NodeTotal(): multiset<Digest>
      reads this
    {
      NodeBags(DigestsOf(inner_nodes)) + NodeBags(DigestsOf(child_nodes))
    }

    /** How many nodes are left in the subtries still to be expanded. */
    ghost function PendingWeight(): nat
      reads this
    {
      Weight(DigestsOf(inner_nodes))
    }

    /** Adds the cut of one more subtrie, of at most numberOfNodes digests net of the inner nodes
      it takes back out of the vector and expands. */
    method GetSubTrie(trie: KeyValueTrie, root: TrieNode, numberOfNodes: nat) returns (count: nat)
      requires trie.Valid() && trie.root.Some? && Loaded(trie) && LoadedFrom(root, trie.root.value, trie.store)
      requires numberOfNodes >= 1
      modifies this
      ensures Loaded(trie)
      ensures 1 <= count <= numberOfNodes
      ensures |inner_nodes| + |child_nodes| == old(|inner_nodes| + |child_nodes|) + count
      ensures LeafTotal() == old(LeafTotal()) + LeafBag(root.hash)
      ensures NodeTotal() <= old(NodeTotal()) + NodeBag(root.hash)
      ensures PendingWeight() <= old(PendingWeight()) + NodeCount(root.hash)
      ensures root.hash.Inner? && numberOfNodes >= 2 ==>
                && NodeTotal() + multiset{root.hash} <= old(NodeTotal()) + NodeBag(root.hash)
                && PendingWeight() < old(PendingWeight()) + NodeCount(root.hash)
      ensures root.hash.Inner? ==> count == numberOfNodes || inner_nodes == []
      ensures root.hash.LeafKey? ==> inner_nodes == old(inner_nodes)
      decreases PendingWeight() + NodeCount(root.hash)
    {
      hide LeafBag, LeafBags, NodeBag, NodeBags, Weight, NodeCount, Nodes, Leaves, Patricia, Stored, DigestsOf;
      StoredNode(trie.root.value, None, trie.store, trie.n, root.hash);
      if root.r.hasChildren && numberOfNodes >= 2 {
        ChildrenLoaded(trie.root.value, trie.store, root.hash, trie.n);
        BagsOfInner(root.hash);
        var smaller := trie.Load(root.r.smaller);
        var larger := trie.Load(root.r.larger);
        var smallercount := numberOfNodes / 2;
        smallercount := GetSubTrie(trie, smaller, smallercount);
        var largercount := numberOfNodes - smallercount;
        largercount := GetSubTrie(trie, larger, largercount);
        var sum := smallercount + largercount;
        while sum < numberOfNodes && |inner_nodes| > 0
          invariant Loaded(trie)
          invariant 2 <= sum <= numberOfNodes
          invariant |inner_nodes| + |child_nodes| == old(|inner_nodes| + |child_nodes|) + sum
          invariant LeafTotal() == old(LeafTotal()) + LeafBag(root.hash)
          invariant NodeTotal() + multiset{root.hash} <= old(NodeTotal()) + NodeBag(root.hash)
          invariant PendingWeight() < old(PendingWeight()) + NodeCount(root.hash)
          decreases PendingWeight()
        {
          var innerNode := PopInner(trie);
          sum := sum - 1;
          var more := GetSubTrie(trie, innerNode, numberOfNodes - sum);
          sum := sum + more;
        }
        return sum;
      } else {
        if root.r.hasChildren {
          PushInner(trie, root);
        } else {
          PushChild(trie, root);
        }
        return 1;
      }
    }

    method PushInner(trie: KeyValueTrie, node: TrieNode)
      requires Loaded(trie) && LoadedFrom(node, trie.root.value, trie.store) && node.hash.Inner?
      modifies this`inner_nodes
      ensures Loaded(trie) && inner_nodes == old(inner_nodes) + [node]
      ensures LeafTotal() == old(LeafTotal()) + LeafBag(node.hash)
      ensures NodeTotal() == old(NodeTotal()) + NodeBag(node.hash)
      ensures PendingWeight() == old(PendingWeight()) + NodeCount(node.hash)
    {
      hide LeafBag, LeafBags, NodeBag, NodeBags, Weight, NodeCount, Nodes, DigestsOf;
      DigestsOfPush(inner_nodes, node);
      BagsPush(DigestsOf(inner_nodes), node.hash);
      inner_nodes := inner_nodes + [node];
    }

    method PushChild(trie: KeyValueTrie, node: TrieNode)
      requires Loaded(trie) && LoadedFrom(node, trie.root.value, trie.store) && node.hash.LeafKey?
      modifies this`child_nodes
      ensures Loaded(trie) && child_nodes == old(child_nodes) + [node]
      ensures LeafTotal() == old(LeafTotal()) + LeafBag(node.hash)
      ensures NodeTotal() == old(NodeTotal()) + NodeBag(node.hash)
    {
      hide LeafBag, LeafBags, NodeBag, NodeBags, Weight, NodeCount, Nodes, DigestsOf;
      DigestsOfPush(child_nodes, node);
      BagsPush(DigestsOf(child_nodes), node.hash);
      child_nodes := child_nodes + [node];
    }

    method PopInner(trie: KeyValueTrie) returns (node: TrieNode)
      requires Loaded(trie) && |inner_nodes| > 0
      modifies this`inner_nodes
      ensures Loaded(trie) && old(inner_nodes) == inner_nodes + [node]
      ensures LoadedFrom(node, trie.root.value, trie.store) && node.hash.Inner?
      ensures old(LeafTotal()) == LeafTotal() + LeafBag(node.hash)
      ensures old(NodeTotal()) == NodeTotal() + NodeBag(node.hash)
      ensures old(PendingWeight()) == PendingWeight() + NodeCount(node.hash)
    {
      hide LeafBag, LeafBags, NodeBag, NodeBags, Weight, NodeCount, Nodes, DigestsOf;
      node := inner_nodes[|inner_nodes|-1];
      DigestsOfPop(inner_nodes);
      BagsPush(DigestsOf(inner_nodes[..|inner_nodes|-1]), node.hash);
      inner_nodes := inner_nodes[..|inner_nodes|-1];
    }

    method PopChild(trie: KeyValueTrie) returns (node: TrieNode)
      requires Loaded(trie) && |child_nodes| > 0
      modifies this`child_nodes
      ensures Loaded(trie) && old(child_nodes) == child_nodes + [node]
      ensures LoadedFrom(node, trie.root.value, trie.store) && node.hash.LeafKey?
      ensures old(LeafTotal()) == LeafTotal() + LeafBag(node.hash)
      ensures old(NodeTotal()) == NodeTotal() + NodeBag(node.hash)
    {
      hide LeafBag, LeafBags, NodeBag, NodeBags, Weight, NodeCount, Nodes, DigestsOf;
      node := child_nodes[|child_nodes|-1];
      DigestsOfPop(child_nodes);
      BagsPush(DigestsOf(child_nodes[..|child_nodes|-1]), node.hash);
      child_nodes := child_nodes[..|child_nodes|-1];
    }

    /** Writes the vectors to the buffer from their backs, the inner nodes first. */
    method Flatten(trie: KeyValueTrie) returns (f: seq<Digest>)
      requires Loaded(trie)
      modifies this
      ensures |f| == old(|inner_nodes| + |child_nodes|)
      ensures LeafBags(f) == old(LeafTotal()) && NodeBags(f) == old(NodeTotal())
    {
      hide LeafBag, LeafBags, NodeBag, NodeBags, Weight, NodeCount, Nodes, DigestsOf;
      NothingCut();
      f := [];
      while |inner_nodes| > 0
        invariant Loaded(trie)
        invariant |f| + |inner_nodes| + |child_nodes| == old(|inner_nodes| + |child_nodes|)
        invariant LeafBags(f) + LeafTotal() == old(LeafTotal()) && NodeBags(f) + NodeTotal() == old(NodeTotal())
        decreases |inner_nodes|
      {
        var back := PopInner(trie);
        BagsPush(f, back.hash);
        f := f + [back.hash];
      }
      while |child_nodes| > 0
        invariant Loaded(trie) && inner_nodes == []
        invariant |f| + |child_nodes| == old(|inner_nodes| + |child_nodes|)
        invariant LeafBags(f) + LeafTotal() == old(LeafTotal()) && NodeBags(f) + NodeTotal() == old(NodeTotal())
        decreases |child_nodes|
      {
        var back := PopChild(trie);
        BagsPush(f, back.hash);
        f := f + [back.hash];
      }
    }
  }

  /** Copies a cut of the subtrie below hash into a buffer of buffersize bytes. */
  method GetSubTrie(trie: KeyValueTrie, hash: Digest, buffersize: nat) returns (buffer: Result<seq<Digest>>)
    requires trie.Valid()
    ensures buffer.Thrown? <==> buffersize < 2 * trie.HashSize() || Lookup(trie.root, hash) == NOT_FOUND
    ensures buffer.Ok? ==> CutOf(hash, trie.Capacity(buffersize), buffer.value)
    ensures buffer.Ok? ==> |buffer.value| * trie.HashSize() <= buffersize
  {
    hide Leaves, Nodes, LeafBags, NodeBags;
    CutFits(hash, trie.Capacity(buffersize), trie.HashSize(), buffersize);
    hide CutOf;
    FoundIfStored(trie.root, trie.store, trie.Keys(), trie.n, hash);
    var maxNumberOfHashes := trie.Capacity(buffersize);
    if maxNumberOfHashes < 2 {
      return Thrown;  // "buffer is too small!"
    }
    if hash !in trie.store {
      return Thrown;  // the lookup of the root node of the subtrie throws
    }
    var f := CutBelow(trie, hash, maxNumberOfHashes);
    return Ok(f);
  }

  /** The digests of a cut take no more bytes than the buffer has. */
  lemma CutFits(hash: Digest, max: nat, hs: nat, buffersize: nat)
    requires max * hs <= buffersize < (max + 1) * hs
    ensures max < 2 <==> buffersize < 2 * hs
    ensures forall f :: CutOf(hash, max, f) ==> |f| * hs <= buffersize
  {
    hide LeafBag, LeafBags, NodeBags, NodeBag;
    if max >= 2 {
      MulAtMost(hs, 2, max);
    } else {
      MulAtMost(hs, max + 1, 2);
    }
    forall f | CutOf(hash, max, f)
      ensures |f| * hs <= buffersize
    {
      MulAtMost(hs, |f|, max);
    }
  }

  method CutBelow(trie: KeyValueTrie, hash: Digest, max: nat) returns (f: seq<Digest>)
    requires trie.Valid() && max >= 2 && hash in trie.store && Lookup(trie.root, hash) != NOT_FOUND
    ensures CutOf(hash, max, f)
  {
    hide LeafBag, NodeBag, LeafBags, NodeBags, Weight, NodeCount, Nodes, Leaves, Patricia, Stored, WellFormed,
        DigestsOf;
    NothingCut();
    var cut := new CutVectors();
    var root := trie.Load(hash);
    var count := cut.GetSubTrie(trie, root, max);
    CutSize(cut.inner_nodes, cut.child_nodes, hash, max);
    f := cut.Flatten(trie);
  }

  lemma FoundIfStored(root: Option<Digest>, st: Store, keys: set<Bits>, n: nat, hash: Digest)
    requires Holds(root, st, keys, n)
    ensures hash in st <==> Lookup(root, hash) != NOT_FOUND
  {
  }

  /** A cut fills the buffer or comes down to the leaves. */
  lemma CutSize(inner: seq<TrieNode>, child: seq<TrieNode>, d: Digest, max: nat)
    requires LeafBags(DigestsOf(inner)) + LeafBags(DigestsOf(child)) == LeafBag(d)
    requires |inner| + |child| <= max && (|inner| + |child| == max || inner == [])
    requires forall x :: x in child ==> x.hash.LeafKey?
    ensures |inner| + |child| == if |LeafBag(d)| < max then |LeafBag(d)| else max
  {
    BagSize(DigestsOf(inner));
    BagSize(DigestsOf(child));
  }

  lemma BagsOfInner(d: Digest)
    requires d.Inner?
    ensures LeafBag(d) == LeafBag(d.smaller) + LeafBag(d.larger)
    ensures NodeBag(d) == multiset{d} + NodeBag(d.smaller) + NodeBag(d.larger)
    ensures NodeCount(d) == 1 + NodeCount(d.smaller) + NodeCount(d.larger)
  {
  }

  lemma ChildrenLoaded(d: Digest, st: Store, x: Digest, n: nat)
    requires WellFormed(d, st, n) && x in Nodes(d) && x.Inner?
    ensures x in st && st[x].smaller == x.smaller && st[x].larger == x.larger
    ensures x.smaller in Nodes(d) && x.larger in Nodes(d) && x.smaller in st && x.larger in st
  {
    StoredNode(d, None, st, n, x);
    NodesBelow(d, x);
  }
}
