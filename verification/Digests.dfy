/** Symbolic digests of a binary Merkle Patricia trie.

  A leaf is keyed by its own hash bits and an inner node by the hash of its two children's
  digests.  With the hash function kept symbolic, a digest is the Merkle tree below it, so the
  root digest of a trie determines everything the trie holds. */
module Digests {
  type Bits = seq<bool>

  datatype Digest = LeafKey(bits: Bits) | Inner(smaller: Digest, larger: Digest)

  function Leaves(d: Digest): (s: set<Bits>)
    ensures s != {}
  {
    match d
    case LeafKey(b) => {b}
    case Inner(l, r) => Leaves(l) + Leaves(r)
  }

  /** Every digest below and including d. */
  function Nodes(d: Digest): (s: set<Digest>)
    ensures d in s
  {
    match d
    case LeafKey(_) => {d}
    case Inner(l, r) => {d} + Nodes(l) + Nodes(r)
  }

  function NodeCount(d: Digest): (c: nat)
    ensures c >= 1
  {
    match d
    case LeafKey(_) => 1
    case Inner(l, r) => 1 + NodeCount(l) + NodeCount(r)
  }

  /** The key of the leftmost leaf, which stands for the prefix shared by all leaves. */
  function Rep(d: Digest): Bits {
    match d
    case LeafKey(b) => b
    case Inner(l, _) => Rep(l)
  }

  /** Number of leading bits two keys share. */
  function CommonPrefix(a: Bits, b: Bits): (c: nat)
    ensures c <= |a| && c <= |b|
    ensures forall i :: 0 <= i < c ==> a[i] == b[i]
    ensures c < |a| && c < |b| ==> a[c] != b[c]
  {
    if |a| == 0 || |b| == 0 || a[0] != b[0] then 0
    else
      var c := CommonPrefix(a[1..], b[1..]);
      assert forall i :: 1 <= i < c + 1 ==> a[i] == a[1..][i-1] && b[i] == b[1..][i-1];
      1 + c
  }

  ghost predicate Agree(a: Bits, b: Bits, m: nat) {
    m <= |a| && m <= |b| && forall i :: 0 <= i < m ==> a[i] == b[i]
  }

  lemma CommonPrefixAtLeast(a: Bits, b: Bits, m: nat)
    requires Agree(a, b, m)
    ensures CommonPrefix(a, b) >= m
  {
  }

  /** Two keys share just the bits before the first one that differs. */
  lemma CommonPrefixIs(a: Bits, b: Bits, m: nat)
    requires Agree(a, b, m) && m < |a| && m < |b| && a[m] != b[m]
    ensures CommonPrefix(a, b) == m
  {
    CommonPrefixAtLeast(a, b, m);
  }

  /** Length of the prefix a node stands for: all bits of a leaf, the shared bits otherwise. */
  function Mask(d: Digest): nat {
    match d
    case LeafKey(b) => |b|
    case Inner(l, r) => CommonPrefix(Rep(l), Rep(r))
  }

  /** d is a Patricia trie over n-bit keys: children extend the prefix of their parent and the
    bit just after that prefix is clear on the smaller side and set on the larger side. */
  ghost predicate Patricia(d: Digest, n: nat)
    ensures Patricia(d, n) ==> |Rep(d)| == n && Mask(d) <= n
    ensures Patricia(d, n) && d.Inner? ==> Mask(d) < n
  {
    match d
    case LeafKey(b) => |b| == n
    case Inner(l, r) =>
      && Patricia(l, n) && Patricia(r, n)
      && Mask(d) < Mask(l) && Mask(d) < Mask(r)
      && !Rep(l)[Mask(d)] && Rep(r)[Mask(d)]
  }

  lemma {:induction false} LeavesAgree(d: Digest, n: nat, k: Bits)
    requires Patricia(d, n) && k in Leaves(d)
    ensures |k| == n && Agree(k, Rep(d), Mask(d))
  {
    match d
    case LeafKey(_) =>
    case Inner(l, r) =>
      if k in Leaves(l) {
        LeavesAgree(l, n, k);
      } else {
        LeavesAgree(r, n, k);
      }
  }

  /** The bit after the shared prefix decides on which side of a node a leaf lies. */
  lemma SideOfLeaf(d: Digest, n: nat, k: Bits)
    requires Patricia(d, n) && d.Inner? && k in Leaves(d)
    ensures |k| == n && (k in Leaves(d.larger) <==> k[Mask(d)])
    ensures k in Leaves(d.smaller) <==> !k[Mask(d)]
  {
    if k in Leaves(d.smaller) {
      LeavesAgree(d.smaller, n, k);
    }
    if k in Leaves(d.larger) {
      LeavesAgree(d.larger, n, k);
    }
  }

  lemma ChildrenDisjoint(d: Digest, n: nat)
    requires Patricia(d, n) && d.Inner?
    ensures Leaves(d.smaller) !! Leaves(d.larger)
  {
    forall k | k in Leaves(d.smaller) && k in Leaves(d.larger)
      ensures false
    {
      SideOfLeaf(d, n, k);
    }
  }

  lemma {:induction false} NodesBelow(d: Digest, x: Digest)
    requires x in Nodes(d)
    ensures Leaves(x) <= Leaves(d) && Nodes(x) <= Nodes(d) && NodeCount(x) <= NodeCount(d)
    ensures x != d ==> NodeCount(x) < NodeCount(d)
    ensures forall n: nat {:trigger Patricia(d, n)} :: Patricia(d, n) ==> Patricia(x, n)
  {
    match d
    case LeafKey(_) =>
    case Inner(l, r) =>
      if x != d {
        if x in Nodes(l) {
          NodesBelow(l, x);
        } else {
          NodesBelow(r, x);
        }
      }
  }

  /** The nodes of a trie split into its root and the nodes of its two subtries. */
  lemma SubtreesDisjoint(d: Digest, n: nat)
    requires Patricia(d, n) && d.Inner?
    ensures Nodes(d.smaller) !! Nodes(d.larger)
    ensures d !in Nodes(d.smaller) && d !in Nodes(d.larger)
  {
    forall x | x in Nodes(d.smaller)
      ensures x !in Nodes(d.larger) && x != d
    {
      NodesBelow(d.smaller, x);
      ChildrenDisjoint(d, n);
      var k :| k in Leaves(x);
      assert k in Leaves(d.smaller) && k !in Leaves(d.larger);
      if x in Nodes(d.larger) {
        NodesBelow(d.larger, x);
      }
    }
    if d in Nodes(d.larger) {
      NodesBelow(d.larger, d);
    }
  }

  lemma {:induction false} LeafNodes(d: Digest, k: Bits)
    ensures LeafKey(k) in Nodes(d) <==> k in Leaves(d)
  {
    match d
    case LeafKey(_) =>
    case Inner(l, r) =>
      LeafNodes(l, k);
      LeafNodes(r, k);
  }

  /** A binary trie over m keys has 2m - 1 nodes, all different. */
  lemma {:induction false} NodesCounted(d: Digest, n: nat)
    requires Patricia(d, n)
    ensures |Nodes(d)| == NodeCount(d) == 2 * |Leaves(d)| - 1
  {
    match d
    case LeafKey(_) =>
    case Inner(l, r) =>
      NodesCounted(l, n);
      NodesCounted(r, n);
      ChildrenDisjoint(d, n);
      SubtreesDisjoint(d, n);
      assert |Nodes(d)| == 1 + |Nodes(l)| + |Nodes(r)|;
      assert |Leaves(d)| == |Leaves(l)| + |Leaves(r)|;
  }

  /** Canonical form: a set of keys has exactly one Patricia trie, hence one root digest. */
  lemma {:induction false} Canonical(d: Digest, e: Digest, n: nat)
    requires Patricia(d, n) && Patricia(e, n)
    requires Leaves(d) == Leaves(e)
    ensures d == e
  {
    if d.LeafKey? {
      SingleLeaf(e, n, d.bits);
    } else if e.LeafKey? {
      SingleLeaf(d, n, e.bits);
    } else {
      SameSides(d, e, n);
      Canonical(d.smaller, e.smaller, n);
      Canonical(d.larger, e.larger, n);
    }
  }

  /** Tries over the same keys have the same keys on either side. */
  lemma SameSides(d: Digest, e: Digest, n: nat)
    requires Patricia(d, n) && Patricia(e, n) && d.Inner? && e.Inner? && Leaves(d) == Leaves(e)
    ensures Leaves(d.smaller) == Leaves(e.smaller) && Leaves(d.larger) == Leaves(e.larger)
  {
    MaskNotAbove(d, e, n);
    MaskNotAbove(e, d, n);
    hide CommonPrefix, Mask, Rep;
    forall k
      ensures k in Leaves(d.smaller) <==> k in Leaves(e.smaller)
      ensures k in Leaves(d.larger) <==> k in Leaves(e.larger)
    {
      if k in Leaves(d) {
        SideOfLeaf(d, n, k);
        SideOfLeaf(e, n, k);
      }
    }
  }

  lemma SingleLeaf(d: Digest, n: nat, k: Bits)
    requires Patricia(d, n) && Leaves(d) == {k}
    ensures d == LeafKey(k)
  {
    if d.Inner? {
      ChildrenDisjoint(d, n);
      assert false;
    }
  }

  /** Tries over the same keys branch no later than each other. */
  lemma MaskNotAbove(d: Digest, e: Digest, n: nat)
    requires Patricia(d, n) && Patricia(e, n) && d.Inner? && e.Inner?
    requires Leaves(d) == Leaves(e)
    ensures Mask(d) >= Mask(e)
  {
    var a, b :| a in Leaves(d.smaller) && b in Leaves(d.larger);
    assert a in Leaves(d) && b in Leaves(d);
    SideOfLeaf(d, n, a);
    SideOfLeaf(d, n, b);
    ChildrenDisjoint(d, n);
    LeavesAgree(e, n, a);
    LeavesAgree(e, n, b);
  }
}
