/** The flat records of a trie in a key-value store, and the path from a node up to the root. */
module TrieStore {
  import opened Digests
  import opened Wrappers

  /** The value stored under a node's digest.  parent, smaller and larger mean something only
    when hasParent or hasChildren is set. */
  datatype Record = Record(
    parent: Digest, smaller: Digest, larger: Digest,
    prefix: Bits, mask: nat,
    hasChildren: bool, hasParent: bool, dirty: bool)

  type Store = map<Digest, Record>

  ghost predicate RecordOk(d: Digest, par: Option<Digest>, r: Record, n: nat) {
    && (r.hasParent <==> par.Some?)
    && (par.Some? ==> r.parent == par.value)
    && (r.hasChildren <==> d.Inner?)
    && (d.Inner? ==> r.smaller == d.smaller && r.larger == d.larger)
    && r.mask == Mask(d) && |r.prefix| == n && |Rep(d)| == n
    && Agree(r.prefix, Rep(d), Mask(d))
    && !r.dirty
  }

  /** The store holds the subtrie d, linked both ways, below the parent par. */
  ghost predicate Stored(d: Digest, par: Option<Digest>, st: Store, n: nat)
    decreases d
  {
    && d in st && RecordOk(d, par, st[d], n)
    && Below(d, st, n)
  }

  /** The subtries under d are stored as children of d; d's own record does not matter. */
  ghost predicate Below(d: Digest, st: Store, n: nat)
    decreases d, 0
  {
    d.Inner? ==> Stored(d.smaller, Some(d), st, n) && Stored(d.larger, Some(d), st, n)
  }

  /** The store holds exactly the trie with this root digest. */
  ghost predicate WellFormed(root: Digest, st: Store, n: nat) {
    Patricia(root, n) && Stored(root, None, st, n) && st.Keys == Nodes(root)
  }

  // ----- reading a stored trie

  lemma {:induction false} StoredNode(d: Digest, par: Option<Digest>, st: Store, n: nat, x: Digest)
    requires Stored(d, par, st, n) && x in Nodes(d)
    ensures x in st && st[x].hasChildren == x.Inner? && st[x].mask == Mask(x) && !st[x].dirty
    ensures x.Inner? ==> st[x].smaller == x.smaller && st[x].larger == x.larger
    ensures |st[x].prefix| == n && |Rep(x)| == n && Agree(st[x].prefix, Rep(x), Mask(x))
  {
    if x != d {
      if x in Nodes(d.smaller) {
        StoredNode(d.smaller, Some(d), st, n, x);
      } else {
        StoredNode(d.larger, Some(d), st, n, x);
      }
    }
  }

  lemma StoredChildren(d: Digest, par: Option<Digest>, st: Store, n: nat)
    requires Stored(d, par, st, n) && d.Inner?
    ensures Stored(d.smaller, Some(d), st, n) && Stored(d.larger, Some(d), st, n)
    ensures d.smaller in st && d.larger in st
    ensures RecordOk(d.smaller, Some(d), st[d.smaller], n) && RecordOk(d.larger, Some(d), st[d.larger], n)
  {
    assert Below(d, st, n);
  }

  lemma {:induction false} StoredFrame(d: Digest, par: Option<Digest>, st: Store, st': Store, n: nat)
    requires Stored(d, par, st, n)
    requires forall x :: x in Nodes(d) && x in st ==> x in st' && st'[x] == st[x]
    ensures Stored(d, par, st', n)
    decreases d
  {
    if d.Inner? {
      StoredFrame(d.smaller, Some(d), st, st', n);
      StoredFrame(d.larger, Some(d), st, st', n);
    }
  }

  lemma BelowFrame(d: Digest, st: Store, st': Store, n: nat)
    requires Below(d, st, n)
    requires forall x :: x in Nodes(d) && x != d && x in st ==> x in st' && st'[x] == st[x]
    ensures Below(d, st', n)
  {
    if d.Inner? {
      forall x | x in Nodes(d.smaller) || x in Nodes(d.larger)
        ensures x in Nodes(d) && x != d
      {
        if x in Nodes(d.smaller) {
          NodesBelow(d.smaller, x);
        } else {
          NodesBelow(d.larger, x);
        }
      }
      StoredFrame(d.smaller, Some(d), st, st', n);
      StoredFrame(d.larger, Some(d), st, st', n);
    }
  }

  // ----- the path from a node to the root

  /** What surrounds a subtrie: its sibling, the side it hangs on, and the rest of the path. */
  datatype Path = Top | Up(sibling: Digest, onLarger: bool, rest: Path)

  function Join(sibling: Digest, onLarger: bool, d: Digest): Digest {
    if onLarger then Inner(sibling, d) else Inner(d, sibling)
  }

  /** The whole trie, with d at the bottom of the path. */
  function Plug(p: Path, d: Digest): Digest {
    match p
    case Top => d
    case Up(s, onLarger, rest) => Plug(rest, Join(s, onLarger, d))
  }

  function ParentOf(p: Path, d: Digest): Option<Digest> {
    match p
    case Top => None
    case Up(s, onLarger, _) => Some(Join(s, onLarger, d))
  }

  function Ancestors(p: Path, d: Digest): set<Digest> {
    match p
    case Top => {}
    case Up(s, onLarger, rest) => {Join(s, onLarger, d)} + Ancestors(rest, Join(s, onLarger, d))
  }

  function SiblingNodes(p: Path): set<Digest> {
    match p
    case Top => {}
    case Up(s, _, rest) => Nodes(s) + SiblingNodes(rest)
  }

  function SiblingLeaves(p: Path): set<Bits> {
    match p
    case Top => {}
    case Up(s, _, rest) => Leaves(s) + SiblingLeaves(rest)
  }

  ghost predicate PathStored(p: Path, d: Digest, st: Store, n: nat) {
    match p
    case Top => true
    case Up(s, onLarger, rest) =>
      var q := Join(s, onLarger, d);
      && q in st && RecordOk(q, ParentOf(rest, q), st[q], n)
      && Stored(s, Some(q), st, n)
      && PathStored(rest, q, st, n)
  }

  lemma {:induction false} PlugParts(p: Path, d: Digest)
    ensures Nodes(Plug(p, d)) == Nodes(d) + Ancestors(p, d) + SiblingNodes(p)
    ensures Leaves(Plug(p, d)) == Leaves(d) + SiblingLeaves(p)
    ensures forall x :: x in Ancestors(p, d) ==> Leaves(d) <= Leaves(x)
    ensures forall x :: x in SiblingNodes(p) ==> Leaves(x) <= SiblingLeaves(p)
  {
    match p
    case Top =>
    case Up(s, onLarger, rest) =>
      PlugParts(rest, Join(s, onLarger, d));
      forall x | x in Nodes(s)
        ensures Leaves(x) <= Leaves(s)
      {
        NodesBelow(s, x);
      }
  }

  lemma {:induction false} PatriciaInPlug(p: Path, d: Digest, n: nat)
    requires Patricia(Plug(p, d), n)
    ensures Patricia(d, n)
  {
    match p
    case Top =>
    case Up(s, onLarger, rest) => PatriciaInPlug(rest, Join(s, onLarger, d), n);
  }

  /** Nodes on and beside the path are told apart from the nodes below it by their leaves. */
  lemma {:induction false} PathDisjoint(p: Path, d: Digest, n: nat)
    requires Patricia(Plug(p, d), n)
    ensures Leaves(d) !! SiblingLeaves(p)
    ensures forall x :: x in Ancestors(p, d) ==> Leaves(d) < Leaves(x)
  {
    match p
    case Top =>
    case Up(s, onLarger, rest) =>
      var q := Join(s, onLarger, d);
      PathDisjoint(rest, q, n);
      PatriciaInPlug(rest, q, n);
      ChildrenDisjoint(q, n);
      var k :| k in Leaves(s);
      assert k in Leaves(q) && k !in Leaves(d);
  }

  lemma {:induction false} PlugStored(p: Path, d: Digest, st: Store, n: nat)
    ensures Stored(Plug(p, d), None, st, n) <==> Stored(d, ParentOf(p, d), st, n) && PathStored(p, d, st, n)
  {
    match p
    case Top =>
    case Up(s, onLarger, rest) => PlugStored(rest, Join(s, onLarger, d), st, n);
  }

  lemma {:induction false} PathFrame(p: Path, d: Digest, st: Store, st': Store, n: nat)
    requires PathStored(p, d, st, n)
    requires forall x :: (x in Ancestors(p, d) || x in SiblingNodes(p)) && x in st ==> x in st' && st'[x] == st[x]
    ensures PathStored(p, d, st', n)
  {
    match p
    case Top =>
    case Up(s, onLarger, rest) =>
      StoredFrame(s, Some(Join(s, onLarger, d)), st, st', n);
      PathFrame(rest, Join(s, onLarger, d), st, st', n);
  }

  /** A path leads from every node up to the root. */
  lemma {:induction false} FindPath(d: Digest, x: Digest, above: Path) returns (p: Path)
    requires x in Nodes(d)
    ensures Plug(p, x) == Plug(above, d)
  {
    if x == d {
      p := above;
    } else if x in Nodes(d.smaller) {
      p := FindPath(d.smaller, x, Up(d.larger, false, above));
    } else {
      p := FindPath(d.larger, x, Up(d.smaller, true, above));
    }
  }

  // ----- replacing the subtrie at the bottom of a path

  /** c can take the place of o beside s: it keeps the prefix and the branch bit of the parent. */
  ghost predicate FitsBeside(s: Digest, onLarger: bool, o: Digest, c: Digest, n: nat) {
    var m := Mask(Join(s, onLarger, o));
    m < Mask(c) && |Rep(c)| == n && |Rep(o)| == n && m < n && Agree(Rep(c), Rep(o), m + 1)
  }

  ghost predicate Fits(p: Path, o: Digest, c: Digest, n: nat) {
    p.Up? ==> FitsBeside(p.sibling, p.onLarger, o, c, n)
  }

  lemma FitsOneUp(s: Digest, onLarger: bool, o: Digest, c: Digest, n: nat)
    requires Patricia(Join(s, onLarger, o), n) && Patricia(c, n)
    requires FitsBeside(s, onLarger, o, c, n)
    ensures Patricia(Join(s, onLarger, c), n)
    ensures Mask(Join(s, onLarger, c)) == Mask(Join(s, onLarger, o))
    ensures Agree(Rep(Join(s, onLarger, c)), Rep(Join(s, onLarger, o)), Mask(Join(s, onLarger, o)) + 1)
  {
    var q, q' := Join(s, onLarger, o), Join(s, onLarger, c);
    var m := Mask(q);
    assert Rep(q'.smaller)[m] != Rep(q'.larger)[m];
    CommonPrefixIs(Rep(q'.smaller), Rep(q'.larger), m);
    hide CommonPrefix;
  }

  lemma FitsAbove(s: Digest, onLarger: bool, q: Digest, q': Digest, n: nat)
    requires Patricia(Join(s, onLarger, q), n) && Patricia(q', n)
    requires Mask(q') == Mask(q) < n && Agree(Rep(q'), Rep(q), Mask(q) + 1)
    ensures FitsBeside(s, onLarger, q, q', n)
  {
    assert Mask(Join(s, onLarger, q)) < Mask(q);
  }

  lemma {:induction false} ReplaceKeepsPatricia(p: Path, o: Digest, c: Digest, n: nat)
    requires Patricia(Plug(p, o), n) && Patricia(c, n) && Fits(p, o, c, n)
    ensures Patricia(Plug(p, c), n)
  {
    match p
    case Top =>
    case Up(s, onLarger, rest) =>
      var q, q' := Join(s, onLarger, o), Join(s, onLarger, c);
      PatriciaInPlug(rest, q, n);
      FitsOneUp(s, onLarger, o, c, n);
      assert Fits(rest, q, q', n) by {
        if rest.Up? {
          PatriciaInPlug(rest.rest, Join(rest.sibling, rest.onLarger, q), n);
          FitsAbove(rest.sibling, rest.onLarger, q, q', n);
        }
      }
      ReplaceKeepsPatricia(rest, q, q', n);
  }

  // ----- rehashing the ancestors, one at a time

  /** The subtrie c differs from o by the one key k, which lies nowhere else in the trie. */
  ghost predicate OneKeyApart(p: Path, o: Digest, c: Digest, k: Bits, n: nat) {
    && Patricia(Plug(p, o), n) && Patricia(Plug(p, c), n)
    && k !in SiblingLeaves(p)
    && (k in Leaves(c) <==> k !in Leaves(o))
    && Leaves(c) <= Leaves(o) + {k} && Leaves(o) <= Leaves(c) + {k}
  }

  /** Half way up the rehash: the old subtrie o is still linked into the old path, and the new
    subtrie c is complete up to its own record. */
  ghost predicate Climbing(p: Path, o: Digest, c: Digest, k: Bits, st: Store, n: nat) {
    OneKeyApart(p, o, c, k, n) && PathStored(p, o, st, n) && Below(c, st, n)
  }

  lemma {:induction false} AncestorKeys(p: Path, o: Digest)
    ensures forall x :: x in Ancestors(p, o) ==> Leaves(x) <= Leaves(o) + SiblingLeaves(p)
  {
    match p
    case Top =>
    case Up(s, onLarger, rest) => AncestorKeys(rest, Join(s, onLarger, o));
  }

  /** The new subtrie is a node the old path does not have, and so is its new parent. */
  lemma NewNodesAreNew(p: Path, o: Digest, c: Digest, k: Bits, n: nat)
    requires OneKeyApart(p, o, c, k, n)
    ensures c !in Ancestors(p, o) && c !in SiblingNodes(p)
  {
    PathDisjoint(p, o, n);
    PathDisjoint(p, c, n);
    PlugParts(p, o);
    AncestorKeys(p, o);
    var x :| x in Leaves(c);
    assert x !in SiblingLeaves(p);
  }

  lemma OneKeyApartAbove(p: Path, o: Digest, c: Digest, k: Bits, n: nat)
    requires p.Up? && OneKeyApart(p, o, c, k, n)
    ensures OneKeyApart(p.rest, Join(p.sibling, p.onLarger, o), Join(p.sibling, p.onLarger, c), k, n)
  {
  }

  /** Giving a stored subtrie another parent changes only its own record. */
  lemma Reparented(d: Digest, par: Option<Digest>, q: Digest, st: Store, st': Store, n: nat)
    requires Stored(d, par, st, n)
    requires d in st' && st'[d] == st[d].(hasParent := true, parent := q)
    requires forall x :: x in Nodes(d) && x != d && x in st ==> x in st' && st'[x] == st[x]
    ensures Stored(d, Some(q), st', n)
  {
    BelowFrame(d, st, st', n);
  }

  lemma Unparented(d: Digest, par: Option<Digest>, st: Store, st': Store, n: nat)
    requires Stored(d, par, st, n)
    requires d in st' && st'[d] == st[d].(hasParent := false)
    requires forall x :: x in Nodes(d) && x != d && x in st ==> x in st' && st'[x] == st[x]
    ensures Stored(d, None, st', n)
  {
    BelowFrame(d, st, st', n);
  }

  /** What one round of the climb does to the store: the sibling and the new child are linked to
    the new parent q; only these and q itself are written. */
  ghost predicate Relinked(s: Digest, c: Digest, q: Digest, st: Store, st': Store, n: nat) {
    && s in st && s in st' && st'[s] == st[s].(hasParent := true, parent := q)
    && c in st' && RecordOk(c, Some(q), st'[c], n)
    && forall x :: x in st && x != s && x != c && x != q ==> x in st' && st'[x] == st[x]
  }

  /** The sibling is no node of the path above its parent. */
  lemma SiblingOutside(p: Path, o: Digest, n: nat)
    requires p.Up? && Patricia(Plug(p, o), n)
    ensures var q0 := Join(p.sibling, p.onLarger, o);
            p.sibling !in Ancestors(p.rest, q0) && p.sibling !in SiblingNodes(p.rest)
  {
    var q0 := Join(p.sibling, p.onLarger, o);
    PathDisjoint(p.rest, q0, n);
    PlugParts(p.rest, q0);
    var x :| x in Leaves(p.sibling);
    assert x in Leaves(q0) && x !in SiblingLeaves(p.rest);
  }

  lemma RestOfPathKept(p: Path, o: Digest, c: Digest, k: Bits, st: Store, st': Store, n: nat)
    requires p.Up? && Climbing(p, o, c, k, st, n)
    requires Relinked(p.sibling, c, Join(p.sibling, p.onLarger, c), st, st', n)
    ensures PathStored(p.rest, Join(p.sibling, p.onLarger, o), st', n)
  {
    var s, rest := p.sibling, p.rest;
    var q0, q := Join(s, p.onLarger, o), Join(s, p.onLarger, c);
    hide CommonPrefix, Patricia, Mask, Rep, Stored, Leaves, Nodes, RecordOk, OneKeyApart, Below;
    NewNodesAreNew(p, o, c, k, n);
    OneKeyApartAbove(p, o, c, k, n);
    NewNodesAreNew(rest, q0, q, k, n);
    SiblingOutside(p, o, n);
    PathFrame(rest, q0, st, st', n);
  }

  lemma NewParentBelow(p: Path, o: Digest, c: Digest, k: Bits, st: Store, st': Store, n: nat)
    requires p.Up? && Climbing(p, o, c, k, st, n)
    requires Relinked(p.sibling, c, Join(p.sibling, p.onLarger, c), st, st', n)
    ensures Below(Join(p.sibling, p.onLarger, c), st', n)
  {
    var s, q := p.sibling, Join(p.sibling, p.onLarger, c);
    OneKeyApartAbove(p, o, c, k, n);
    PatriciaInPlug(p.rest, q, n);
    SubtreesDisjoint(q, n);
    Reparented(s, Some(Join(s, p.onLarger, o)), q, st, st', n);
    BelowFrame(c, st, st', n);
  }

  lemma ClimbStep(p: Path, o: Digest, c: Digest, k: Bits, st: Store, st': Store, n: nat)
    requires p.Up? && Climbing(p, o, c, k, st, n)
    requires Relinked(p.sibling, c, Join(p.sibling, p.onLarger, c), st, st', n)
    ensures Climbing(p.rest, Join(p.sibling, p.onLarger, o), Join(p.sibling, p.onLarger, c), k, st', n)
  {
    hide OneKeyApart, PathStored, Below, Relinked;
    OneKeyApartAbove(p, o, c, k, n);
    RestOfPathKept(p, o, c, k, st, st', n);
    NewParentBelow(p, o, c, k, st, st', n);
  }
}
