/** One direction of a synchronization: what stays true of the hashes that one process sends and of
  the acks that come back, and what it has reported of its own set. */
module SyncCore {
  import opened Digests
  import opened KeyValueTries
  import opened Wrappers
  import opened Cuts
  import opened Sequences
  import opened SyncSpec

  function KeysOf(root: Option<Digest>): set<Bits> {
    if root.None? then {} else Leaves(root.value)
  }

  /** A sent hash not yet answered is answered next by the acks on their way, in order, and the
    hashes behind those are the ones still on their way to the peer. */
  ghost predicate Aligned(sent: seq<Digest>, acks: seq<bool>, flying: seq<Digest>, peer: Option<Digest>) {
    && |sent| == |acks| + |flying|
    && sent[|acks|..] == flying
    && forall i :: 0 <= i < |acks| ==> acks[i] == (Lookup(peer, sent[i]) == NOT_FOUND)
  }

  /** Every key the peer lacks is in exactly one place: reported, below a pending subtrie, or below
    an unanswered hash. */
  ghost predicate Conserved(d: Digest, p: Process, reported: seq<Digest>, peerKeys: set<Bits>) {
    && (forall h :: h in reported ==> h.LeafKey? && h.bits !in peerKeys)
    && forall k :: k !in peerKeys ==>
         multiset(reported)[LeafKey(k)] + LeafBags(p.pendingSubtries)[k] + LeafBags(p.sentHashes)[k] == LeafBag(d)[k]
  }

  /** Every node of the trie is still to be sent at most once. */
  ghost predicate Budgeted(d: Digest, p: Process, history: seq<Digest>) {
    match d
    case LeafKey(_) =>
      || (p.pendingSubtries == [d] && p.sentHashes == [] && history == [])
      || (p.pendingSubtries == [] && history == [d] && (p.sentHashes == [d] || p.sentHashes == []))
    case Inner(_, _) =>
      && (forall x :: x in p.pendingSubtries ==> x.Inner?)
      && multiset(history) + NodeBags(p.pendingSubtries) + NodeBags(p.sentHashes) + multiset{d}
         <= NodeBag(d) + multiset(p.pendingSubtries) + multiset(p.sentHashes)
  }

  ghost predicate OwnNodes(d: Digest, p: Process) {
    && (forall x :: x in p.pendingSubtries ==> x in Nodes(d))
    && (forall x :: x in p.sentHashes ==> x in Nodes(d))
  }

  ghost predicate NotStarted(p: Process, reported: seq<Digest>, history: seq<Digest>) {
    p.pendingSubtries == [] && p.sentHashes == [] && reported == [] && history == []
  }

  /** The trie phase is on its way. */
  ghost predicate Running(d: Digest, p: Process, reported: seq<Digest>, history: seq<Digest>, peerKeys: set<Bits>) {
    OwnNodes(d, p) && Conserved(d, p, reported, peerKeys) && Budgeted(d, p, history)
  }

  /** The invariant of one direction. */
  ghost predicate Core(own: Option<Digest>, peer: Option<Digest>, p: Process, reported: seq<Digest>,
                       history: seq<Digest>, acks: seq<bool>, flying: seq<Digest>)
  {
    && Aligned(p.sentHashes, acks, flying, peer)
    && (p.stat == EQUAL ==> own == peer && own.Some?)
    && (p.stat == START ==> NotStarted(p, reported, history))
    && ((NotStarted(p, reported, history) && p.stat != TRIE) || Started(own, peer, p, reported, history))
  }

  ghost predicate Started(own: Option<Digest>, peer: Option<Digest>, p: Process, reported: seq<Digest>,
                          history: seq<Digest>) {
    p.stat != START && own.Some? && Running(own.value, p, reported, history, KeysOf(peer))
  }

  // ----- bags of queues

  lemma {:induction false} LeafBagKeys(d: Digest, k: Bits)
    ensures k in LeafBag(d) <==> k in Leaves(d)
  {
    if d.Inner? {
      LeafBagKeys(d.smaller, k);
      LeafBagKeys(d.larger, k);
    }
  }

  lemma BagsFront(v: seq<Digest>)
    requires v != []
    ensures LeafBags(v) == LeafBag(v[0]) + LeafBags(v[1..])
    ensures NodeBags(v) == NodeBag(v[0]) + NodeBags(v[1..])
    ensures multiset(v) == multiset{v[0]} + multiset(v[1..])
    ensures Weight(v) == NodeCount(v[0]) + Weight(v[1..])
  {
    assert v == [v[0]] + v[1..];
    assert [] + [v[0]] == [v[0]];
    BagsPush([], v[0]);
    assert LeafBags([]) == multiset{} && NodeBags([]) == multiset{} && Weight([]) == 0;
    hide LeafBags, NodeBags, Weight, LeafBag, NodeBag, NodeCount;
    BagsConcat([v[0]], v[1..]);
    WeightConcat([v[0]], v[1..]);
    SeqMultiset([v[0]], v[1..]);
  }

  lemma BagsBack(v: seq<Digest>)
    requires v != []
    ensures LeafBags(v) == LeafBags(v[..|v|-1]) + LeafBag(v[|v|-1])
    ensures NodeBags(v) == NodeBags(v[..|v|-1]) + NodeBag(v[|v|-1])
    ensures multiset(v) == multiset(v[..|v|-1]) + multiset{v[|v|-1]}
    ensures Weight(v) == Weight(v[..|v|-1]) + NodeCount(v[|v|-1])
  {
    var init, x := v[..|v|-1], v[|v|-1];
    assert v == init + [x];
    hide LeafBags, NodeBags, Weight, LeafBag, NodeBag, NodeCount, Leaves, Nodes;
    BagsPush(init, x);
    assert multiset(v) == multiset(init) + multiset([x]) by {
      SeqMultiset(init, [x]);
    }
  }

  lemma SeqMultiset<T>(a: seq<T>, b: seq<T>)
    ensures multiset(a + b) == multiset(a) + multiset(b)
  {
  }

  lemma {:induction false} WeightConcat(v: seq<Digest>, w: seq<Digest>)
    ensures Weight(v + w) == Weight(v) + Weight(w)
  {
    if w == [] {
      assert v + w == v;
    } else {
      WeightConcat(v, w[..|w|-1]);
      assert (v + w)[..|v+w|-1] == v + w[..|w|-1];
    }
  }

  // ----- starting

  lemma StartKeepsCore(own: Option<Digest>, peer: Option<Digest>, p: Process, reported: seq<Digest>,
                       history: seq<Digest>, acks: seq<bool>, flying: seq<Digest>)
    requires Core(own, peer, p, reported, history, acks, flying)
    ensures Core(own, peer, Starts(p, own), reported, history, acks, flying)
  {
    if p.stat == START && own.Some? {
      var q := Starts(p, own);
      assert q.pendingSubtries == [own.value];
      StartRunning(own.value, q, KeysOf(peer));
    }
  }

  lemma StartRunning(d: Digest, p: Process, peerKeys: set<Bits>)
    requires p.pendingSubtries == [d] && p.sentHashes == []
    ensures Running(d, p, [], [], peerKeys)
  {
    StartBags(d);
    hide LeafBags, NodeBags, LeafBag, NodeBag, Leaves, Nodes;
    assert Conserved(d, p, [], peerKeys);
    assert Budgeted(d, p, []) by {
      assert multiset(p.pendingSubtries) == multiset{d};
    }
  }

  lemma StartBags(d: Digest)
    ensures LeafBags([d]) == LeafBag(d) && NodeBags([d]) == NodeBag(d)
    ensures LeafBags([]) == multiset{} && NodeBags([]) == multiset{}
    ensures d in Nodes(d)
  {
    assert [] + [d] == [d];
    BagsPush([], d);
  }

  // ----- sending

  lemma SendBudgeted(d: Digest, p: Process, p': Process, history: seq<Digest>, f: seq<Digest>, max: nat, n: nat)
    requires Patricia(d, n) && max >= 2 && p.pendingSubtries != [] && OwnNodes(d, p) && Budgeted(d, p, history)
    requires CutOf(SyncSpec.Topmost(p), max, f)
    requires p'.pendingSubtries == Popped(p).pendingSubtries && p'.sentHashes == p.sentHashes + f
    ensures Budgeted(d, p', history + f)
  {
    var x := SyncSpec.Topmost(p);
    if d.LeafKey? {
      assert x == d;
      CutOfLeaf(d, max, f);
    } else {
      hide LeafBag, LeafBags, NodeBag, NodeBags, Nodes, Leaves, Patricia;
      CutNodes(x, max, f);
      hide CutOf;
      BagsBack(p.pendingSubtries);
      BagsConcat(p.sentHashes, f);
      SeqMultiset(p.sentHashes, f);
      SeqMultiset(history, f);
      BudgetMoves(multiset(history), NodeBags(p'.pendingSubtries), NodeBags(p.sentHashes), NodeBags(f), NodeBag(x),
                  NodeBag(d), multiset{d}, multiset(p'.pendingSubtries), multiset(p.sentHashes), multiset(f),
                  multiset{x});
    }
  }

  lemma BudgetMoves(h: multiset<Digest>, np: multiset<Digest>, ns: multiset<Digest>, nf: multiset<Digest>,
                    nx: multiset<Digest>, nd: multiset<Digest>, d: multiset<Digest>, mp: multiset<Digest>,
                    ms: multiset<Digest>, mf: multiset<Digest>, x: multiset<Digest>)
    requires h + (np + nx) + ns + d <= nd + (mp + x) + ms && nf + x <= nx
    ensures (h + mf) + np + (ns + nf) + d <= nd + mp + (ms + mf)
  {
    forall y
      ensures ((h + mf) + np + (ns + nf) + d)[y] <= (nd + mp + (ms + mf))[y]
    {
      assert (h + (np + nx) + ns + d)[y] <= (nd + (mp + x) + ms)[y];
      assert (nf + x)[y] <= nx[y];
    }
  }

  lemma CutNodes(x: Digest, max: nat, f: seq<Digest>)
    requires CutOf(x, max, f)
    ensures x.Inner? ==> NodeBags(f) + multiset{x} <= NodeBag(x)
  {
  }

  lemma CutOfLeaf(d: Digest, max: nat, f: seq<Digest>)
    requires d.LeafKey? && max >= 2 && CutOf(d, max, f)
    ensures f == [d]
  {
    assert |f| == 1;
    BagsAt(f, 0);
    assert NodeBag(f[0])[f[0]] >= 1;
    assert f[0] in NodeBag(d);
  }

  /** Pending subtries are nodes of the unchanged trie, so none is ever dropped. */
  lemma SendTakesTop(d: Digest, p: Process, p': Process, f: seq<Digest>, max: nat, hs: nat)
    requires max >= 2 && OwnNodes(d, p) && p.pendingSubtries != []
    requires GetsSubTrie(p, Some(d), max, hs, p', f)
    ensures SyncSpec.Topmost(p) in Nodes(d) && CutOf(SyncSpec.Topmost(p), max, f)
    ensures p' == Popped(p).(sentHashes := p.sentHashes + f, sentBytes := p.sentBytes + Size(f, hs))
  {
    hide CutOf, Nodes, Size;
  }

  lemma SendKeepsRunning(d: Digest, p: Process, p': Process, reported: seq<Digest>, history: seq<Digest>,
                         f: seq<Digest>, peerKeys: set<Bits>, max: nat, n: nat)
    requires Patricia(d, n) && max >= 2 && Running(d, p, reported, history, peerKeys)
    requires p.pendingSubtries != [] && CutOf(SyncSpec.Topmost(p), max, f)
    requires p'.pendingSubtries == Popped(p).pendingSubtries && p'.sentHashes == p.sentHashes + f
    ensures Running(d, p', reported, history + f, peerKeys) && f != []
  {
    hide LeafBag, LeafBags, NodeBag, NodeBags, Leaves, Patricia, Budgeted, Conserved, CutOf, Nodes;
    SendBudgeted(d, p, p', history, f, max, n);
    CutInside(d, SyncSpec.Topmost(p), max, f, n);
    SendConserved(d, p, p', reported, f, peerKeys);
  }

  lemma SendConserved(d: Digest, p: Process, p': Process, reported: seq<Digest>, f: seq<Digest>, peerKeys: set<Bits>)
    requires p.pendingSubtries != [] && Conserved(d, p, reported, peerKeys)
    requires LeafBags(f) == LeafBag(SyncSpec.Topmost(p))
    requires p'.pendingSubtries == Popped(p).pendingSubtries && p'.sentHashes == p.sentHashes + f
    ensures Conserved(d, p', reported, peerKeys)
  {
    hide LeafBag, LeafBags, NodeBag, NodeBags;
    BagsBack(p.pendingSubtries);
    BagsConcat(p.sentHashes, f);
    forall k | k !in peerKeys
      ensures multiset(reported)[LeafKey(k)] + LeafBags(p'.pendingSubtries)[k] + LeafBags(p'.sentHashes)[k]
              == LeafBag(d)[k]
    {
      assert LeafBags(p.pendingSubtries)[k] == LeafBags(p'.pendingSubtries)[k] + LeafBag(SyncSpec.Topmost(p))[k];
    }
  }

  lemma CutInside(d: Digest, x: Digest, max: nat, f: seq<Digest>, n: nat)
    requires Patricia(d, n) && x in Nodes(d) && CutOf(x, max, f)
    ensures forall y :: y in f ==> y in Nodes(d)
    ensures LeafBags(f) == LeafBag(x) && (max > 0 ==> f != [])
  {
    NodesBelow(d, x);
    CutPartitions(x, max, f, n);
  }

  lemma SendKeepsCore(own: Option<Digest>, peer: Option<Digest>, p: Process, p': Process, reported: seq<Digest>,
                      history: seq<Digest>, acks: seq<bool>, flying: seq<Digest>, f: seq<Digest>,
                      max: nat, hs: nat, n: nat)
    requires own.Some? ==> Patricia(own.value, n)
    requires Core(own, peer, p, reported, history, acks, flying) && max >= 2
    requires GetsSubTrie(p, own, max, hs, p', f)
    ensures Core(own, peer, p', reported, history + f, acks, flying + f)
    ensures p'.sentBytes == p.sentBytes + Size(f, hs)
    ensures f == [] <==> p.pendingSubtries == []
    ensures p' == p.(sentHashes := p'.sentHashes, pendingSubtries := p'.pendingSubtries, sentBytes := p'.sentBytes)
  {
    assert Size([], hs) == 0;
    hide Size, CutOf, Patricia, Conserved, Budgeted, Aligned;
    if p.pendingSubtries == [] {
      assert history + f == history && flying + f == flying;
    } else {
      SendTakesTop(own.value, p, p', f, max, hs);
      SendKeepsRunning(own.value, p, p', reported, history, f, KeysOf(peer), max, n);
      AlignedAfterSend(p.sentHashes, acks, flying, peer, f);
    }
  }

  lemma AlignedAfterSend(sent: seq<Digest>, acks: seq<bool>, flying: seq<Digest>, peer: Option<Digest>, f: seq<Digest>)
    requires Aligned(sent, acks, flying, peer)
    ensures Aligned(sent + f, acks, flying + f, peer)
  {
    assert (sent + f)[|acks|..] == sent[|acks|..] + f;
  }

  // ----- the peer answers

  lemma AnswerKeepsCore(own: Option<Digest>, peer: Option<Digest>, p: Process, reported: seq<Digest>,
                        history: seq<Digest>, acks: seq<bool>, f: seq<Digest>, flying: seq<Digest>)
    requires Core(own, peer, p, reported, history, acks, f + flying)
    ensures Core(own, peer, p, reported, history, acks + Verdicts(peer, f), flying)
  {
    hide Running;
    var sent, v := p.sentHashes, acks + Verdicts(peer, f);
    forall i | 0 <= i < |v|
      ensures v[i] == (Lookup(peer, sent[i]) == NOT_FOUND)
    {
      if i >= |acks| {
        assert sent[i] == sent[|acks|..][i-|acks|] == f[i-|acks|];
      }
    }
    assert sent[|v|..] == sent[|acks|..][|f|..] == flying;
  }

  // ----- an ack comes back

  lemma AckAligned(sent: seq<Digest>, ack: bool, acks: seq<bool>, flying: seq<Digest>, peer: Option<Digest>)
    requires Aligned(sent, [ack] + acks, flying, peer)
    ensures sent != [] && Aligned(sent[1..], acks, flying, peer)
    ensures ack == (Lookup(peer, sent[0]) == NOT_FOUND)
  {
    var v := [ack] + acks;
    assert v[0] == ack && forall i :: 0 <= i < |acks| ==> v[i+1] == acks[i];
    assert sent[1..][|acks|..] == sent[|v|..];
  }

  /** A hash the peer knows has no key the peer lacks; a leaf it does not know is such a key. */
  lemma AckMeaning(h: Digest, peer: Option<Digest>)
    ensures Lookup(peer, h) != NOT_FOUND ==> forall k :: k !in KeysOf(peer) ==> LeafBag(h)[k] == 0
    ensures Lookup(peer, h) == NOT_FOUND && h.LeafKey? ==> h.bits !in KeysOf(peer)
  {
    if Lookup(peer, h) != NOT_FOUND {
      FoundSubtrieIsShared(peer, h);
      forall k | k !in KeysOf(peer)
        ensures LeafBag(h)[k] == 0
      {
        LeafBagKeys(h, k);
      }
    } else if h.LeafKey? && peer.Some? {
      LeafNodes(peer.value, h.bits);
    }
  }

  /** The front hash leaves the queue for good; r reports its only key, if the peer lacks it. */
  lemma SettledConserved(d: Digest, p: Process, p': Process, reported: seq<Digest>, r: seq<Digest>, peerKeys: set<Bits>)
    requires Conserved(d, p, reported, peerKeys) && p.sentHashes != []
    requires p'.pendingSubtries == p.pendingSubtries && p'.sentHashes == p.sentHashes[1..]
    requires forall x :: x in r ==> x.LeafKey? && x.bits !in peerKeys
    requires forall k :: k !in peerKeys ==> LeafBag(p.sentHashes[0])[k] == multiset(r)[LeafKey(k)]
    ensures Conserved(d, p', reported + r, peerKeys)
  {
    hide LeafBag, LeafBags, NodeBag, NodeBags;
    BagsFront(p.sentHashes);
    SeqMultiset(reported, r);
    forall k | k !in peerKeys
      ensures multiset(reported + r)[LeafKey(k)] + LeafBags(p'.pendingSubtries)[k] + LeafBags(p'.sentHashes)[k]
              == LeafBag(d)[k]
    {
      assert LeafBags(p.sentHashes)[k] == LeafBag(p.sentHashes[0])[k] + LeafBags(p'.sentHashes)[k];
    }
  }

  /** The front hash becomes a pending subtrie. */
  lemma ExpandedConserved(d: Digest, p: Process, p': Process, reported: seq<Digest>, peerKeys: set<Bits>)
    requires Conserved(d, p, reported, peerKeys) && p.sentHashes != []
    requires p'.pendingSubtries == p.pendingSubtries + [p.sentHashes[0]] && p'.sentHashes == p.sentHashes[1..]
    ensures Conserved(d, p', reported, peerKeys)
  {
    hide LeafBag, LeafBags, NodeBag, NodeBags;
    BagsFront(p.sentHashes);
    BagsPush(p.pendingSubtries, p.sentHashes[0]);
    forall k | k !in peerKeys
      ensures multiset(reported)[LeafKey(k)] + LeafBags(p'.pendingSubtries)[k] + LeafBags(p'.sentHashes)[k]
              == LeafBag(d)[k]
    {
      assert LeafBags(p.sentHashes)[k] == LeafBag(p.sentHashes[0])[k] + LeafBags(p'.sentHashes)[k];
    }
  }

  lemma AckConserved(d: Digest, p: Process, reported: seq<Digest>, peer: Option<Digest>, ack: bool)
    requires OwnNodes(d, p) && Conserved(d, p, reported, KeysOf(peer)) && p.sentHashes != []
    requires ack == (Lookup(peer, p.sentHashes[0]) == NOT_FOUND)
    ensures var (p', r) := ProcessAck(p, Some(d), ack); Conserved(d, p', reported + r, KeysOf(peer))
  {
    var h := p.sentHashes[0];
    var (p', r) := ProcessAck(p, Some(d), ack);
    AckMeaning(h, peer);
    assert h in Nodes(d) && h.LeafKey? ==> LeafBag(h) == multiset{h.bits};
    hide LeafBag, LeafBags, Nodes, Leaves, Conserved;
    if ack && h.Inner? {
      assert reported + [] == reported;
      ExpandedConserved(d, p, p', reported, KeysOf(peer));
    } else {
      SettledConserved(d, p, p', reported, r, KeysOf(peer));
    }
  }

  lemma AckBudgeted(d: Digest, p: Process, history: seq<Digest>, ack: bool)
    requires OwnNodes(d, p) && Budgeted(d, p, history) && p.sentHashes != []
    ensures Budgeted(d, ProcessAck(p, Some(d), ack).0, history)
  {
    var h := p.sentHashes[0];
    var p' := ProcessAck(p, Some(d), ack).0;
    assert h in Nodes(d);
    if d.Inner? {
      hide LeafBag, LeafBags, NodeBag, NodeBags, Nodes, Leaves, Budgeted;
      if ack && h.Inner? {
        ExpandedBudgeted(d, p, p', history);
      } else {
        SettledBudgeted(d, p, p', history);
      }
    }
  }

  lemma SettledBudgeted(d: Digest, p: Process, p': Process, history: seq<Digest>)
    requires d.Inner? && Budgeted(d, p, history) && p.sentHashes != []
    requires p'.pendingSubtries == p.pendingSubtries && p'.sentHashes == p.sentHashes[1..]
    ensures Budgeted(d, p', history)
  {
    var h := p.sentHashes[0];
    assert NodeBag(h)[h] >= 1;
    hide LeafBag, LeafBags, NodeBag, NodeBags;
    BagsFront(p.sentHashes);
    BudgetShrinks(multiset(history), NodeBags(p.pendingSubtries), NodeBags(p'.sentHashes), NodeBag(h), NodeBag(d),
                  multiset{d}, multiset(p.pendingSubtries), multiset(p'.sentHashes), multiset{h});
  }

  lemma ExpandedBudgeted(d: Digest, p: Process, p': Process, history: seq<Digest>)
    requires d.Inner? && Budgeted(d, p, history) && p.sentHashes != [] && p.sentHashes[0].Inner?
    requires p'.pendingSubtries == p.pendingSubtries + [p.sentHashes[0]] && p'.sentHashes == p.sentHashes[1..]
    ensures Budgeted(d, p', history)
  {
    var h := p.sentHashes[0];
    hide LeafBag, LeafBags, NodeBag, NodeBags;
    BagsFront(p.sentHashes);
    BagsPush(p.pendingSubtries, h);
    SeqMultiset(p.pendingSubtries, [h]);
    BudgetMoved(multiset(history), NodeBags(p.pendingSubtries), NodeBags(p'.sentHashes), NodeBag(h), NodeBag(d),
                multiset{d}, multiset(p.pendingSubtries), multiset(p'.sentHashes), multiset{h});
  }

  lemma BudgetMoved(h: multiset<Digest>, np: multiset<Digest>, ns: multiset<Digest>, nx: multiset<Digest>,
                    nd: multiset<Digest>, d: multiset<Digest>, mp: multiset<Digest>, ms: multiset<Digest>,
                    x: multiset<Digest>)
    requires h + np + (nx + ns) + d <= nd + mp + (x + ms)
    ensures h + (np + nx) + ns + d <= nd + (mp + x) + ms
  {
    assert h + (np + nx) + ns + d == h + np + (nx + ns) + d;
    assert nd + (mp + x) + ms == nd + mp + (x + ms);
  }

  lemma BudgetShrinks(h: multiset<Digest>, np: multiset<Digest>, ns: multiset<Digest>, nx: multiset<Digest>,
                      nd: multiset<Digest>, d: multiset<Digest>, mp: multiset<Digest>, ms: multiset<Digest>,
                      x: multiset<Digest>)
    requires h + np + (nx + ns) + d <= nd + mp + (x + ms) && x <= nx
    ensures h + np + ns + d <= nd + mp + ms
  {
    forall y
      ensures (h + np + ns + d)[y] <= (nd + mp + ms)[y]
    {
      assert (h + np + (nx + ns) + d)[y] <= (nd + mp + (x + ms))[y];
      assert x[y] <= nx[y];
    }
  }

  lemma AckKeepsCore(own: Option<Digest>, peer: Option<Digest>, p: Process, reported: seq<Digest>,
                     history: seq<Digest>, ack: bool, acks: seq<bool>, flying: seq<Digest>)
    requires Core(own, peer, p, reported, history, [ack] + acks, flying)
    ensures p.sentHashes != []
    ensures var (p', r) := ProcessAck(p, own, ack); Core(own, peer, p', reported + r, history, acks, flying)
  {
    AckAligned(p.sentHashes, ack, acks, flying, peer);
    hide Aligned, Conserved, Budgeted, Nodes;
    AckKeepsRunning(own.value, peer, p, reported, history, ack);
  }

  lemma AckKeepsRunning(d: Digest, peer: Option<Digest>, p: Process, reported: seq<Digest>, history: seq<Digest>,
                        ack: bool)
    requires Running(d, p, reported, history, KeysOf(peer)) && p.sentHashes != []
    requires ack == (Lookup(peer, p.sentHashes[0]) == NOT_FOUND)
    ensures var (p', r) := ProcessAck(p, Some(d), ack); Running(d, p', reported + r, history, KeysOf(peer))
    ensures ProcessAck(p, Some(d), ack).0.stat == p.stat
    ensures ProcessAck(p, Some(d), ack).0.sentHashes == p.sentHashes[1..]
  {
    hide Conserved, Budgeted, Nodes;
    AckConserved(d, p, reported, peer, ack);
    AckBudgeted(d, p, history, ack);
  }

  lemma {:induction false} AcksKeepCore(own: Option<Digest>, peer: Option<Digest>, p: Process, reported: seq<Digest>,
                                        history: seq<Digest>, bits: seq<bool>, acks: seq<bool>, flying: seq<Digest>)
    requires Core(own, peer, p, reported, history, bits + acks, flying)
    ensures |bits| <= |p.sentHashes|
    ensures var (p', r) := ProcessAckBits(p, own, bits); Core(own, peer, p', reported + r, history, acks, flying)
    decreases |bits|
  {
    CoreLengths(own, peer, p, reported, history, bits + acks, flying);
    hide Core, ProcessAck;
    if bits == [] {
      assert bits + acks == acks && reported + [] == reported;
    } else {
      hide Lookup, Nodes;
      FirstOfTwo(bits, acks);
      AckKeepsCore(own, peer, p, reported, history, bits[0], bits[1..] + acks, flying);
      FirstAck(p, own, bits);
      hide ProcessAckBits;
      var (p1, r1) := ProcessAck(p, own, bits[0]);
      AcksKeepCore(own, peer, p1, reported + r1, history, bits[1..], acks, flying);
      ConcatAssociative(reported, r1, ProcessAckBits(p1, own, bits[1..]).1);
    }
  }

  lemma FirstOfTwo<T>(a: seq<T>, b: seq<T>)
    requires a != []
    ensures a + b == [a[0]] + (a[1..] + b)
  {
  }

  lemma FirstAck(p: Process, own: Option<Digest>, bits: seq<bool>)
    requires bits != [] && |bits| <= |p.sentHashes|
    ensures var (p1, r1) := ProcessAck(p, own, bits[0]);
            |bits[1..]| <= |p1.sentHashes| &&
            ProcessAckBits(p, own, bits) ==
              (ProcessAckBits(p1, own, bits[1..]).0, r1 + ProcessAckBits(p1, own, bits[1..]).1)
  {
  }

  lemma CoreLengths(own: Option<Digest>, peer: Option<Digest>, p: Process, reported: seq<Digest>,
                    history: seq<Digest>, acks: seq<bool>, flying: seq<Digest>)
    requires Core(own, peer, p, reported, history, acks, flying)
    ensures |acks| <= |p.sentHashes|
  {
  }

  // ----- what the direction has achieved

  /** Everything sent has been answered, and nothing is left to expand. */
  predicate Settled(p: Process) {
    p.stat == TRIE && p.pendingSubtries == [] && p.sentHashes == []
  }

  /** The reported hashes are the keys of the set that the peer lacks, each once. */
  ghost predicate IsDifference(reported: seq<Digest>, keys: set<Bits>, peerKeys: set<Bits>) {
    && (forall i, j :: 0 <= i < j < |reported| ==> reported[i] != reported[j])
    && (forall h :: h in reported ==> h.LeafKey?)
    && (forall k :: LeafKey(k) in reported <==> k in keys - peerKeys)
  }

  lemma {:induction false} NoRepeats<T>(v: seq<T>)
    requires forall x :: multiset(v)[x] <= 1
    ensures forall i, j :: 0 <= i < j < |v| ==> v[i] != v[j]
  {
    forall i, j | 0 <= i < j < |v|
      ensures v[i] != v[j]
    {
      assert v == v[..j] + v[j..];
      assert v[i] in v[..j] && v[j] in v[j..];
      SeqMultiset(v[..j], v[j..]);
      assert multiset(v)[v[j]] == multiset(v[..j])[v[j]] + multiset(v[j..])[v[j]];
    }
  }

  lemma LeafBagOnce(d: Digest, n: nat, k: Bits)
    requires Patricia(d, n)
    ensures LeafBag(d)[k] == if k in Leaves(d) then 1 else 0
  {
    LeafBagOfLeaves(d, n);
  }

  lemma ReportedAtMostOnce(d: Digest, p: Process, reported: seq<Digest>, peerKeys: set<Bits>, n: nat)
    requires Patricia(d, n) && Conserved(d, p, reported, peerKeys)
    ensures forall h :: h in reported ==> h.LeafKey? && h.bits in Leaves(d) - peerKeys
    ensures forall i, j :: 0 <= i < j < |reported| ==> reported[i] != reported[j]
  {
    hide LeafBag, LeafBags;
    forall h
      ensures multiset(reported)[h] <= 1
      ensures h in reported ==> h.LeafKey? && h.bits in Leaves(d) - peerKeys
    {
      if h in reported {
        LeafBagOnce(d, n, h.bits);
        assert h == LeafKey(h.bits);
      }
    }
    NoRepeats(reported);
  }

  /** Exact difference: when the direction has settled, or the roots were found equal, the handler has
    received exactly the keys the peer lacks, each exactly once. */
  lemma CoreIsExact(own: Option<Digest>, peer: Option<Digest>, p: Process, reported: seq<Digest>,
                    history: seq<Digest>, acks: seq<bool>, flying: seq<Digest>, n: nat)
    requires own.Some? ==> Patricia(own.value, n)
    requires Core(own, peer, p, reported, history, acks, flying)
    ensures Settled(p) || p.stat == EQUAL ==> IsDifference(reported, KeysOf(own), KeysOf(peer))
    ensures forall h :: h in reported ==> h.LeafKey? && h.bits in KeysOf(own) - KeysOf(peer)
  {
    if Started(own, peer, p, reported, history) {
      var d := own.value;
      ReportedAtMostOnce(d, p, reported, KeysOf(peer), n);
      if Settled(p) {
        forall k | k in Leaves(d) - KeysOf(peer)
          ensures LeafKey(k) in reported
        {
          LeafBagOnce(d, n, k);
          assert LeafBags([])[k] == 0;
        }
      }
    }
  }

  // ----- traffic and termination

  lemma {:induction false} OwnRoots(v: seq<Digest>)
    ensures multiset(v) <= NodeBags(v) && |NodeBags(v)| == Weight(v) && |v| <= Weight(v)
  {
    if v != [] {
      var init, x := v[..|v|-1], v[|v|-1];
      OwnRoots(init);
      BagsBack(v);
      assert NodeBag(x)[x] >= 1;
      assert multiset{x} <= NodeBag(x);
    }
  }

  /** The most hashes a trie of this root is worth. */
  function MostSent(d: Digest): nat {
    if d.LeafKey? then 1 else 2 * |Leaves(d)| - 2
  }

  lemma HistoryBound(d: Digest, p: Process, history: seq<Digest>)
    requires d.Inner? && Budgeted(d, p, history)
    ensures multiset(history) + multiset{d} <= NodeBag(d)
  {
    hide NodeBag, NodeBags;
    OwnRoots(p.pendingSubtries);
    OwnRoots(p.sentHashes);
    var h, np, ns := multiset(history), NodeBags(p.pendingSubtries), NodeBags(p.sentHashes);
    var mp, ms := multiset(p.pendingSubtries), multiset(p.sentHashes);
    forall y
      ensures (h + multiset{d})[y] <= NodeBag(d)[y]
    {
      assert (h + np + ns + multiset{d})[y] <= (NodeBag(d) + mp + ms)[y];
      assert mp[y] <= np[y] && ms[y] <= ns[y];
    }
  }

  /** Traffic: only nodes of the trie are sent, none twice, so no more than it has below its root. */
  lemma NoNodeSentTwice(d: Digest, p: Process, history: seq<Digest>, n: nat)
    requires Patricia(d, n) && Budgeted(d, p, history)
    ensures forall i, j :: 0 <= i < j < |history| ==> history[i] != history[j]
    ensures forall h :: h in history ==> h in Nodes(d)
    ensures |history| <= MostSent(d)
  {
    if d.Inner? {
      HistoryBound(d, p, history);
      NodeBagOfNodes(d, n);
      NodesCounted(d, n);
      hide NodeBag, NodeBags, Nodes, Leaves, Patricia, NodeCount, Budgeted;
      forall x
        ensures multiset(history)[x] <= 1 && (x in history ==> x in Nodes(d))
      {
        assert (multiset(history) + multiset{d})[x] <= multiset(Nodes(d))[x];
      }
      NoRepeats(history);
      assert |multiset(history) + multiset{d}| <= |multiset(Nodes(d))| by {
        SubsetSize(multiset(history) + multiset{d}, multiset(Nodes(d)));
      }
    }
  }

  lemma SubsetSize<T>(a: multiset<T>, b: multiset<T>)
    requires a <= b
    ensures |a| <= |b|
  {
    assert b == a + (b - a);
  }

  /** How many hashes the subtrie of a pending digest is still worth. */
  function Cost(d: Digest): nat {
    if d.LeafKey? then 1 else NodeCount(d) - 1
  }

  function Costs(v: seq<Digest>): nat {
    if v == [] then 0 else Costs(v[..|v|-1]) + Cost(v[|v|-1])
  }

  lemma CostsPush(v: seq<Digest>, x: Digest)
    ensures Costs(v + [x]) == Costs(v) + Cost(x)
  {
    assert (v + [x])[..|v|] == v;
  }

  /** A measure of the work left in a direction: hashes to be sent, and per hash sent the three
    messages that bring its ack home. */
  function Rank(own: Option<Digest>, p: Process, returning: nat, pendingAtPeer: nat, flying: nat): (r: int) {
    if p.stat == START then if own.Some? then 4 * Cost(own.value) + 1 else 0
    else 4 * Costs(p.pendingSubtries) + 4 * (Weight(p.sentHashes) - |p.sentHashes|)
         + 3 * flying + 2 * pendingAtPeer + returning
  }

  lemma RankNotNegative(own: Option<Digest>, p: Process, returning: nat, pendingAtPeer: nat, flying: nat)
    ensures Rank(own, p, returning, pendingAtPeer, flying) >= 0
  {
    OwnRoots(p.sentHashes);
  }

  lemma StartRanks(own: Option<Digest>, p: Process)
    requires p.stat == START && own.Some? && p.pendingSubtries == [] && p.sentHashes == []
    ensures Rank(own, Starts(p, own), 0, 0, 0) < Rank(own, p, 0, 0, 0)
  {
    CostsPush([], own.value);
    assert [] + [own.value] == [own.value];
  }

  lemma CutRanks(x: Digest, max: nat, f: seq<Digest>)
    requires CutOf(x, max, f) && max >= 2
    ensures 4 * (Weight(f) - |f|) + 3 * |f| < 4 * Cost(x)
  {
    if x.LeafKey? {
      CutOfLeaf(x, max, f);
      assert f[..0] == [];
    } else {
      OwnRoots(f);
      CutNodes(x, max, f);
      SubsetSize(NodeBags(f) + multiset{x}, NodeBag(x));
      assert |LeafBag(x)| >= 1 && |f| >= 1;
    }
  }

  lemma SendRanks(own: Option<Digest>, p: Process, p': Process, f: seq<Digest>, max: nat,
                  returning: nat, pendingAtPeer: nat, flying: nat)
    requires max >= 2 && p.stat != START && p'.stat == p.stat && p.pendingSubtries != []
    requires CutOf(SyncSpec.Topmost(p), max, f)
    requires p'.pendingSubtries == Popped(p).pendingSubtries && p'.sentHashes == p.sentHashes + f
    ensures Rank(own, p', returning, pendingAtPeer, flying + |f|) < Rank(own, p, returning, pendingAtPeer, flying)
  {
    CutRanks(SyncSpec.Topmost(p), max, f);
    WeightConcat(p.sentHashes, f);
  }

  lemma AckRanks(d: Digest, p: Process, ack: bool, returning: nat, pendingAtPeer: nat, flying: nat)
    requires p.stat != START && p.sentHashes != [] && OwnNodes(d, p) && returning > 0
    ensures var (p', _) := ProcessAck(p, Some(d), ack);
            && p'.stat == p.stat
            && Rank(Some(d), p', returning - 1, pendingAtPeer, flying)
               < Rank(Some(d), p, returning, pendingAtPeer, flying)
  {
    var h := p.sentHashes[0];
    var p' := ProcessAck(p, Some(d), ack).0;
    assert p'.sentHashes == p.sentHashes[1..] && p'.stat == p.stat;
    assert h in Nodes(d);
    assert p'.pendingSubtries == if ack && h.Inner? then p.pendingSubtries + [h] else p.pendingSubtries;
    AnsweredRanks(Some(d), p, p', ack && h.Inner?, returning, pendingAtPeer, flying);
  }

  lemma AnsweredRanks(own: Option<Digest>, p: Process, p': Process, expand: bool, returning: nat, pendingAtPeer: nat,
                      flying: nat)
    requires p.stat != START && p'.stat == p.stat && p.sentHashes != [] && returning > 0
    requires p'.sentHashes == p.sentHashes[1..] && (expand ==> p.sentHashes[0].Inner?)
    requires p'.pendingSubtries == if expand then p.pendingSubtries + [p.sentHashes[0]] else p.pendingSubtries
    ensures Rank(own, p', returning - 1, pendingAtPeer, flying) < Rank(own, p, returning, pendingAtPeer, flying)
  {
    var h := p.sentHashes[0];
    assert h.Inner? ==> Cost(h) == NodeCount(h) - 1;
    hide Costs, Weight, Cost, NodeCount, LeafBag, NodeBag, LeafBags, NodeBags;
    BagsFront(p.sentHashes);
    CostsPush(p.pendingSubtries, h);
  }

  lemma SomethingSent(own: Option<Digest>, peer: Option<Digest>, p: Process, reported: seq<Digest>,
                      history: seq<Digest>, acks: seq<bool>, flying: seq<Digest>)
    requires Core(own, peer, p, reported, history, acks, flying) && p.sentHashes != []
    ensures own.Some? && p.stat != START && OwnNodes(own.value, p)
  {
  }

  lemma {:induction false} AcksRank(own: Option<Digest>, peer: Option<Digest>, p: Process, reported: seq<Digest>,
                                    history: seq<Digest>, bits: seq<bool>, acks: seq<bool>, flying: seq<Digest>,
                                    returning: nat, pendingAtPeer: nat, m: nat)
    requires Core(own, peer, p, reported, history, bits + acks, flying) && returning >= |bits|
    ensures |bits| <= |p.sentHashes|
    ensures var (p', _) := ProcessAckBits(p, own, bits);
            Rank(own, p', returning - |bits|, pendingAtPeer, m) + |bits| <= Rank(own, p, returning, pendingAtPeer, m)
    decreases |bits|
  {
    CoreLengths(own, peer, p, reported, history, bits + acks, flying);
    if bits != [] {
      FirstOfTwo(bits, acks);
      AckKeepsCore(own, peer, p, reported, history, bits[0], bits[1..] + acks, flying);
      SomethingSent(own, peer, p, reported, history, bits + acks, flying);
      AckRanks(own.value, p, bits[0], returning, pendingAtPeer, m);
      FirstAck(p, own, bits);
      hide Core, Rank, ProcessAck, ProcessAckBits;
      var (p1, r1) := ProcessAck(p, own, bits[0]);
      AcksRank(own, peer, p1, reported + r1, history, bits[1..], acks, flying, returning - 1, pendingAtPeer, m);
    }
  }
}
