/** What every run of a synchronization achieves. */
module SyncTheorems {
  import opened Arithmetic
  import opened Bitset
  import opened Sequences
  import opened BloomSpec
  import opened BloomProofs
  import opened Digests
  import opened KeyValueTries
  import opened Wrappers
  import opened Cuts
  import opened SyncSpec
  import opened SyncCore
  import opened SyncProtocol

  // ----- the reported difference

  /** What a side may claim about what it has reported when it is done. */
  lemma SideIsExact(q: Params, x: Peer, y: Peer, s: Side, t: Side)
    requires PeersOk(q, x, y) && TrieHalf(x, y, s, t)
    ensures Settled(s.proc) || SyncSpec.Done(s.proc) ==> IsDifference(s.reported, KeysOf(x.root), KeysOf(y.root))
    ensures forall h :: h in s.reported ==> h.LeafKey? && h.bits in KeysOf(x.root) - KeysOf(y.root)
  {
    hide Core;
    CoreIsExact(x.root, y.root, s.proc, s.reported, s.history, AckBits(t.acks) + t.proc.pendingAcks, Concat(s.subs),
                8 * q.hashSize);
  }

  /** Exact difference: in any state of any run, a side that is done, or has nothing pending and
    nothing unanswered, has reported exactly the keys of its set that the other lacks, each once;
    and no side ever reports anything else. */
  lemma ExactDifference(q: Params, x: Peer, y: Peer, run: seq<System>, calls: seq<(Action, bool)>, i: nat)
    requires PeersOk(q, x, y) && IsRun(q, x, y, run, calls) && i < |run|
    ensures var (a, b) := (run[i].a, run[i].b);
            && (Settled(a.proc) || SyncSpec.Done(a.proc) ==> IsDifference(a.reported, KeysOf(x.root), KeysOf(y.root)))
            && (Settled(b.proc) || SyncSpec.Done(b.proc) ==> IsDifference(b.reported, KeysOf(y.root), KeysOf(x.root)))
            && (forall h :: h in a.reported ==> h.LeafKey? && h.bits in KeysOf(x.root) - KeysOf(y.root))
            && (forall h :: h in b.reported ==> h.LeafKey? && h.bits in KeysOf(y.root) - KeysOf(x.root))
  {
    hide TrieHalf, BytesHalf, BloomHalf, RootsHalf, Next;
    RunInvariant(q, x, y, run, calls, i);
    SideIsExact(q, x, y, run[i].a, run[i].b);
    SideIsExact(q, y, x, run[i].b, run[i].a);
  }

  /** Keys of reported leaves. */
  function ReportedKeys(reported: seq<Digest>): set<Bits> {
    set h | h in reported && h.LeafKey? :: h.bits
  }

  lemma ReportedKeysOf(reported: seq<Digest>, keys: set<Bits>, peerKeys: set<Bits>)
    requires IsDifference(reported, keys, peerKeys)
    ensures ReportedKeys(reported) == keys - peerKeys
  {
    forall k
      ensures k in ReportedKeys(reported) <==> k in keys - peerKeys
    {
      assert LeafKey(k) in reported <==> k in keys - peerKeys;
      if k in ReportedKeys(reported) {
        assert LeafKey(k) in reported;
      }
    }
  }

  /** When both sides are done, inserting what the other side reported makes the sets equal. */
  lemma ExchangeMakesEqual(q: Params, x: Peer, y: Peer, run: seq<System>, calls: seq<(Action, bool)>, i: nat)
    requires PeersOk(q, x, y) && IsRun(q, x, y, run, calls) && i < |run|
    requires SyncSpec.Done(run[i].a.proc) && SyncSpec.Done(run[i].b.proc)
    ensures KeysOf(x.root) + ReportedKeys(run[i].b.reported) == KeysOf(y.root) + ReportedKeys(run[i].a.reported)
  {
    hide Next, Acts;
    ExactDifference(q, x, y, run, calls, i);
    ReportedKeysOf(run[i].a.reported, KeysOf(x.root), KeysOf(y.root));
    ReportedKeysOf(run[i].b.reported, KeysOf(y.root), KeysOf(x.root));
  }

  // ----- the two sides of a run

  function Swapped(sys: System): System {
    System(sys.b, sys.a)
  }

  function SwappedRun(run: seq<System>): (r: seq<System>)
    ensures |r| == |run| && forall i :: 0 <= i < |run| ==> r[i] == Swapped(run[i])
  {
    seq(|run|, i requires 0 <= i < |run| => Swapped(run[i]))
  }

  function SwappedCalls(calls: seq<(Action, bool)>): (r: seq<(Action, bool)>)
    ensures |r| == |calls| && forall i :: 0 <= i < |calls| ==> r[i] == (calls[i].0, !calls[i].1)
  {
    seq(|calls|, i requires 0 <= i < |calls| => (calls[i].0, !calls[i].1))
  }

  /** A run is a run for the two sides in the other order, so what holds of one side holds of both. */
  lemma SidesSwap(q: Params, x: Peer, y: Peer, run: seq<System>, calls: seq<(Action, bool)>)
    requires PeersOk(q, x, y) && IsRun(q, x, y, run, calls)
    ensures IsRun(q, y, x, SwappedRun(run), SwappedCalls(calls))
  {
    hide Acts;
    var r, c := SwappedRun(run), SwappedCalls(calls);
    forall i | 0 <= i < |c|
      ensures Next(q, y, x, c[i].0, c[i].1, r[i], r[i+1])
    {
      assert Next(q, x, y, calls[i].0, calls[i].1, run[i], run[i+1]);
    }
  }

  // ----- being done

  /** A side with an empty set is never done. */
  lemma EmptySideIsNeverDone(q: Params, x: Peer, y: Peer, run: seq<System>, calls: seq<(Action, bool)>, i: nat)
    requires PeersOk(q, x, y) && IsRun(q, x, y, run, calls) && i < |run| && x.root == None
    ensures !SyncSpec.Done(run[i].a.proc)
  {
    RunInvariant(q, x, y, run, calls, i);
  }

  /** A side with nothing to start, to expand, to answer or to wait for is done exactly if its set is
    not empty. */
  lemma DoneIff(q: Params, x: Peer, y: Peer, run: seq<System>, calls: seq<(Action, bool)>, i: nat)
    requires PeersOk(q, x, y) && IsRun(q, x, y, run, calls) && i < |run|
    requires !(run[i].a.proc.stat == START && x.root.Some?)
    requires run[i].a.proc.pendingSubtries == [] && run[i].a.proc.pendingAcks == [] && run[i].a.subs == []
    requires run[i].b.acks == [] && run[i].b.proc.pendingAcks == []
    ensures SyncSpec.Done(run[i].a.proc) <==> x.root.Some?
  {
    hide Running, BytesHalf, BloomHalf, RootsHalf, Next;
    RunInvariant(q, x, y, run, calls, i);
  }

  /** What it means that a side is done.  It has found the sets equal, or it has started and has nothing
    left to expand, none of its hashes is on its way or waits for an ack, and it owes the other side
    nothing: each unanswered hash of the other is still on its way, or its ack is. */
  lemma DoneMeans(q: Params, x: Peer, y: Peer, run: seq<System>, calls: seq<(Action, bool)>, i: nat)
    requires PeersOk(q, x, y) && IsRun(q, x, y, run, calls) && i < |run|
    ensures var (a, b) := (run[i].a, run[i].b);
            SyncSpec.Done(a.proc) <==>
              || a.proc.stat == EQUAL
              || (&& a.proc.stat == TRIE && a.proc.pendingSubtries == []
                  && |Concat(a.subs)| + |b.proc.pendingAcks| + |AckBits(b.acks)| == 0
                  && |b.proc.sentHashes| == |Concat(b.subs)| + |AckBits(a.acks)|)
  {
    hide Running, BytesHalf, BloomHalf, RootsHalf, Next;
    RunInvariant(q, x, y, run, calls, i);
  }

  // ----- what an ack leads to

  /** The stack: a hash that an ack has just put up for expansion is the next one to be cut, and the
    pending subtries below it stay as they were. */
  lemma ExpandedNext(p: Process, root: Option<Digest>, max: nat, hs: nat, p': Process, f: seq<Digest>)
    requires p.sentHashes != [] && max >= 2 && Lookup(root, p.sentHashes[0]) == INNER_NODE
    requires GetsSubTrie(ProcessAck(p, root, true).0, root, max, hs, p', f)
    ensures CutOf(p.sentHashes[0], max, f)
    ensures p'.pendingSubtries == p.pendingSubtries && p'.sentHashes == p.sentHashes[1..] + f
  {
    hide CutOf;
    var pushed := p.pendingSubtries + [p.sentHashes[0]];
    assert pushed[..|pushed|-1] == p.pendingSubtries;
  }

  /** With room for at most one hash nothing can be cut, and everything pending is lost. */
  lemma {:induction false} SmallBufferDropsAll(p: Process, root: Option<Digest>, max: nat, hs: nat, p': Process,
                                               f: seq<Digest>)
    requires max < 2 && GetsSubTrie(p, root, max, hs, p', f)
    ensures f == [] && p' == p.(pendingSubtries := [])
    decreases |p.pendingSubtries|
  {
    if p.pendingSubtries != [] {
      SmallBufferDropsAll(Popped(p), root, max, hs, p', f);
    }
  }

  /** Otherwise the topmost pending subtrie that the trie still knows is cut, and those above it are lost. */
  lemma {:induction false} TopmostKnownIsCut(p: Process, root: Option<Digest>, max: nat, hs: nat, p': Process,
                                             f: seq<Digest>, i: nat)
    requires max >= 2 && GetsSubTrie(p, root, max, hs, p', f) && i < |p.pendingSubtries|
    requires Lookup(root, p.pendingSubtries[i]) != NOT_FOUND
    requires forall j :: i < j < |p.pendingSubtries| ==> Lookup(root, p.pendingSubtries[j]) == NOT_FOUND
    ensures CutOf(p.pendingSubtries[i], max, f)
    ensures p'.pendingSubtries == p.pendingSubtries[..i] && p'.sentHashes == p.sentHashes + f
    decreases |p.pendingSubtries|
  {
    hide CutOf, Lookup;
    if i < |p.pendingSubtries| - 1 {
      TopmostKnownIsCut(Popped(p), root, max, hs, p', f, i);
    }
  }

  /** When the trie has lost the hash that the peer lacks, the phase starts over: every key is pending
    again, whatever was pending before; an empty set has nothing pending. */
  lemma LostHashRestarts(p: Process, root: Option<Digest>, k: Bits)
    requires p.sentHashes != [] && Lookup(root, p.sentHashes[0]) == NOT_FOUND
    ensures var (p', reported) := ProcessAck(p, root, true);
            && reported == [] && p'.sentHashes == p.sentHashes[1..]
            && |p'.pendingSubtries| <= 1
            && (LeafBags(p'.pendingSubtries)[k] > 0 <==> k in KeysOf(root))
  {
    if root.Some? {
      LeafBagKeys(root.value, k);
      assert [] + [root.value] == [root.value];
      BagsPush([], root.value);
    }
  }

  /** Comparing root hashes decides whether two sets, neither of them empty, are equal. */
  lemma RootHashDecides(q: Params, x: Peer, y: Peer, p: Process)
    requires PeersOk(q, x, y) && x.root.Some? && y.root.Some? && p.stat != EQUAL
    ensures SyncSpec.IsEqual(p, x.root, y.root.value).stat == EQUAL <==> KeysOf(x.root) == KeysOf(y.root)
  {
    if KeysOf(x.root) == KeysOf(y.root) {
      Canonical(x.root.value, y.root.value, 8 * q.hashSize);
    }
  }

  // ----- acks

  /** The unanswered hashes of s match, in order, the acks on their way to it, the acks the peer
    still holds, and the hashes on their way to the peer; each ack says whether the peer lacks that
    node, and a hash not lacked stands for keys that the peer has. */
  ghost predicate AcksLineUp(y: Peer, s: Side, t: Side) {
    var acks, sent := AckBits(t.acks) + t.proc.pendingAcks, s.proc.sentHashes;
    && |sent| == |acks| + |Concat(s.subs)| && sent[|acks|..] == Concat(s.subs)
    && (forall j :: 0 <= j < |acks| ==> (acks[j] <==> y.root.None? || sent[j] !in Nodes(y.root.value)))
    && (forall j :: 0 <= j < |acks| && !acks[j] ==> Leaves(sent[j]) <= KeysOf(y.root))
  }

  lemma SideAlignment(x: Peer, y: Peer, s: Side, t: Side)
    requires TrieHalf(x, y, s, t)
    ensures AcksLineUp(y, s, t)
  {
    hide Started, NotStarted;
    var acks := AckBits(t.acks) + t.proc.pendingAcks;
    forall j | 0 <= j < |acks| && !acks[j]
      ensures Leaves(s.proc.sentHashes[j]) <= KeysOf(y.root)
    {
      FoundSubtrieIsShared(y.root, s.proc.sentHashes[j]);
    }
  }

  /** Ack alignment, on both sides in every state of every run. */
  lemma AckAlignment(q: Params, x: Peer, y: Peer, run: seq<System>, calls: seq<(Action, bool)>, i: nat)
    requires PeersOk(q, x, y) && IsRun(q, x, y, run, calls) && i < |run|
    ensures AcksLineUp(y, run[i].a, run[i].b) && AcksLineUp(x, run[i].b, run[i].a)
  {
    hide TrieHalf, BytesHalf, BloomHalf, RootsHalf, Next, AcksLineUp;
    RunInvariant(q, x, y, run, calls, i);
    SideAlignment(x, y, run[i].a, run[i].b);
    SideAlignment(y, x, run[i].b, run[i].a);
  }

  /** The acks that one side reads out of its queue are the acks that the other side processes, and
    it counts as many bytes as were sent. */
  lemma AcksRoundTrip(p: Process, length: nat, p': Process, bytes: Bytes, r: Process, root: Option<Digest>)
    requires ReadsAcks(p, length, p', bytes) && AckNumber(p, length) <= |r.sentHashes|
    ensures var number := AckNumber(p, length);
            var (r', reported) := ProcessAckBits(r, root, p.pendingAcks[..number]);
            SyncSpec.ProcessAcks(r, root, bytes, number) ==
              Ok((r'.(receivedBytes := r'.receivedBytes + (p'.sentBytes - p.sentBytes)), reported))
  {
    hide ProcessAckBits, Unpack;
    PackedAcks(bytes, p.pendingAcks[..AckNumber(p, length)]);
  }

  // ----- guards

  /** The length guards let the next acks and the next filter chunk from t pass. */
  ghost predicate GuardsPass(q: Params, x: Peer, s: Side, t: Side) {
    && (t.acks != [] ==> SyncSpec.ProcessAcks(s.proc, x.root, t.acks[0].bytes, t.acks[0].number).Ok?)
    && (t.chunks != [] ==> |t.chunks[0]| + s.proc.bloomfilterIn_pos <= q.ByteSize())
  }

  lemma SideGuards(q: Params, x: Peer, y: Peer, s: Side, t: Side)
    requires PeersOk(q, x, y) && TrieHalf(x, y, s, t) && BloomHalf(q, y, x, t, s)
    ensures GuardsPass(q, x, s, t)
  {
    hide Core, Diff;
    if t.acks != [] {
      var bits := Unpack(t.acks[0].bytes)[..t.acks[0].number];
      CoreLengths(x.root, y.root, s.proc, s.reported, s.history, AckBits(t.acks) + t.proc.pendingAcks, Concat(s.subs));
      assert |AckBits(t.acks)| >= |bits|;
    }
    if t.chunks != [] {
      ChunkFits(q, y, x, t, s);
    }
  }

  /** The length guards on acks and filter chunks never fire. */
  lemma GuardsNeverFire(q: Params, x: Peer, y: Peer, run: seq<System>, calls: seq<(Action, bool)>, i: nat)
    requires PeersOk(q, x, y) && IsRun(q, x, y, run, calls) && i < |run|
    ensures GuardsPass(q, x, run[i].a, run[i].b) && GuardsPass(q, y, run[i].b, run[i].a)
  {
    hide TrieHalf, BytesHalf, BloomHalf, RootsHalf, Next, GuardsPass;
    RunInvariant(q, x, y, run, calls, i);
    SideGuards(q, x, y, run[i].a, run[i].b);
    SideGuards(q, y, x, run[i].b, run[i].a);
  }

  // ----- traffic

  /** No node of the trie has been sent twice, and no more hashes than it has nodes below its root. */
  ghost predicate SentOnce(x: Peer, s: Side) {
    && (forall j, l :: 0 <= j < l < |s.history| ==> s.history[j] != s.history[l])
    && |s.history| <= if x.root.None? then 0 else MostSent(x.root.value)
  }

  lemma SideTraffic(q: Params, x: Peer, y: Peer, s: Side, t: Side)
    requires PeersOk(q, x, y) && TrieHalf(x, y, s, t)
    ensures SentOnce(x, s)
  {
    hide Aligned, Conserved, Budgeted;
    if Started(x.root, y.root, s.proc, s.reported, s.history) {
      NoNodeSentTwice(x.root.value, s.proc, s.history, 8 * q.hashSize);
    } else if x.root.Some? {
      assert |Leaves(x.root.value)| >= 1;
      if x.root.value.Inner? {
        NodesCounted(x.root.value, 8 * q.hashSize);
      }
    }
  }

  lemma TrafficBound(q: Params, x: Peer, y: Peer, run: seq<System>, calls: seq<(Action, bool)>, i: nat)
    requires PeersOk(q, x, y) && IsRun(q, x, y, run, calls) && i < |run|
    ensures SentOnce(x, run[i].a) && SentOnce(y, run[i].b)
  {
    hide TrieHalf, BytesHalf, BloomHalf, RootsHalf, Next, SentOnce;
    RunInvariant(q, x, y, run, calls, i);
    SideTraffic(q, x, y, run[i].a, run[i].b);
    SideTraffic(q, y, x, run[i].b, run[i].a);
  }

  /** The bytes s sent have been received or are on their way, apart from root hashes, which only the
    sender counts. */
  ghost predicate Balanced(q: Params, s: Side, t: Side) {
    && s.proc.sentBytes == t.proc.receivedBytes + SubtrieBytes(s.subs, q.hashSize)
         + AckMessageBytes(s.acks) + |Concat(s.chunks)| + q.hashSize * s.rootsSent
    && (s.subs == [] && s.acks == [] && s.chunks == [] ==>
          (s.proc.sentBytes == t.proc.receivedBytes <==> s.rootsSent == 0))
  }

  lemma SideBalance(q: Params, s: Side, t: Side)
    requires q.Valid() && BytesHalf(q, s, t)
    ensures Balanced(q, s, t)
  {
    if s.rootsSent > 0 {
      MulAtMost(q.hashSize, 1, s.rootsSent);
    }
  }

  lemma ByteConservation(q: Params, x: Peer, y: Peer, run: seq<System>, calls: seq<(Action, bool)>, i: nat)
    requires PeersOk(q, x, y) && IsRun(q, x, y, run, calls) && i < |run|
    ensures Balanced(q, run[i].a, run[i].b) && Balanced(q, run[i].b, run[i].a)
  {
    hide TrieHalf, BytesHalf, BloomHalf, RootsHalf, Next, Balanced;
    RunInvariant(q, x, y, run, calls, i);
    SideBalance(q, run[i].a, run[i].b);
    SideBalance(q, run[i].b, run[i].a);
  }

  /** The bytes of the acks that side a has read out in the first i calls of a run. */
  ghost function AckTraffic(run: seq<System>, calls: seq<(Action, bool)>, i: nat): nat
    requires |run| == |calls| + 1 && i <= |calls|
  {
    if i == 0 then 0
    else AckTraffic(run, calls, i - 1) + if calls[i-1].1 then AckSize(calls[i-1].0, run[i].a.acks) else 0
  }

  /** The size of the newest ack message after a call that read acks. */
  function AckSize(act: Action, acks: seq<AckMessage>): nat {
    if act.SendAcks? && acks != [] then |acks[|acks|-1].bytes| else 0
  }

  /** What a side sent apart from acks: whole hashes, its root hash, and filter bytes. */
  function HashTraffic(q: Params, s: Side): nat {
    Times(q.hashSize, |s.history|) + Times(q.hashSize, s.rootsSent) + s.proc.bloomfilterOut_pos
  }

  lemma SentByCut(q: Params, x: Peer, max: nat, s: Side, s': Side)
    requires PeerOk(q, x) && exists f :: SendsSubtrie(q, x, max, s, s', f)
    ensures s'.proc.sentBytes - s.proc.sentBytes == HashTraffic(q, s') - HashTraffic(q, s)
  {
    hide GetsSubTrie, Size, Times;
    var f :| SendsSubtrie(q, x, max, s, s', f);
    CutSent(s.proc, x.root, max, q.hashSize, s'.proc, f);
    TimesSum(q.hashSize, |s.history|, |f|);
  }

  lemma {:induction false} CutSent(p: Process, root: Option<Digest>, max: nat, hs: nat, p': Process, f: seq<Digest>)
    requires GetsSubTrie(p, root, max, hs, p', f)
    ensures p'.sentBytes == p.sentBytes + Times(hs, |f|)
    ensures p'.bloomfilterOut_pos == p.bloomfilterOut_pos
    decreases |p.pendingSubtries|
  {
    hide CutOf;
    if p.pendingSubtries != [] && (max < 2 || Lookup(root, Topmost(p)) == NOT_FOUND) {
      CutSent(Popped(p), root, max, hs, p', f);
    }
  }

  lemma TimesSum(h: nat, m: nat, n: nat)
    ensures Times(h, m + n) == Times(h, m) + Times(h, n)
  {
  }

  lemma SentByReading(length: nat, s: Side, s': Side)
    requires exists bytes :: SendsAcks(length, s, s', bytes)
    ensures s'.proc.sentBytes == s.proc.sentBytes + AckSize(SendAcks(length), s'.acks)
    ensures s'.proc.bloomfilterOut_pos == s.proc.bloomfilterOut_pos
    ensures s'.history == s.history && s'.rootsSent == s.rootsSent
  {
    hide Unpack;
  }

  lemma SentByAcks(x: Peer, s: Side, t: Side, s': Side, t': Side)
    requires ReceivesAcks(x, s, t, s', t')
    ensures s'.proc.sentBytes == s.proc.sentBytes && s'.proc.bloomfilterOut_pos == s.proc.bloomfilterOut_pos
    ensures s'.history == s.history && s'.rootsSent == s.rootsSent
  {
    hide ProcessAckBits;
    var m := t.acks[0];
    if |m.bytes| >= AckBytes(m.number) && m.number <= |s.proc.sentHashes| {
      AcksTouch(s.proc, x.root, Unpack(m.bytes)[..m.number]);
    }
  }

  lemma SentByCall(q: Params, x: Peer, act: Action, s: Side, t: Side, s': Side, t': Side)
    requires PeerOk(q, x) && Acts(q, x, act, s, t, s', t')
    ensures s'.proc.sentBytes - s.proc.sentBytes ==
              HashTraffic(q, s') - HashTraffic(q, s) + AckSize(act, s'.acks)
    ensures t'.proc == t.proc && t'.history == t.history && t'.rootsSent == t.rootsSent
  {
    hide Times, GetsSubTrie, Diff;
    match act
    case SendSubtrie(max) => SentByCut(q, x, max, s, s');
    case SendRoot =>
      TimesSum(q.hashSize, s.rootsSent, 1);
      TimesFacts(q.hashSize, 0, 0);
    case SendAcks(length) => SentByReading(length, s, s');
    case ReceiveAcks => SentByAcks(x, s, t, s', t');
    case _ =>
  }

  /** Every byte that a side counts as sent is part of a hash of its history, of a root hash, of its
    filter, or of its acks. */
  lemma {:induction false} SentBytesCounted(q: Params, x: Peer, y: Peer, run: seq<System>, calls: seq<(Action, bool)>,
                                            i: nat)
    requires PeersOk(q, x, y) && IsRun(q, x, y, run, calls) && i < |run|
    ensures var a := run[i].a;
            a.proc.sentBytes == q.hashSize * |a.history| + q.hashSize * a.rootsSent + a.proc.bloomfilterOut_pos
                                + AckTraffic(run, calls, i)
  {
    hide Acts, AckSize;
    if i > 0 {
      SentBytesCounted(q, x, y, run, calls, i - 1);
      var (act, byA) := calls[i-1];
      assert Next(q, x, y, act, byA, run[i-1], run[i]);
      if byA {
        SentByCall(q, x, act, run[i-1].a, run[i-1].b, run[i].a, run[i].b);
      } else {
        SentByCall(q, y, act, run[i-1].b, run[i-1].a, run[i].b, run[i].a);
      }
    }
  }

  // ----- the Bloom phase

  /** Once all of one filter has arrived, the other side has reported exactly its keys that this
    filter does not contain. */
  lemma BloomPhaseIsExact(q: Params, x: Peer, y: Peer, keys: set<Key>, run: seq<System>, calls: seq<(Action, bool)>,
                          i: nat, k: Key)
    requires PeersOk(q, x, y) && IsRun(q, x, y, run, calls) && i < |run|
    requires Exact(q, FilterOf(y), keys)
    requires run[i].a.proc.bfOutIsFinished && run[i].a.chunks == []
    ensures k in run[i].b.bloomReported <==> k in keys && !BloomSpec.Contains(q, Unpack(x.bits), k)
  {
    hide TrieHalf, BytesHalf, RootsHalf, Next, Exact;
    RunInvariant(q, x, y, run, calls, i);
    var received := run[i].b.proc.bloomfilterIn_pos;
    assert |x.bits[received..run[i].a.proc.bloomfilterOut_pos]| == 0;
    assert Unpack(x.bits)[..8 * received] == Unpack(x.bits);
    DiffReportsMissingKeys(q, FilterOf(y), keys, Unpack(x.bits), k);
  }

  /** At any time of the Bloom phase only keys have been reported that the other set, if its filter
    covers it, does not have. */
  lemma OnlyMissingKeysReported(q: Params, x: Peer, y: Peer, keys: set<Key>, peerKeys: set<Key>,
                                run: seq<System>, calls: seq<(Action, bool)>, i: nat, k: Key)
    requires PeersOk(q, x, y) && IsRun(q, x, y, run, calls) && i < |run|
    requires Exact(q, FilterOf(y), keys) && Covers(q, FilterOf(x), peerKeys)
    requires k in run[i].b.bloomReported
    ensures k in keys - peerKeys
  {
    hide TrieHalf, BytesHalf, RootsHalf, Next, Exact, Covers, Diff;
    RunInvariant(q, x, y, run, calls, i);
    ReportedIsMissing(q, FilterOf(y), keys, Unpack(x.bits), 8 * run[i].b.proc.bloomfilterIn_pos, k);
    if k in peerKeys {
      CoveredIsContained(q, FilterOf(x), peerKeys, k);
    }
  }

  lemma ReportedIsMissing(q: Params, f: Filter, keys: set<Key>, remote: seq<bool>, received: nat, k: Key)
    requires q.Valid() && Exact(q, f, keys) && received <= |remote| == |f.bits|
    requires k in Diff(q, f, remote[..received], 0)
    ensures k in keys && !BloomSpec.Contains(q, remote, k)
  {
    hide Diff, DiffAt, Exact;
    DiffMember(q, f, remote[..received], 0, k);
    var p :| 0 <= p < received && k in DiffAt(q, f, remote[..received][p], 0 + p);
    assert remote[..received][p] == remote[p];
    ListedIsUser(q, f, keys, remote[p], p, k);
  }

  lemma ListedIsUser(q: Params, f: Filter, keys: set<Key>, remote: bool, p: nat, k: Key)
    requires q.Valid() && Exact(q, f, keys) && p < |f.bits| && k in DiffAt(q, f, remote, p)
    ensures k in keys && p in q.Positions(k) && !remote
  {
    assert ExactAt(q, f, Users(q, keys, p), p);
    hide Exact, Entries;
  }

  /** How many of the first i calls of a run asked side a for a chunk of at least one byte before it
    said that its filter was finished. */
  ghost function ChunkCalls(run: seq<System>, calls: seq<(Action, bool)>, i: nat): nat
    requires |run| == |calls| + 1 && i <= |calls|
  {
    if i == 0 then 0
    else ChunkCalls(run, calls, i - 1) + if AsksForChunk(calls[i-1], run[i-1]) then 1 else 0
  }

  predicate AsksForChunk(call: (Action, bool), sys: System) {
    call.1 && call.0.SendChunk? && call.0.length > 0 && !sys.a.proc.bfOutIsFinished
  }

  /** What chunk calls there have been. */
  function ChunkProgress(s: Side): nat {
    s.proc.bloomfilterOut_pos + if s.proc.bfOutIsFinished then 1 else 0
  }

  lemma ChunkStep(q: Params, x: Peer, y: Peer, call: (Action, bool), sys: System, sys': System)
    requires PeersOk(q, x, y) && Invariant(q, x, y, sys) && Next(q, x, y, call.0, call.1, sys, sys')
    ensures ChunkProgress(sys.a) + (if AsksForChunk(call, sys) then 1 else 0) <= ChunkProgress(sys'.a)
  {
    hide TrieHalf, BytesHalf, RootsHalf, BloomHalf, Acts, ChunkProgress;
    if call.1 {
      ChunkStepOfA(q, x, y, call.0, sys.a, sys.b, sys'.a, sys'.b);
    } else {
      PeerIsPassive(q, y, call.0, sys.b, sys.a, sys'.b, sys'.a);
    }
  }

  /** A call changes the process of its own side only. */
  lemma PeerIsPassive(q: Params, x: Peer, act: Action, s: Side, t: Side, s': Side, t': Side)
    requires PeerOk(q, x) && Acts(q, x, act, s, t, s', t')
    ensures t'.proc == t.proc && ChunkProgress(t') == ChunkProgress(t)
  {
    hide Diff, GetsSubTrie;
  }

  lemma ChunkStepOfA(q: Params, x: Peer, y: Peer, act: Action, s: Side, t: Side, s': Side, t': Side)
    requires PeersOk(q, x, y) && Acts(q, x, act, s, t, s', t')
    requires TrieHalf(x, y, s, t) && TrieHalf(y, x, t, s)
    ensures ChunkProgress(s) + (if act.SendChunk? && act.length > 0 && !s.proc.bfOutIsFinished then 1 else 0)
            <= ChunkProgress(s')
  {
    hide TrieHalf, Diff, GetsSubTrie;
    match act
    case SendSubtrie(max) =>
      var f :| SendsSubtrie(q, x, max, s, s', f);
      SendSubtrieTrie(q, x, y, max, s, t, s', f);
    case ReceiveAcks => ReceiveAcksTrie(x, y, s, t, s', t');
    case _ =>
  }

  lemma {:induction false} ChunkCallsAndProgress(q: Params, x: Peer, y: Peer, run: seq<System>,
                                                calls: seq<(Action, bool)>, i: nat)
    requires PeersOk(q, x, y) && IsRun(q, x, y, run, calls) && i < |run|
    ensures ChunkCalls(run, calls, i) <= ChunkProgress(run[i].a)
  {
    hide Next, Invariant, ChunkProgress, AsksForChunk;
    if i > 0 {
      ChunkCallsAndProgress(q, x, y, run, calls, i - 1);
      RunInvariant(q, x, y, run, calls, i - 1);
      ChunkStep(q, x, y, calls[i-1], run[i-1], run[i]);
    }
  }

  /** The chunk loop ends: whatever the other calls and the chunk sizes, a filter is finished after at
    most one call more than it has bytes. */
  lemma ChunkLoopEnds(q: Params, x: Peer, y: Peer, run: seq<System>, calls: seq<(Action, bool)>, i: nat)
    requires PeersOk(q, x, y) && IsRun(q, x, y, run, calls) && i < |run|
    ensures ChunkCalls(run, calls, i) <= q.ByteSize() + 1
  {
    hide TrieHalf, BytesHalf, RootsHalf, Next, ChunkCalls;
    ChunkCallsAndProgress(q, x, y, run, calls, i);
    RunInvariant(q, x, y, run, calls, i);
  }

  // ----- termination

  /** The work left in the direction from s to t. */
  function RankOf(x: Peer, s: Side, t: Side): int {
    Rank(x.root, s.proc, |AckBits(t.acks)|, |t.proc.pendingAcks|, |Concat(s.subs)|)
  }

  /** A call that moves the trie phase on: it starts it, sends or answers a subtrie, or sends or
    takes at least one ack. */
  ghost predicate Works(x: Peer, act: Action, s: Side, t: Side) {
    match act
    case StartTrie => s.proc.stat == START && x.root.Some?
    case SendSubtrie(_) => s.proc.pendingSubtries != []
    case ReceiveSubtrie => true
    case SendAcks(length) => length > 0
    case ReceiveAcks => t.acks != [] && t.acks[0].number > 0
    case _ => false
  }

  /** In a direction that has not started, nothing is on its way. */
  lemma IdleDirection(x: Peer, y: Peer, s: Side, t: Side)
    requires TrieHalf(x, y, s, t) && s.proc.sentHashes == []
    ensures |AckBits(t.acks)| == 0 && t.proc.pendingAcks == [] && |Concat(s.subs)| == 0
  {
    hide Running;
    assert |AckBits(t.acks) + t.proc.pendingAcks| == 0;
  }

  lemma StartRank(x: Peer, y: Peer, s: Side, t: Side, s': Side)
    requires TrieHalf(x, y, s, t) && s.proc.stat == START && x.root.Some?
    requires s' == s.(proc := Starts(s.proc, x.root))
    ensures RankOf(x, s', t) < RankOf(x, s, t)
  {
    NothingSent(x, y, s, t);
    IdleDirection(x, y, s, t);
    hide Rank;
    StartRanks(x.root, s.proc);
  }

  lemma NothingSent(x: Peer, y: Peer, s: Side, t: Side)
    requires TrieHalf(x, y, s, t) && s.proc.stat == START
    ensures s.proc.pendingSubtries == [] && s.proc.sentHashes == []
  {
    hide Running, Aligned;
  }

  lemma SendRank(q: Params, x: Peer, y: Peer, max: nat, s: Side, t: Side, s': Side)
    requires PeerOk(q, x) && TrieHalf(x, y, s, t) && exists f :: SendsSubtrie(q, x, max, s, s', f)
    ensures RankOf(x, s', t) + (if s.proc.pendingSubtries != [] then 1 else 0) <= RankOf(x, s, t)
  {
    var f :| SendsSubtrie(q, x, max, s, s', f);
    hide Rank, CutOf, Size, Aligned, Conserved, Budgeted;
    if s.proc.pendingSubtries != [] {
      SendTakesTop(x.root.value, s.proc, s'.proc, f, max, q.hashSize);
      SendRanks(x.root, s.proc, s'.proc, f, max, |AckBits(t.acks)|, |t.proc.pendingAcks|, |Concat(s.subs)|);
      if f != [] {
        ConcatSnoc(s.subs, f);
      }
    }
  }

  /** The direction from t: s answers a subtrie, or sends acks. */
  lemma AnswerRank(q: Params, x: Peer, y: Peer, s: Side, t: Side, s': Side, t': Side)
    requires TrieHalf(y, x, t, s) && ReceivesSubtrie(q, x, s, t, s', t')
    ensures RankOf(y, t', s') < RankOf(y, t, s)
  {
    hide Running, Costs, Weight, Verdicts;
    assert t.subs[0] in t.subs && t.subs[0] != [];
    assert Concat(t.subs) == t.subs[0] + Concat(t'.subs);
    if t.proc.stat == START {
      NothingSent(y, x, t, s);
      IdleDirection(y, x, t, s);
    }
  }

  lemma SendAcksRank(x: Peer, y: Peer, length: nat, s: Side, t: Side, s': Side)
    requires TrieHalf(y, x, t, s) && exists bytes :: SendsAcks(length, s, s', bytes)
    ensures RankOf(y, t, s') + (if length > 0 then 1 else 0) <= RankOf(y, t, s)
  {
    hide Running, Costs, Weight, Unpack;
    var bytes :| SendsAcks(length, s, s', bytes);
    PackedAcks(bytes, s.proc.pendingAcks[..AckNumber(s.proc, length)]);
    AckBitsSnoc(s.acks, AckMessage(bytes, AckNumber(s.proc, length)));
    if t.proc.stat == START {
      NothingSent(y, x, t, s);
      IdleDirection(y, x, t, s);
    }
  }

  lemma TakeAcksRank(x: Peer, y: Peer, s: Side, t: Side, s': Side, t': Side)
    requires TrieHalf(x, y, s, t) && TrieHalf(y, x, t, s) && ReceivesAcks(x, s, t, s', t')
    ensures RankOf(x, s', t') + t.acks[0].number <= RankOf(x, s, t)
  {
    hide Core, Rank;
    ReceiveAcksTrie(x, y, s, t, s', t');
    var bits := Unpack(t.acks[0].bytes)[..t.acks[0].number];
    assert AckBits(t.acks) == bits + AckBits(t'.acks);
    ConcatAssociative(bits, AckBits(t'.acks), t.proc.pendingAcks);
    AcksRank(x.root, y.root, s.proc, s.reported, s.history, bits, AckBits(t'.acks) + t.proc.pendingAcks, Concat(s.subs),
             |AckBits(t.acks)|, |t.proc.pendingAcks|, |Concat(s.subs)|);
    var p := ProcessAckBits(s.proc, x.root, bits).0;
    RankIgnoresCounters(x.root, p, s'.proc, |AckBits(t'.acks)|, |t.proc.pendingAcks|, |Concat(s.subs)|);
  }

  lemma RankIgnoresCounters(own: Option<Digest>, p: Process, p': Process, returning: nat, pendingAtPeer: nat,
                            flying: nat)
    requires p'.stat == p.stat && p'.sentHashes == p.sentHashes && p'.pendingSubtries == p.pendingSubtries
    ensures Rank(own, p', returning, pendingAtPeer, flying) == Rank(own, p, returning, pendingAtPeer, flying)
  {
  }

  lemma EqualRank(x: Peer, y: Peer, s: Side, t: Side, s': Side)
    requires TrieHalf(x, y, s, t) && s' == s.(proc := s.proc.(stat := EQUAL))
    ensures RankOf(x, s', t) <= RankOf(x, s, t)
  {
    hide Running, Costs;
    if s.proc.stat == START {
      NothingSent(x, y, s, t);
      IdleDirection(x, y, s, t);
      assert Costs([]) == 0 by { NoCosts(); }
    }
  }

  lemma NoCosts()
    ensures Costs([]) == 0
  {
  }

  /** Every call leaves at most as much work as before, and a call that moves the phase on leaves less. */
  lemma StepRank(q: Params, x: Peer, y: Peer, act: Action, s: Side, t: Side, s': Side, t': Side)
    requires PeersOk(q, x, y) && Acts(q, x, act, s, t, s', t')
    requires TrieHalf(x, y, s, t) && TrieHalf(y, x, t, s)
    ensures RankOf(x, s', t') + RankOf(y, t', s') + (if Works(x, act, s, t) then 1 else 0)
            <= RankOf(x, s, t) + RankOf(y, t, s)
  {
    hide TrieHalf, Rank, GetsSubTrie, Diff;
    match act
    case StartTrie =>
      if s.proc.stat == START && x.root.Some? {
        StartRank(x, y, s, t, s');
      }
    case SendSubtrie(max) =>
      SendRank(q, x, y, max, s, t, s');
      var f :| SendsSubtrie(q, x, max, s, s', f);
      SendSubtrieTrie(q, x, y, max, s, t, s', f);
    case ReceiveSubtrie =>
      AnswerRank(q, x, y, s, t, s', t');
      RankIgnoresCounters(x.root, s.proc, s'.proc, |AckBits(t.acks)|, |t.proc.pendingAcks|, |Concat(s.subs)|);
    case SendAcks(length) =>
      SendAcksRank(x, y, length, s, t, s');
      RankIgnoresCounters(x.root, s.proc, s'.proc, |AckBits(t.acks)|, |t.proc.pendingAcks|, |Concat(s.subs)|);
    case ReceiveAcks =>
      TakeAcksRank(x, y, s, t, s', t');
      ReceiveAcksTrie(x, y, s, t, s', t');
    case ReceiveRoot =>
      if s'.proc.stat == EQUAL {
        EqualRank(x, y, s, t, s');
      }
    case _ =>
      RankIgnoresCounters(x.root, s.proc, s'.proc, |AckBits(t.acks)|, |t.proc.pendingAcks|, |Concat(s.subs)|);
  }

  function SystemRank(x: Peer, y: Peer, sys: System): int {
    RankOf(x, sys.a, sys.b) + RankOf(y, sys.b, sys.a)
  }

  ghost predicate WorksAt(x: Peer, y: Peer, sys: System, call: (Action, bool)) {
    if call.1 then Works(x, call.0, sys.a, sys.b) else Works(y, call.0, sys.b, sys.a)
  }

  /** How many of the first i calls of a run moved a trie phase on. */
  ghost function WorkDone(x: Peer, y: Peer, run: seq<System>, calls: seq<(Action, bool)>, i: nat): nat
    requires |run| == |calls| + 1 && i <= |calls|
  {
    if i == 0 then 0
    else WorkDone(x, y, run, calls, i - 1) + if WorksAt(x, y, run[i-1], calls[i-1]) then 1 else 0
  }

  lemma NextRank(q: Params, x: Peer, y: Peer, call: (Action, bool), sys: System, sys': System)
    requires PeersOk(q, x, y) && Invariant(q, x, y, sys) && Next(q, x, y, call.0, call.1, sys, sys')
    ensures SystemRank(x, y, sys') + (if WorksAt(x, y, sys, call) then 1 else 0) <= SystemRank(x, y, sys)
  {
    hide TrieHalf, BytesHalf, BloomHalf, RootsHalf, Acts, Works, RankOf;
    if call.1 {
      StepRank(q, x, y, call.0, sys.a, sys.b, sys'.a, sys'.b);
    } else {
      StepRank(q, y, x, call.0, sys.b, sys.a, sys'.b, sys'.a);
    }
  }

  lemma {:induction false} WorkAndRank(q: Params, x: Peer, y: Peer, run: seq<System>, calls: seq<(Action, bool)>,
                                       i: nat)
    requires PeersOk(q, x, y) && IsRun(q, x, y, run, calls) && i < |run|
    ensures WorkDone(x, y, run, calls, i) + SystemRank(x, y, run[i]) <= SystemRank(x, y, run[0])
  {
    hide Next, Invariant, SystemRank, WorksAt;
    if i > 0 {
      WorkAndRank(q, x, y, run, calls, i - 1);
      RunInvariant(q, x, y, run, calls, i - 1);
      NextRank(q, x, y, calls[i-1], run[i-1], run[i]);
    }
  }

  /** The work a set is worth in its own direction: four messages a hash, and the start. */
  function MostWork(x: Peer): nat {
    if x.root.None? then 0 else 4 * MostSent(x.root.value) + 1
  }

  lemma FreshRank(q: Params, x: Peer)
    requires PeerOk(q, x)
    ensures RankOf(x, FreshSide(), FreshSide()) == MostWork(x)
  {
    if x.root.Some? && x.root.value.Inner? {
      NodesCounted(x.root.value, 8 * q.hashSize);
    }
  }

  /** Termination: whatever the interleaving, only so many calls of a run can move the two trie
    phases on. */
  lemma RunsTerminate(q: Params, x: Peer, y: Peer, run: seq<System>, calls: seq<(Action, bool)>)
    requires PeersOk(q, x, y) && IsRun(q, x, y, run, calls)
    ensures WorkDone(x, y, run, calls, |calls|) <= MostWork(x) + MostWork(y)
    ensures WorkDone(x, y, run, calls, |calls|) <= 8 * |KeysOf(x.root)| + 8 * |KeysOf(y.root)|
  {
    hide Next, Rank;
    WorkAndRank(q, x, y, run, calls, |calls|);
    FreshRank(q, x);
    FreshRank(q, y);
    var sys := run[|calls|];
    RankNotNegative(x.root, sys.a.proc, |AckBits(sys.b.acks)|, |sys.b.proc.pendingAcks|, |Concat(sys.a.subs)|);
    RankNotNegative(y.root, sys.b.proc, |AckBits(sys.a.acks)|, |sys.a.proc.pendingAcks|, |Concat(sys.b.subs)|);
  }

  /** A trie phase that has started gets stuck only when it has settled: with nothing left to
    expand, to answer or to deliver, the difference has been reported. */
  lemma StuckIsSettled(q: Params, x: Peer, y: Peer, run: seq<System>, calls: seq<(Action, bool)>, i: nat)
    requires PeersOk(q, x, y) && IsRun(q, x, y, run, calls) && i < |run|
    requires run[i].a.proc.stat == TRIE && run[i].a.proc.pendingSubtries == []
    requires run[i].a.subs == [] && run[i].b.acks == [] && run[i].b.proc.pendingAcks == []
    ensures Settled(run[i].a.proc)
    ensures IsDifference(run[i].a.reported, KeysOf(x.root), KeysOf(y.root))
  {
    hide Running, BytesHalf, BloomHalf, RootsHalf, Next;
    RunInvariant(q, x, y, run, calls, i);
    SideIsExact(q, x, y, run[i].a, run[i].b);
  }
}
