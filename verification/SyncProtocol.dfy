/** Two processes and the FIFO channels between them, in any interleaving.

  Both sets are fixed.  A side holds its process, what its handlers have received, and the
  messages it has sent that are still on their way; each kind of message has its own channel. */
module SyncProtocol {
  import opened Arithmetic
  import opened Bitset
  import opened Sequences
  import opened BloomSpec
  import opened Digests
  import opened Wrappers
  import opened Cuts
  import opened SyncSpec
  import opened SyncCore

  /** The fixed data of a set: the root of its trie, the bytes of its filter, and the index. */
  datatype Peer = Peer(root: Option<Digest>, bits: Bytes, index: Index)

  ghost predicate PeerOk(q: Params, x: Peer) {
    && q.Valid() && |x.bits| == q.ByteSize()
    && (x.root.Some? ==> Patricia(x.root.value, 8 * q.hashSize))
  }

  datatype AckMessage = AckMessage(bytes: Bytes, number: nat)

  datatype Side = Side(
    proc: Process,
    reported: seq<Digest>,
    bloomReported: seq<Key>,
    subs: seq<seq<Digest>>,
    acks: seq<AckMessage>,
    chunks: seq<Bytes>,
    roots: seq<Digest>,
    history: seq<Digest>,  // every hash sent
    rootsSent: nat)

  function FreshSide(): Side {
    Side(SyncSpec.Fresh(), [], [], [], [], [], [], [], 0)
  }

  datatype Action =
    | StartTrie
    | SendSubtrie(max: nat)
    | ReceiveSubtrie
    | SendAcks(length: nat)
    | ReceiveAcks
    | SendRoot
    | ReceiveRoot
    | SendChunk(length: nat)
    | ReceiveChunk

  // ----- steps of one side, which take messages from the other side's channels

  ghost predicate SendsSubtrie(q: Params, x: Peer, max: nat, s: Side, s': Side, f: seq<Digest>) {
    && max >= 2
    && GetsSubTrie(s.proc, x.root, max, q.hashSize, s'.proc, f)
    && s' == s.(proc := s'.proc, subs := if f == [] then s.subs else s.subs + [f], history := s.history + f)
  }

  ghost predicate ReceivesSubtrie(q: Params, x: Peer, s: Side, t: Side, s': Side, t': Side) {
    && t.subs != []
    && s' == s.(proc := SyncSpec.ProcessSubTrie(s.proc, x.root, t.subs[0], q.hashSize))
    && t' == t.(subs := t.subs[1..])
  }

  ghost predicate SendsAcks(length: nat, s: Side, s': Side, bytes: Bytes) {
    && s.proc.pendingAcks != []
    && ReadsAcks(s.proc, length, s'.proc, bytes)
    && s' == s.(proc := s'.proc, acks := s.acks + [AckMessage(bytes, AckNumber(s.proc, length))])
  }

  /** A thrown "illegal input length" would lose the message and change nothing else. */
  ghost predicate ReceivesAcks(x: Peer, s: Side, t: Side, s': Side, t': Side) {
    && t.acks != []
    && t' == t.(acks := t.acks[1..])
    && var r := SyncSpec.ProcessAcks(s.proc, x.root, t.acks[0].bytes, t.acks[0].number);
       s' == if r.Thrown? then s else s.(proc := r.value.0, reported := s.reported + r.value.1)
  }

  ghost predicate SendsRoot(q: Params, x: Peer, s: Side, s': Side) {
    s' == s.(proc := s.proc.(sentBytes := s.proc.sentBytes + q.hashSize),
             roots := if x.root.Some? then s.roots + [x.root.value] else s.roots,
             rootsSent := s.rootsSent + 1)
  }

  ghost predicate ReceivesRoot(x: Peer, s: Side, t: Side, s': Side, t': Side) {
    && t.roots != []
    && s' == s.(proc := SyncSpec.IsEqual(s.proc, x.root, t.roots[0]))
    && t' == t.(roots := t.roots[1..])
  }

  ghost predicate SendsChunk(x: Peer, length: nat, s: Side, s': Side) {
    var (p, chunk) := ReadChunk(s.proc, x.bits, length);
    s' == s.(proc := p, chunks := s.chunks + [chunk])
  }

  ghost predicate ReceivesChunk(q: Params, x: Peer, s: Side, t: Side, s': Side, t': Side)
    requires q.Valid() && |x.bits| == q.ByteSize()
  {
    && t.chunks != []
    && t' == t.(chunks := t.chunks[1..])
    && var chunk, pos := t.chunks[0], s.proc.bloomfilterIn_pos;
       s' == if |chunk| + pos > q.ByteSize() then s
             else s.(proc := ProcessChunk(s.proc, |chunk|),
                     bloomReported := s.bloomReported + Diff(q, FilterOf(x), Unpack(chunk), 8 * pos))
  }

  function FilterOf(x: Peer): Filter {
    Filter(Unpack(x.bits), x.index)
  }

  ghost predicate Acts(q: Params, x: Peer, act: Action, s: Side, t: Side, s': Side, t': Side)
    requires PeerOk(q, x)
  {
    match act
    case StartTrie => t' == t && s' == s.(proc := Starts(s.proc, x.root))
    case SendSubtrie(max) => t' == t && exists f :: SendsSubtrie(q, x, max, s, s', f)
    case ReceiveSubtrie => ReceivesSubtrie(q, x, s, t, s', t')
    case SendAcks(length) => t' == t && exists bytes :: SendsAcks(length, s, s', bytes)
    case ReceiveAcks => ReceivesAcks(x, s, t, s', t')
    case SendRoot => t' == t && SendsRoot(q, x, s, s')
    case ReceiveRoot => ReceivesRoot(x, s, t, s', t')
    case SendChunk(length) => t' == t && SendsChunk(x, length, s, s')
    case ReceiveChunk => ReceivesChunk(q, x, s, t, s', t')
  }

  // ----- invariants of the direction from s, with set x, to t, with set y

  /** The bits of the acks on their way. */
  function AckBits(acks: seq<AckMessage>): seq<bool> {
    if acks == [] then []
    else (if acks[0].number <= 8 * |acks[0].bytes| then Unpack(acks[0].bytes)[..acks[0].number] else [])
         + AckBits(acks[1..])
  }

  ghost predicate AckLengths(acks: seq<AckMessage>) {
    forall m :: m in acks ==> |m.bytes| == AckBytes(m.number)
  }

  ghost predicate TrieHalf(x: Peer, y: Peer, s: Side, t: Side) {
    && AckLengths(t.acks) && [] !in s.subs
    && Core(x.root, y.root, s.proc, s.reported, s.history, AckBits(t.acks) + t.proc.pendingAcks, Concat(s.subs))
  }

  function SubtrieBytes(subs: seq<seq<Digest>>, hs: nat): nat {
    if subs == [] then 0 else Size(subs[0], hs) + SubtrieBytes(subs[1..], hs)
  }

  function AckMessageBytes(acks: seq<AckMessage>): nat {
    if acks == [] then 0 else AckBytes(acks[0].number) + AckMessageBytes(acks[1..])
  }

  /** Bytes sent are bytes received, or on their way, or spent on root hashes. */
  ghost predicate BytesHalf(q: Params, s: Side, t: Side) {
    s.proc.sentBytes == t.proc.receivedBytes + SubtrieBytes(s.subs, q.hashSize) + AckMessageBytes(s.acks)
                        + |Concat(s.chunks)| + Times(q.hashSize, s.rootsSent)
  }

  /** The peer has compared its filter with the bits it has received so far. */
  ghost predicate BloomHalf(q: Params, x: Peer, y: Peer, s: Side, t: Side)
    requires PeerOk(q, x) && PeerOk(q, y)
  {
    var received, sent := t.proc.bloomfilterIn_pos, s.proc.bloomfilterOut_pos;
    && received <= sent <= q.ByteSize()
    && Concat(s.chunks) == x.bits[received..sent]
    && t.bloomReported == Diff(q, FilterOf(y), Unpack(x.bits)[..8 * received], 0)
    && (s.proc.bfOutIsFinished ==> sent == q.ByteSize())
  }

  ghost predicate RootsHalf(x: Peer, s: Side) {
    forall r :: r in s.roots ==> x.root == Some(r)
  }

  ghost predicate Half(q: Params, x: Peer, y: Peer, s: Side, t: Side)
    requires PeerOk(q, x) && PeerOk(q, y)
  {
    TrieHalf(x, y, s, t) && BytesHalf(q, s, t) && BloomHalf(q, x, y, s, t) && RootsHalf(x, s)
  }

  lemma InitHalf(q: Params, x: Peer, y: Peer)
    requires PeerOk(q, x) && PeerOk(q, y)
    ensures Half(q, x, y, FreshSide(), FreshSide())
  {
    hide Running, HasBit, DiffAt, LeafBag, NodeBag, LeafBags, NodeBags;
    assert Unpack(x.bits)[..0] == [];
  }

  // ----- the trie phase

  lemma {:induction false} AckBitsSnoc(acks: seq<AckMessage>, m: AckMessage)
    requires m.number <= 8 * |m.bytes|
    ensures AckBits(acks + [m]) == AckBits(acks) + Unpack(m.bytes)[..m.number]
  {
    hide Unpack;
    if acks == [] {
      assert acks + [m] == [m] && [m][1..] == [];
    } else {
      AckBitsSnoc(acks[1..], m);
      assert (acks + [m])[1..] == acks[1..] + [m] && (acks + [m])[0] == acks[0];
    }
  }

  lemma CoreIgnoresCounters(own: Option<Digest>, peer: Option<Digest>, p: Process, p': Process, reported: seq<Digest>,
                            history: seq<Digest>, acks: seq<bool>, flying: seq<Digest>)
    requires Core(own, peer, p, reported, history, acks, flying)
    requires p'.stat == p.stat && p'.sentHashes == p.sentHashes && p'.pendingSubtries == p.pendingSubtries
    ensures Core(own, peer, p', reported, history, acks, flying)
  {
    hide LeafBags, NodeBags, LeafBag, NodeBag, Aligned;
  }

  lemma SendSubtrieTrie(q: Params, x: Peer, y: Peer, max: nat, s: Side, t: Side, s': Side, f: seq<Digest>)
    requires PeerOk(q, x) && TrieHalf(x, y, s, t) && SendsSubtrie(q, x, max, s, s', f)
    ensures TrieHalf(x, y, s', t)
    ensures s'.proc.sentBytes == s.proc.sentBytes + Size(f, q.hashSize)
    ensures f == [] <==> s.proc.pendingSubtries == []
    ensures s'.proc == s.proc.(sentHashes := s'.proc.sentHashes, pendingSubtries := s'.proc.pendingSubtries,
                               sentBytes := s'.proc.sentBytes)
  {
    hide Core, GetsSubTrie;
    SendKeepsCore(x.root, y.root, s.proc, s'.proc, s.reported, s.history, AckBits(t.acks) + t.proc.pendingAcks,
                  Concat(s.subs), f, max, q.hashSize, 8 * q.hashSize);
    if f == [] {
      assert Concat(s.subs) + f == Concat(s.subs);
    } else {
      ConcatSnoc(s.subs, f);
    }
  }

  /** s answers a subtrie of t. */
  lemma ReceiveSubtrieTrie(q: Params, x: Peer, y: Peer, s: Side, t: Side, s': Side, t': Side)
    requires TrieHalf(x, y, s, t) && TrieHalf(y, x, t, s) && ReceivesSubtrie(q, x, s, t, s', t')
    ensures TrieHalf(x, y, s', t') && TrieHalf(y, x, t', s')
  {
    hide Core;
    CoreIgnoresCounters(x.root, y.root, s.proc, s'.proc, s.reported, s.history, AckBits(t.acks) + t.proc.pendingAcks,
                        Concat(s.subs));
    AnswerKeepsCore(y.root, x.root, t.proc, t.reported, t.history, AckBits(s.acks) + s.proc.pendingAcks, t.subs[0],
                    Concat(t'.subs));
    ConcatAssociative(AckBits(s.acks), s.proc.pendingAcks, Verdicts(x.root, t.subs[0]));
  }

  lemma SendAcksTrie(x: Peer, y: Peer, length: nat, s: Side, t: Side, s': Side, bytes: Bytes)
    requires TrieHalf(x, y, s, t) && TrieHalf(y, x, t, s) && SendsAcks(length, s, s', bytes)
    ensures TrieHalf(x, y, s', t) && TrieHalf(y, x, t, s')
  {
    hide Core;
    var number := AckNumber(s.proc, length);
    CoreIgnoresCounters(x.root, y.root, s.proc, s'.proc, s.reported, s.history, AckBits(t.acks) + t.proc.pendingAcks,
                        Concat(s.subs));
    PackedAcks(bytes, s.proc.pendingAcks[..number]);
    AckBitsSnoc(s.acks, AckMessage(bytes, number));
    ConcatAssociative(AckBits(s.acks), s.proc.pendingAcks[..number], s.proc.pendingAcks[number..]);
    assert s.proc.pendingAcks[..number] + s.proc.pendingAcks[number..] == s.proc.pendingAcks;
  }

  /** Reading the bits of a message gives back the acks that were packed. */
  lemma PackedAcks(bytes: Bytes, acks: seq<bool>)
    requires Packs(bytes, acks)
    ensures |acks| <= 8 * |bytes| && Unpack(bytes)[..|acks|] == acks
  {
  }

  lemma ReceiveAcksTrie(x: Peer, y: Peer, s: Side, t: Side, s': Side, t': Side)
    requires TrieHalf(x, y, s, t) && TrieHalf(y, x, t, s) && ReceivesAcks(x, s, t, s', t')
    ensures SyncSpec.ProcessAcks(s.proc, x.root, t.acks[0].bytes, t.acks[0].number).Ok?
    ensures TrieHalf(x, y, s', t') && TrieHalf(y, x, t', s')
    ensures s'.proc == s.proc.(sentHashes := s'.proc.sentHashes, pendingSubtries := s'.proc.pendingSubtries,
                               receivedBytes := s.proc.receivedBytes + AckBytes(t.acks[0].number))
  {
    hide Core;
    var m := t.acks[0];
    var bits := Unpack(m.bytes)[..m.number];
    var later := AckBits(t'.acks) + t.proc.pendingAcks;
    ConcatAssociative(bits, AckBits(t'.acks), t.proc.pendingAcks);
    AcksKeepCore(x.root, y.root, s.proc, s.reported, s.history, bits, later, Concat(s.subs));
    var (p, r) := ProcessAckBits(s.proc, x.root, bits);
    AcksTouch(s.proc, x.root, bits);
    CoreIgnoresCounters(x.root, y.root, p, s'.proc, s.reported + r, s.history, later, Concat(s.subs));
  }

  lemma {:induction false} AcksTouch(p: Process, root: Option<Digest>, bits: seq<bool>)
    requires |bits| <= |p.sentHashes|
    ensures var p' := ProcessAckBits(p, root, bits).0;
            p' == p.(sentHashes := p'.sentHashes, pendingSubtries := p'.pendingSubtries)
    decreases |bits|
  {
    if bits != [] {
      AcksTouch(ProcessAck(p, root, bits[0]).0, root, bits[1..]);
    }
  }

  lemma EqualKeepsCore(own: Option<Digest>, peer: Option<Digest>, p: Process, reported: seq<Digest>,
                       history: seq<Digest>, acks: seq<bool>, flying: seq<Digest>)
    requires Core(own, peer, p, reported, history, acks, flying) && own == peer && own.Some?
    ensures Core(own, peer, p.(stat := EQUAL), reported, history, acks, flying)
  {
    hide Aligned, LeafBags, NodeBags, LeafBag, NodeBag;
  }

  lemma ReceiveRootTrie(x: Peer, y: Peer, s: Side, t: Side, s': Side, t': Side)
    requires TrieHalf(x, y, s, t) && TrieHalf(y, x, t, s) && RootsHalf(y, t) && ReceivesRoot(x, s, t, s', t')
    ensures TrieHalf(x, y, s', t') && TrieHalf(y, x, t', s')
  {
    assert t.roots[0] in t.roots;
    hide Core;
    if x.root == Some(t.roots[0]) {
      EqualKeepsCore(x.root, y.root, s.proc, s.reported, s.history, AckBits(t.acks) + t.proc.pendingAcks,
                     Concat(s.subs));
    }
  }

  lemma StepKeepsTrie(q: Params, x: Peer, y: Peer, act: Action, s: Side, t: Side, s': Side, t': Side)
    requires PeerOk(q, x) && PeerOk(q, y) && Acts(q, x, act, s, t, s', t')
    requires TrieHalf(x, y, s, t) && TrieHalf(y, x, t, s) && RootsHalf(y, t)
    ensures TrieHalf(x, y, s', t') && TrieHalf(y, x, t', s')
  {
    hide Core;
    match act
    case StartTrie =>
      StartKeepsCore(x.root, y.root, s.proc, s.reported, s.history, AckBits(t.acks) + t.proc.pendingAcks,
                     Concat(s.subs));
    case SendSubtrie(max) =>
      var f :| SendsSubtrie(q, x, max, s, s', f);
      SendSubtrieTrie(q, x, y, max, s, t, s', f);
    case ReceiveSubtrie => ReceiveSubtrieTrie(q, x, y, s, t, s', t');
    case SendAcks(length) =>
      var bytes :| SendsAcks(length, s, s', bytes);
      SendAcksTrie(x, y, length, s, t, s', bytes);
    case ReceiveAcks => ReceiveAcksTrie(x, y, s, t, s', t');
    case ReceiveRoot => ReceiveRootTrie(x, y, s, t, s', t');
    case _ =>
      CoreIgnoresCounters(x.root, y.root, s.proc, s'.proc, s.reported, s.history,
                          AckBits(t.acks) + t.proc.pendingAcks, Concat(s.subs));
  }

  // ----- byte counts

  lemma {:induction false} SubtrieBytesSnoc(subs: seq<seq<Digest>>, f: seq<Digest>, hs: nat)
    ensures SubtrieBytes(subs + [f], hs) == SubtrieBytes(subs, hs) + Size(f, hs)
  {
    hide Size;
    if subs == [] {
      assert subs + [f] == [f] && [f][1..] == [];
    } else {
      SubtrieBytesSnoc(subs[1..], f, hs);
      assert (subs + [f])[1..] == subs[1..] + [f];
    }
  }

  lemma {:induction false} AckMessageBytesSnoc(acks: seq<AckMessage>, m: AckMessage)
    ensures AckMessageBytes(acks + [m]) == AckMessageBytes(acks) + AckBytes(m.number)
  {
    if acks == [] {
      assert acks + [m] == [m] && [m][1..] == [];
    } else {
      AckMessageBytesSnoc(acks[1..], m);
      assert (acks + [m])[1..] == acks[1..] + [m];
    }
  }

  lemma StepKeepsBytes(q: Params, x: Peer, y: Peer, act: Action, s: Side, t: Side, s': Side, t': Side)
    requires PeerOk(q, x) && PeerOk(q, y) && Acts(q, x, act, s, t, s', t')
    requires TrieHalf(x, y, s, t) && TrieHalf(y, x, t, s) && BloomHalf(q, y, x, t, s)
    requires BytesHalf(q, s, t) && BytesHalf(q, t, s)
    ensures BytesHalf(q, s', t') && BytesHalf(q, t', s')
  {
    hide TrieHalf, BloomHalf, BytesHalf, GetsSubTrie, Diff;
    match act
    case SendSubtrie(max) => SendSubtrieBytes(q, x, y, max, s, t, s');
    case SendAcks(length) => SendAcksBytes(q, length, s, t, s');
    case ReceiveAcks => ReceiveAcksBytes(q, x, y, s, t, s', t');
    case ReceiveChunk => ReceiveChunkBytes(q, x, y, s, t, s', t');
    case _ => OtherBytes(q, x, act, s, t, s', t');
  }

  lemma ReceiveAcksBytes(q: Params, x: Peer, y: Peer, s: Side, t: Side, s': Side, t': Side)
    requires TrieHalf(x, y, s, t) && TrieHalf(y, x, t, s) && ReceivesAcks(x, s, t, s', t')
    requires BytesHalf(q, s, t) && BytesHalf(q, t, s)
    ensures BytesHalf(q, s', t') && BytesHalf(q, t', s')
  {
    hide TrieHalf, Times, AckBytes, SubtrieBytes, Concat;
    ReceiveAcksTrie(x, y, s, t, s', t');
  }

  lemma ReceiveChunkBytes(q: Params, x: Peer, y: Peer, s: Side, t: Side, s': Side, t': Side)
    requires PeerOk(q, x) && PeerOk(q, y) && ReceivesChunk(q, x, s, t, s', t') && BloomHalf(q, y, x, t, s)
    requires BytesHalf(q, s, t) && BytesHalf(q, t, s)
    ensures BytesHalf(q, s', t') && BytesHalf(q, t', s')
  {
    hide Diff, Times, SubtrieBytes, AckMessageBytes;
    ChunkFits(q, y, x, t, s);
  }

  lemma OtherBytes(q: Params, x: Peer, act: Action, s: Side, t: Side, s': Side, t': Side)
    requires PeerOk(q, x) && Acts(q, x, act, s, t, s', t')
    requires act.StartTrie? || act.ReceiveSubtrie? || act.SendRoot? || act.ReceiveRoot? || act.SendChunk?
    requires BytesHalf(q, s, t) && BytesHalf(q, t, s)
    ensures BytesHalf(q, s', t') && BytesHalf(q, t', s')
  {
    hide Size, Times, GetsSubTrie, AckBytes, Diff;
    match act
    case SendRoot => TimesFacts(q.hashSize, s.rootsSent, 0);
    case SendChunk(length) => ConcatSnoc(s.chunks, ReadChunk(s.proc, x.bits, length).1);
    case _ =>
  }

  lemma SendSubtrieBytes(q: Params, x: Peer, y: Peer, max: nat, s: Side, t: Side, s': Side)
    requires PeerOk(q, x) && TrieHalf(x, y, s, t) && exists f :: SendsSubtrie(q, x, max, s, s', f)
    requires BytesHalf(q, s, t) && BytesHalf(q, t, s)
    ensures BytesHalf(q, s', t) && BytesHalf(q, t, s')
  {
    hide Core, Size, Times, GetsSubTrie, Diff, SubtrieBytes;
    var f :| SendsSubtrie(q, x, max, s, s', f);
    SendSubtrieTrie(q, x, y, max, s, t, s', f);
    SizeOfNothing(q.hashSize);
    SubtrieBytesSnoc(s.subs, f, q.hashSize);
  }

  lemma SendAcksBytes(q: Params, length: nat, s: Side, t: Side, s': Side)
    requires exists bytes :: SendsAcks(length, s, s', bytes)
    requires BytesHalf(q, s, t) && BytesHalf(q, t, s)
    ensures BytesHalf(q, s', t) && BytesHalf(q, t, s')
  {
    hide Size, Times, AckBytes, Unpack;
    var bytes :| SendsAcks(length, s, s', bytes);
    AckMessageBytesSnoc(s.acks, AckMessage(bytes, AckNumber(s.proc, length)));
  }

  lemma SizeOfNothing(hs: nat)
    ensures Size([], hs) == 0
  {
  }

  // ----- the Bloom phase

  /** The next chunk to arrive is the next part of the sender's filter, and fits. */
  lemma ChunkFits(q: Params, x: Peer, y: Peer, s: Side, t: Side)
    requires PeerOk(q, x) && PeerOk(q, y) && BloomHalf(q, x, y, s, t) && s.chunks != []
    ensures var pos, chunk := t.proc.bloomfilterIn_pos, s.chunks[0];
            && pos + |chunk| <= s.proc.bloomfilterOut_pos <= q.ByteSize()
            && chunk == x.bits[pos..pos+|chunk|]
            && Concat(s.chunks[1..]) == x.bits[pos+|chunk|..s.proc.bloomfilterOut_pos]
  {
    assert Concat(s.chunks) == s.chunks[0] + Concat(s.chunks[1..]);
    hide Concat, Unpack, Diff;
    SlicesOf(x.bits, t.proc.bloomfilterIn_pos, s.proc.bloomfilterOut_pos, s.chunks[0], Concat(s.chunks[1..]));
  }

  lemma SlicesOf<T>(all: seq<T>, from: nat, to: nat, front: seq<T>, back: seq<T>)
    requires from <= to <= |all| && all[from..to] == front + back
    ensures var mid := from + |front|; mid <= to && front == all[from..mid] && back == all[mid..to]
  {
    assert front == all[from..to][..|front|] && back == all[from..to][|front|..];
  }

  lemma SendChunkBloom(q: Params, x: Peer, y: Peer, length: nat, s: Side, t: Side, s': Side)
    requires PeerOk(q, x) && PeerOk(q, y) && BloomHalf(q, x, y, s, t) && SendsChunk(x, length, s, s')
    ensures BloomHalf(q, x, y, s', t)
  {
    hide Diff;
    var chunk := ReadChunk(s.proc, x.bits, length).1;
    ConcatSnoc(s.chunks, chunk);
    var received, sent, sent' := t.proc.bloomfilterIn_pos, s.proc.bloomfilterOut_pos, s'.proc.bloomfilterOut_pos;
    assert chunk == x.bits[sent..sent'];
    assert x.bits[received..sent] + x.bits[sent..sent'] == x.bits[received..sent'];
  }

  /** s compares its filter with a chunk of t's. */
  lemma ReceiveChunkBloom(q: Params, x: Peer, y: Peer, s: Side, t: Side, s': Side, t': Side)
    requires PeerOk(q, x) && PeerOk(q, y) && BloomHalf(q, y, x, t, s) && ReceivesChunk(q, x, s, t, s', t')
    ensures BloomHalf(q, y, x, t', s')
  {
    hide Diff, Unpack, Concat;
    ChunkFits(q, y, x, t, s);
    var pos, chunk := s.proc.bloomfilterIn_pos, t.chunks[0];
    DiffOfPrefix(q, FilterOf(x), y.bits, pos, |chunk|);
  }

  lemma DiffOfPrefix(q: Params, f: Filter, bits: Bytes, pos: nat, len: nat)
    requires q.Valid() && pos + len <= |bits| && 8 * |bits| <= |f.bits|
    ensures Diff(q, f, Unpack(bits)[..8 * (pos + len)], 0) ==
            Diff(q, f, Unpack(bits)[..8 * pos], 0) + Diff(q, f, Unpack(bits[pos..pos+len]), 8 * pos)
  {
    hide Diff;
    UnpackSlice(bits, pos, len);
    DiffConcat(q, f, Unpack(bits)[..8 * pos], Unpack(bits[pos..pos+len]), 0);
  }

  lemma UnpackSlice(bits: Bytes, pos: nat, len: nat)
    requires pos + len <= |bits|
    ensures Unpack(bits)[..8 * (pos + len)] == Unpack(bits)[..8 * pos] + Unpack(bits[pos..pos+len])
  {
    hide HasBit;
    var part := Unpack(bits[pos..pos+len]);
    forall i | 0 <= i < |part|
      ensures Unpack(bits)[8 * pos + i] == part[i]
    {
      assert (8 * pos + i) / 8 == pos + i / 8 && (8 * pos + i) % 8 == i % 8;
    }
  }

  /** Nothing that the Bloom phase looks at has changed. */
  ghost predicate BloomSame(s: Side, s': Side) {
    && s'.chunks == s.chunks && s'.bloomReported == s.bloomReported
    && s'.proc.bloomfilterOut_pos == s.proc.bloomfilterOut_pos && s'.proc.bloomfilterIn_pos == s.proc.bloomfilterIn_pos
    && s'.proc.bfOutIsFinished == s.proc.bfOutIsFinished
  }

  lemma SameKeepsBloom(q: Params, x: Peer, y: Peer, s: Side, t: Side, s': Side, t': Side)
    requires PeerOk(q, x) && PeerOk(q, y) && BloomHalf(q, x, y, s, t) && BloomSame(s, s') && BloomSame(t, t')
    ensures BloomHalf(q, x, y, s', t')
  {
    hide Diff;
  }

  lemma OthersLeaveBloom(q: Params, x: Peer, y: Peer, act: Action, s: Side, t: Side, s': Side, t': Side)
    requires PeerOk(q, x) && Acts(q, x, act, s, t, s', t') && !act.SendChunk? && !act.ReceiveChunk?
    requires TrieHalf(x, y, s, t) && TrieHalf(y, x, t, s)
    ensures BloomSame(s, s') && BloomSame(t, t')
  {
    hide TrieHalf, Size, GetsSubTrie, Diff;
    match act
    case SendSubtrie(max) =>
      var f :| SendsSubtrie(q, x, max, s, s', f);
      SendSubtrieTrie(q, x, y, max, s, t, s', f);
    case ReceiveAcks => ReceiveAcksTrie(x, y, s, t, s', t');
    case _ =>
  }

  lemma SendChunkLeaves(x: Peer, length: nat, s: Side, s': Side)
    requires SendsChunk(x, length, s, s')
    ensures s'.bloomReported == s.bloomReported && s'.proc.bloomfilterIn_pos == s.proc.bloomfilterIn_pos
  {
  }

  /** What BloomHalf says of a receiver does not depend on what it sends itself. */
  lemma ReceiverSame(q: Params, x: Peer, y: Peer, s: Side, t: Side, t': Side)
    requires PeerOk(q, x) && PeerOk(q, y) && BloomHalf(q, x, y, s, t)
    requires t'.bloomReported == t.bloomReported && t'.proc.bloomfilterIn_pos == t.proc.bloomfilterIn_pos
    ensures BloomHalf(q, x, y, s, t')
  {
    hide Diff;
  }

  lemma ReceiveChunkLeaves(q: Params, x: Peer, y: Peer, s: Side, t: Side, s': Side, t': Side)
    requires PeerOk(q, x) && PeerOk(q, y) && ReceivesChunk(q, x, s, t, s', t') && BloomHalf(q, x, y, s, t)
    ensures BloomHalf(q, x, y, s', t')
  {
    hide Diff;
  }

  lemma StepKeepsBloom(q: Params, x: Peer, y: Peer, act: Action, s: Side, t: Side, s': Side, t': Side)
    requires PeerOk(q, x) && PeerOk(q, y) && Acts(q, x, act, s, t, s', t')
    requires TrieHalf(x, y, s, t) && TrieHalf(y, x, t, s)
    requires BloomHalf(q, x, y, s, t) && BloomHalf(q, y, x, t, s)
    ensures BloomHalf(q, x, y, s', t') && BloomHalf(q, y, x, t', s')
  {
    hide TrieHalf, BloomHalf, SendsChunk, ReceivesChunk;
    match act
    case SendChunk(length) =>
      SendChunkBloom(q, x, y, length, s, t, s');
      SendChunkLeaves(x, length, s, s');
      ReceiverSame(q, y, x, t, s, s');
    case ReceiveChunk =>
      ReceiveChunkBloom(q, x, y, s, t, s', t');
      ReceiveChunkLeaves(q, x, y, s, t, s', t');
    case _ =>
      OthersLeaveBloom(q, x, y, act, s, t, s', t');
      SameKeepsBloom(q, x, y, s, t, s', t');
      SameKeepsBloom(q, y, x, t, s, t', s');
  }

  lemma StepKeepsRoots(q: Params, x: Peer, y: Peer, act: Action, s: Side, t: Side, s': Side, t': Side)
    requires PeerOk(q, x) && Acts(q, x, act, s, t, s', t') && RootsHalf(x, s) && RootsHalf(y, t)
    ensures RootsHalf(x, s') && RootsHalf(y, t')
  {
    hide GetsSubTrie, Diff;
  }

  // ----- the whole system

  datatype System = System(a: Side, b: Side)

  ghost predicate PeersOk(q: Params, x: Peer, y: Peer) {
    PeerOk(q, x) && PeerOk(q, y)
  }

  ghost predicate Invariant(q: Params, x: Peer, y: Peer, sys: System)
    requires PeersOk(q, x, y)
  {
    Half(q, x, y, sys.a, sys.b) && Half(q, y, x, sys.b, sys.a)
  }

  /** One call on either side. */
  ghost predicate Next(q: Params, x: Peer, y: Peer, act: Action, byA: bool, sys: System, sys': System)
    requires PeersOk(q, x, y)
  {
    if byA then Acts(q, x, act, sys.a, sys.b, sys'.a, sys'.b) else Acts(q, y, act, sys.b, sys.a, sys'.b, sys'.a)
  }

  lemma StepKeepsHalves(q: Params, x: Peer, y: Peer, act: Action, s: Side, t: Side, s': Side, t': Side)
    requires PeersOk(q, x, y) && Acts(q, x, act, s, t, s', t') && Half(q, x, y, s, t) && Half(q, y, x, t, s)
    ensures Half(q, x, y, s', t') && Half(q, y, x, t', s')
  {
    hide Acts, TrieHalf, BytesHalf, BloomHalf, RootsHalf;
    StepKeepsTrie(q, x, y, act, s, t, s', t');
    StepKeepsBytes(q, x, y, act, s, t, s', t');
    StepKeepsBloom(q, x, y, act, s, t, s', t');
    StepKeepsRoots(q, x, y, act, s, t, s', t');
  }

  lemma NextKeepsInvariant(q: Params, x: Peer, y: Peer, act: Action, byA: bool, sys: System, sys': System)
    requires PeersOk(q, x, y) && Invariant(q, x, y, sys) && Next(q, x, y, act, byA, sys, sys')
    ensures Invariant(q, x, y, sys')
  {
    hide Acts, Half;
    if byA {
      StepKeepsHalves(q, x, y, act, sys.a, sys.b, sys'.a, sys'.b);
    } else {
      StepKeepsHalves(q, y, x, act, sys.b, sys.a, sys'.b, sys'.a);
    }
  }

  /** A run: states joined by the calls that lead from one to the next, by either side. */
  ghost predicate IsRun(q: Params, x: Peer, y: Peer, run: seq<System>, calls: seq<(Action, bool)>)
    requires PeersOk(q, x, y)
  {
    && |run| == |calls| + 1
    && run[0] == System(FreshSide(), FreshSide())
    && forall i :: 0 <= i < |calls| ==> Next(q, x, y, calls[i].0, calls[i].1, run[i], run[i+1])
  }

  lemma {:induction false} RunInvariant(q: Params, x: Peer, y: Peer, run: seq<System>, calls: seq<(Action, bool)>,
                                        i: nat)
    requires PeersOk(q, x, y) && IsRun(q, x, y, run, calls) && i < |run|
    ensures Invariant(q, x, y, run[i])
  {
    hide Next, Half;
    if i == 0 {
      InitHalf(q, x, y);
      InitHalf(q, y, x);
    } else {
      RunInvariant(q, x, y, run, calls, i - 1);
      NextKeepsInvariant(q, x, y, calls[i-1].0, calls[i-1].1, run[i-1], run[i]);
    }
  }
}
