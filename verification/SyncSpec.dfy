/** The state of one synchronization process and what each of its calls does to it. */
module SyncSpec {
  import opened Bitset
  import opened Digests
  import opened KeyValueTries
  import opened Wrappers
  import opened Cuts

  datatype Status = START | TRIE | EQUAL

  /** Queues have their front at index 0, the stack has its top at the end. */
  datatype Process = Process(
    stat: Status,
    sentHashes: seq<Digest>,
    pendingSubtries: seq<Digest>,
    pendingAcks: seq<bool>,
    bloomfilterOut_pos: nat,
    bloomfilterIn_pos: nat,
    bfOutIsFinished: bool,
    sentBytes: nat,
    receivedBytes: nat)

  function Fresh(): Process {
    Process(START, [], [], [], 0, 0, false, 0, 0)
  }

  function Topmost(p: Process): Digest
    requires p.pendingSubtries != []
  {
    p.pendingSubtries[|p.pendingSubtries|-1]
  }

  function Popped(p: Process): Process
    requires p.pendingSubtries != []
  {
    p.(pendingSubtries := p.pendingSubtries[..|p.pendingSubtries|-1])
  }

  /** Bytes of a buffer of hashes. */
  function Size(f: seq<Digest>, hs: nat): nat {
    |f| * hs
  }

  /** getSubTrie: cuts the topmost pending subtrie that can be cut into at most max digests; pending
    subtries above it that the trie does not know, or that do not fit the buffer, are dropped. */
  ghost predicate GetsSubTrie(p: Process, root: Option<Digest>, max: nat, hs: nat, p': Process, f: seq<Digest>)
    decreases |p.pendingSubtries|
  {
    if p.pendingSubtries == [] then p' == p && f == []
    else if max < 2 || Lookup(root, Topmost(p)) == NOT_FOUND then GetsSubTrie(Popped(p), root, max, hs, p', f)
    else
      && CutOf(Topmost(p), max, f)
      && p' == Popped(p).(sentHashes := p.sentHashes + f, sentBytes := p.sentBytes + Size(f, hs))
  }

  /** The ack of a hash: whether the trie lacks it. */
  function Verdicts(root: Option<Digest>, f: seq<Digest>): (v: seq<bool>)
    ensures |v| == |f| && forall i :: 0 <= i < |f| ==> v[i] == (Lookup(root, f[i]) == NOT_FOUND)
  {
    seq(|f|, i requires 0 <= i < |f| => Lookup(root, f[i]) == NOT_FOUND)
  }

  function ProcessSubTrie(p: Process, root: Option<Digest>, f: seq<Digest>, hs: nat): Process {
    p.(pendingAcks := p.pendingAcks + Verdicts(root, f), receivedBytes := p.receivedBytes + Size(f, hs))
  }

  /** The bytes it takes to hold so many acks, one bit each. */
  function AckBytes(number: nat): (b: nat)
    ensures number <= 8 * b < number + 8
  {
    (number + 7) / 8
  }

  /** How many acks go into a buffer: all of them, or as many as fit. */
  function AckNumber(p: Process, length: nat): (number: nat)
    ensures number <= |p.pendingAcks| && number <= 8 * length
    ensures number == |p.pendingAcks| || number == 8 * length
  {
    if length * 8 < |p.pendingAcks| then length * 8 else |p.pendingAcks|
  }

  /** The bytes carry these bits, and zeros behind them. */
  ghost predicate Packs(bytes: Bytes, bits: seq<bool>) {
    && |bytes| == AckBytes(|bits|)
    && (forall i :: 0 <= i < |bits| ==> Unpack(bytes)[i] == bits[i])
    && (forall i :: |bits| <= i < 8 * |bytes| ==> !Unpack(bytes)[i])
  }

  /** readSomeTrieAcks, for pending acks: the front of the queue as packed bits. */
  ghost predicate ReadsAcks(p: Process, length: nat, p': Process, bytes: Bytes) {
    var number := AckNumber(p, length);
    && Packs(bytes, p.pendingAcks[..number])
    && p' == p.(pendingAcks := p.pendingAcks[number..], sentBytes := p.sentBytes + AckBytes(number))
  }

  /** One ack: the front of the sent hashes is reported, expanded later, or dropped. */
  function ProcessAck(p: Process, root: Option<Digest>, ack: bool): (r: (Process, seq<Digest>))
    requires p.sentHashes != []
  {
    var hash := p.sentHashes[0];
    var rest := p.(sentHashes := p.sentHashes[1..]);
    if !ack then (rest, [])
    else match Lookup(root, hash)
      case LEAF_NODE => (rest, [hash])
      case INNER_NODE => (rest.(pendingSubtries := p.pendingSubtries + [hash]), [])
      case NOT_FOUND => (rest.(pendingSubtries := if root.Some? then [root.value] else []), [])
  }

  function ProcessAckBits(p: Process, root: Option<Digest>, acks: seq<bool>): (r: (Process, seq<Digest>))
    requires |acks| <= |p.sentHashes|
    decreases |acks|
  {
    if acks == [] then (p, [])
    else
      var (p1, r1) := ProcessAck(p, root, acks[0]);
      var (p2, r2) := ProcessAckBits(p1, root, acks[1..]);
      (p2, r1 + r2)
  }

  lemma AckBitsStep(p: Process, root: Option<Digest>, acks: seq<bool>, i: nat)
    requires i < |acks| && |acks| - i <= |p.sentHashes|
    ensures var (p1, r1) := ProcessAck(p, root, acks[i]);
            |acks| - (i + 1) <= |p1.sentHashes| &&
            ProcessAckBits(p, root, acks[i..]) ==
              (ProcessAckBits(p1, root, acks[i+1..]).0, r1 + ProcessAckBits(p1, root, acks[i+1..]).1)
  {
    assert acks[i..][0] == acks[i] && acks[i..][1..] == acks[i+1..];
  }

  /** processAcks: throws on a short buffer or on more acks than hashes were sent. */
  function ProcessAcks(p: Process, root: Option<Digest>, bytes: Bytes, number: nat)
      : (r: Result<(Process, seq<Digest>)>)
    ensures r.Ok? <==> number <= 8 * |bytes| && number <= |p.sentHashes|
  {
    if |bytes| < AckBytes(number) || number > |p.sentHashes| then Result.Thrown
    else
      assert number <= 8 * |bytes|;
      var (p', reported) := ProcessAckBits(p, root, Unpack(bytes)[..number]);
      Result.Ok((p'.(receivedBytes := p'.receivedBytes + AckBytes(number)), reported))
  }

  /** isSubtrieOutputAvailable: the first call starts the trie phase with the root. */
  function Starts(p: Process, root: Option<Digest>): Process {
    if p.stat == START && root.Some? then
      p.(stat := TRIE, pendingSubtries := p.pendingSubtries + [root.value])
    else p
  }

  function IsEqual(p: Process, root: Option<Digest>, hash: Digest): Process {
    if root == Some(hash) then p.(stat := EQUAL) else p
  }

  predicate Done(p: Process) {
    || p.stat == EQUAL
    || (p.pendingAcks == [] && p.pendingSubtries == [] && p.sentHashes == [] && p.stat != START)
  }

  /** The part of a filter's bytes that a chunk of at most length bytes holds. */
  function Chunk(bits: Bytes, offset: nat, length: nat): (c: Bytes)
    ensures |c| <= length
    ensures if offset > |bits| then c == [] else c <= bits[offset..] && (|c| == length || offset + |c| == |bits|)
  {
    if offset >= |bits| then []
    else if length < |bits| - offset then bits[offset..offset+length]
    else bits[offset..]
  }

  /** The filter is finished when a chunk is asked for that reaches beyond its end. */
  function ReadChunk(p: Process, bits: Bytes, length: nat): (r: (Process, Bytes))
    ensures p.bloomfilterOut_pos <= |bits| ==>
              (r.0.bfOutIsFinished <==> p.bfOutIsFinished || p.bloomfilterOut_pos + length > |bits|)
  {
    var chunk := Chunk(bits, p.bloomfilterOut_pos, length);
    (p.(bloomfilterOut_pos := p.bloomfilterOut_pos + |chunk|,
        bfOutIsFinished := p.bfOutIsFinished || |chunk| < length,
        sentBytes := p.sentBytes + |chunk|), chunk)
  }

  function ProcessChunk(p: Process, length: nat): Process {
    p.(bloomfilterIn_pos := p.bloomfilterIn_pos + length, receivedBytes := p.receivedBytes + length)
  }
}
