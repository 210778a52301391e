/** One side of a synchronization, as an object with queues, a stack and counters. */
module SyncProcess {
  import opened Bitset
  import opened BloomSpec
  import opened CountingBloom
  import opened DiffHandlers
  import opened Digests
  import opened TrieStore
  import opened KeyValueTries
  import opened Wrappers
  import opened Cuts
  import opened Sequences
  import opened SyncSpec

  /** The bytes that the acks need, out of a cleared buffer that they were written to. */
  lemma PackedPrefix(all: Bytes, bytes: Bytes, acks: seq<bool>)
    requires |bytes| == AckBytes(|acks|) <= |all| && bytes == all[..|bytes|]
    requires forall j :: 0 <= j < 8 * |all| ==> Unpack(all)[j] == (j < |acks| && acks[j])
    ensures Packs(bytes, acks)
  {
    forall j | 0 <= j < 8 * |bytes|
      ensures Unpack(bytes)[j] == Unpack(all)[j]
    {
    }
  }

  class SynchronizationProcess {
    const trie: KeyValueTrie
    const bf: CountingBloomFilter
    var stat: Status
    var sentHashes: seq<Digest>
    var pendingSubtries: seq<Digest>
    var pendingAcks: seq<bool>
    var bloomfilterOut_pos: nat
    var bloomfilterIn_pos: nat
    var bfOutIsFinished: bool
    var sentBytes: nat
    var receivedBytes: nat

    ghost predicate Valid()
      reads this, trie, bf
    {
      trie.Valid() && bf.Valid()
    }

    ghost function State(): Process
      reads this
    {
      Process(stat, sentHashes, pendingSubtries, pendingAcks, bloomfilterOut_pos, bloomfilterIn_pos,
              bfOutIsFinished, sentBytes, receivedBytes)
    }

    constructor (t: KeyValueTrie, b: CountingBloomFilter)
      ensures trie == t && bf == b && State() == Fresh()
    {
      trie, bf := t, b;
      stat, sentHashes, pendingSubtries, pendingAcks := START, [], [], [];
      bloomfilterOut_pos, bloomfilterIn_pos, bfOutIsFinished, sentBytes, receivedBytes := 0, 0, false, 0, 0;
    }

    method Cut(hash: Digest, buffersize: nat) returns (cut: Result<seq<Digest>>)
      requires Valid()
      ensures cut.Thrown? <==> trie.Capacity(buffersize) < 2 || Lookup(trie.root, hash) == NOT_FOUND
      ensures cut.Ok? ==> CutOf(hash, trie.Capacity(buffersize), cut.value)
    {
      hide CutOf, Lookup;
      CutFits(hash, trie.Capacity(buffersize), trie.HashSize(), buffersize);
      cut := Cuts.GetSubTrie(trie, hash, buffersize);
    }

    method GetSubTrie(buffersize: nat) returns (buffer: seq<Digest>)
      requires Valid()
      modifies this
      ensures GetsSubTrie(old(State()), trie.root, trie.Capacity(buffersize), trie.HashSize(), State(), buffer)
      decreases |pendingSubtries|
    {
      hide Size, CutOf, Lookup;
      if |pendingSubtries| > 0 {
        var top := pendingSubtries[|pendingSubtries|-1];
        var cut := Cut(top, buffersize);
        pendingSubtries := pendingSubtries[..|pendingSubtries|-1];
        if cut.Thrown? {
          buffer := GetSubTrie(buffersize);  // whatever the exception, the subtrie is dropped
          return;
        }
        buffer := cut.value;
        sentHashes := sentHashes + buffer;
        sentBytes := sentBytes + Size(buffer, trie.HashSize());
      } else {
        buffer := [];
      }
    }

    /** Clears the buffer and moves so many acks into its bits. */
    method PackAcks(buffer: array<bv8>, length: nat, number: nat)
      requires length <= buffer.Length && number <= |pendingAcks| && number <= 8 * length
      modifies this`pendingAcks, buffer
      ensures State() == old(State()).(pendingAcks := old(pendingAcks)[number..])
      ensures forall j :: 0 <= j < 8 * length ==> Unpack(buffer[..length])[j] == (j < number && old(pendingAcks)[j])
    {
      forall i | 0 <= i < length {
        buffer[i] := 0;
      }
      ghost var acks := pendingAcks;
      UnpackZeros(buffer[..length]);
      for i := 0 to number
        invariant pendingAcks == acks[i..]
        invariant forall j :: 0 <= j < 8 * length ==> Unpack(buffer[..length])[j] == (j < i && acks[j])
      {
        var b := pendingAcks[0];
        if b {
          UnpackSet(buffer[..length], i);
          ghost var bytes := buffer[..length];
          buffer[i / 8] := WithBit(buffer[i / 8], i % 8);
          assert buffer[..length] == BitSet(bytes, i);
        }
        pendingAcks := pendingAcks[1..];
      }
    }

    method ReadSomeTrieAcks(buffer: array<bv8>, length: nat) returns (resultsize: nat, numberOfAcks: nat)
      requires length <= buffer.Length
      modifies this, buffer
      ensures old(pendingAcks) == [] ==> resultsize == 0 && State() == old(State()) && buffer[..] == old(buffer[..])
      ensures old(pendingAcks) != [] ==>
                && numberOfAcks == AckNumber(old(State()), length)
                && resultsize == AckBytes(numberOfAcks) <= length
                && ReadsAcks(old(State()), length, State(), buffer[..resultsize])
    {
      numberOfAcks := 0;
      if |pendingAcks| > 0 {
        numberOfAcks := if length * 8 < |pendingAcks| then length * 8 else |pendingAcks|;
        ghost var acks := pendingAcks[..numberOfAcks];
        PackAcks(buffer, length, numberOfAcks);
        resultsize := (numberOfAcks + 7) / 8;
        sentBytes := sentBytes + resultsize;
        PackedPrefix(buffer[..length], buffer[..resultsize], acks);
      } else {
        resultsize := 0;
      }
    }

    method ProcessSubTrie(buffer: seq<Digest>) returns (acksize: nat)
      requires Valid()
      modifies this
      ensures State() == SyncSpec.ProcessSubTrie(old(State()), trie.root, buffer, trie.HashSize())
      ensures acksize == AckBytes(|pendingAcks|)
    {
      ghost var v := Verdicts(trie.root, buffer);
      for i := 0 to |buffer|
        invariant State() == old(State()).(pendingAcks := old(pendingAcks) + v[..i])
      {
        var t := trie.Contains(buffer[i]);
        pendingAcks := pendingAcks + [t == NOT_FOUND];
        assert v[..i+1] == v[..i] + [v[i]];
      }
      assert v[..|buffer|] == v;
      receivedBytes := receivedBytes + Size(buffer, trie.HashSize());
      return (|pendingAcks| + 7) / 8;
    }

    method ProcessAcks(buffer: Bytes, numberOfAcks: nat, handler: DiffHandler<Digest>)
        returns (r: Result<()>)
      requires Valid()
      modifies this, handler
      ensures var spec := SyncSpec.ProcessAcks(old(State()), trie.root, buffer, numberOfAcks);
              && (r.Thrown? <==> spec.Thrown?)
              && (r.Thrown? ==> State() == old(State()) && handler.received == old(handler.received))
              && (r.Ok? ==> State() == spec.value.0 && handler.received == old(handler.received) + spec.value.1)
    {
      if |buffer| < (numberOfAcks + 7) / 8 {
        return Result.Thrown;
      }
      if numberOfAcks > |sentHashes| {
        return Result.Thrown;
      }
      ProcessAckBuffer(buffer, numberOfAcks, Unpack(buffer)[..numberOfAcks], handler);
      receivedBytes := receivedBytes + (numberOfAcks + 7) / 8;
      return Result.Ok(());
    }

    method ProcessAckBuffer(buffer: Bytes, numberOfAcks: nat, ghost acks: seq<bool>, handler: DiffHandler<Digest>)
      requires Valid() && numberOfAcks <= 8 * |buffer| && numberOfAcks <= |sentHashes|
      requires acks == Unpack(buffer)[..numberOfAcks]
      modifies this, handler
      ensures State() == ProcessAckBits(old(State()), trie.root, acks).0
      ensures handler.received == old(handler.received) + ProcessAckBits(old(State()), trie.root, acks).1
    {
      ghost var spec := ProcessAckBits(State(), trie.root, acks);
      assert acks[0..] == acks && acks[numberOfAcks..] == [];
      for i := 0 to numberOfAcks
        invariant numberOfAcks - i <= |sentHashes|
        invariant ProcessAckBits(State(), trie.root, acks[i..]).0 == spec.0
        invariant handler.received + ProcessAckBits(State(), trie.root, acks[i..]).1 == old(handler.received) + spec.1
      {
        hide WellFormed, Leaves, SyncSpec.ProcessAck, ProcessAckBits, Unpack;
        NextAck(buffer, i, acks, handler);
      }
    }

    method NextAck(buffer: Bytes, i: nat, ghost acks: seq<bool>, handler: DiffHandler<Digest>)
      requires Valid() && i < |acks| <= 8 * |buffer| && |acks| - i <= |sentHashes|
      requires acks == Unpack(buffer)[..|acks|]
      modifies this, handler
      ensures |acks| - (i + 1) <= |sentHashes|
      ensures ProcessAckBits(State(), trie.root, acks[i+1..]).0 == ProcessAckBits(old(State()), trie.root, acks[i..]).0
      ensures handler.received + ProcessAckBits(State(), trie.root, acks[i+1..]).1 ==
              old(handler.received) + ProcessAckBits(old(State()), trie.root, acks[i..]).1
    {
      AckBitsStep(State(), trie.root, acks, i);
      hide WellFormed, Leaves, SyncSpec.ProcessAck, ProcessAckBits, Unpack;
      ghost var (p1, r1) := SyncSpec.ProcessAck(State(), trie.root, acks[i]);
      ConcatAssociative(handler.received, r1, ProcessAckBits(p1, trie.root, acks[i+1..]).1);
      var ack := AckAt(buffer, i);
      ProcessAck(ack, handler);
    }

    method AckAt(buffer: Bytes, i: nat) returns (ack: bool)
      requires i < 8 * |buffer|
      ensures ack == Unpack(buffer)[i]
    {
      ack := HasBit(buffer[i / 8], i % 8);
    }

    /** What one ack bit does to the hash it answers. */
    method ProcessAck(ack: bool, handler: DiffHandler<Digest>)
      requires Valid() && |sentHashes| > 0
      modifies this, handler
      ensures State() == SyncSpec.ProcessAck(old(State()), trie.root, ack).0
      ensures handler.received == old(handler.received) + SyncSpec.ProcessAck(old(State()), trie.root, ack).1
    {
      if ack {
        var t := trie.Contains(sentHashes[0]);
        match t
        case LEAF_NODE =>
          handler.Handle(sentHashes[0]);
        case INNER_NODE =>
          pendingSubtries := pendingSubtries + [sentHashes[0]];
        case NOT_FOUND =>
          // the source starts over with the root
          pendingSubtries := [];
          var newroot := trie.GetRoot();
          if newroot.Some? {
            pendingSubtries := pendingSubtries + [newroot.value];
          }
      }
      sentHashes := sentHashes[1..];
    }

    method IsSubtrieOutputAvailable() returns (available: bool)
      requires Valid()
      modifies this
      ensures State() == Starts(old(State()), trie.root)
      ensures available <==> pendingSubtries != []  && !(old(stat) == START && trie.root == None)
    {
      if stat == START {
        var root := trie.GetRoot();
        if root.Some? {
          stat := TRIE;
          pendingSubtries := pendingSubtries + [root.value];
        } else {
          return false;
        }
      }
      return |pendingSubtries| > 0;
    }

    method IsEqual(hash: Digest) returns (equal: bool)
      requires Valid()
      modifies this
      ensures State() == SyncSpec.IsEqual(old(State()), trie.root, hash)
      ensures equal <==> stat == EQUAL
    {
      if stat == EQUAL {
        return true;
      }
      var localroothash := trie.GetRoot();
      if localroothash == None {
        return false;
      }
      if localroothash.value == hash {
        stat := EQUAL;
        return true;
      }
      return false;
    }

    method Done() returns (r: bool)
      ensures r == SyncSpec.Done(State())
    {
      if stat == EQUAL {
        return true;
      }
      if |pendingAcks| > 0 {
        return false;
      }
      if |pendingSubtries| > 0 {
        return false;
      }
      if |sentHashes| > 0 {
        return false;
      }
      return stat != START;
    }

    method ReadNextBloomFilterChunk(length: nat) returns (chunk: Bytes)
      requires Valid()
      modifies this
      ensures (State(), chunk) == ReadChunk(old(State()), bf.bitArray[..], length)
    {
      chunk := bf.GetChunk(length, bloomfilterOut_pos);
      bloomfilterOut_pos := bloomfilterOut_pos + |chunk|;
      if |chunk| < length {
        bfOutIsFinished := true;
      }
      sentBytes := sentBytes + |chunk|;
    }

    /** Throws, before any counter moves, when the chunk does not fit the local filter. */
    method ProcessBloomFilterChunk(chunk: Bytes, handler: DiffHandler<Key>) returns (r: Result<()>)
      requires Valid()
      modifies this, handler
      ensures r.Thrown? <==> |chunk| + old(bloomfilterIn_pos) > bf.q.ByteSize()
      ensures r.Thrown? ==> State() == old(State()) && handler.received == old(handler.received)
      ensures r.Ok? ==>
                && State() == ProcessChunk(old(State()), |chunk|)
                && handler.received == old(handler.received) +
                     BloomSpec.Diff(bf.q, bf.State(), Unpack(chunk), 8 * old(bloomfilterIn_pos))
    {
      r := bf.Diff(chunk, bloomfilterIn_pos, handler);
      if r.Ok? {
        bloomfilterIn_pos := bloomfilterIn_pos + |chunk|;
        receivedBytes := receivedBytes + |chunk|;
      }
    }

    /** The root hash for the peer; counted as sent, though the peer does not count it. */
    method GetRootHashForSending() returns (hash: Option<Digest>)
      requires Valid()
      modifies this
      ensures hash == trie.root
      ensures State() == old(State()).(sentBytes := old(sentBytes) + trie.HashSize())
    {
      sentBytes := sentBytes + trie.HashSize();
      hash := trie.GetRoot();
    }
  }
}
