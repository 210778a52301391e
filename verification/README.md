# Verification of libsetsync

A Dafny model of the parts of libsetsync that decide whether two sets are reconciled correctly, with proofs
about every input, every reachable store and every run. `dafny verify dfyconfig.toml` checks all of it.

## What is modelled

**The trie** (`Digests`, `TrieStore`, `KeyValueTries`, `Cuts`, `WideHashes`). A digest is symbolic: a leaf's digest
is its key, an inner node's digest is made of its two children's digests, so equal digests have equal children;
that is the collision resistance the program relies on. The store is a map from digests to flat records (parent,
children, prefix, prefix length, flags), as in the program. A root digest then *is* an abstract tree, `Patricia`
says that it is a proper binary Patricia trie, and `WellFormed` that the store holds exactly the records of its
nodes, with links up and down, prefix lengths and prefixes. Class `KeyValueTrie` has the program's loops: `Insert`
splits a node and climbs the parent pointers, `EraseLeaf` promotes a sibling and climbs, old nodes go at the end.
The climb is proved with a path from a node to the root; insert and erase make each round by the same method
`RehashParent`. A node is a value, as the C++ class is copied on assignment. Where the program throws
because a link is wrong, the method has `assert false` instead: these exceptions never occur. `Load` may only be
called for a stored node, so every call is a proof that the lookup does not throw. A prefix length is kept in eight
bits, so a valid trie has hashes of at most 255 bits in whole bytes; `WideHashes` says on abstract trees what an
addition does for hashes of any length, and that for narrow ones these trees are those of the class.

**The two-party synchronization** (`SyncSpec`, `SyncProcess`, `SyncCore`, `SyncProtocol`, `SyncTheorems`). Class
`SynchronizationProcess` has the program's queues, stack, byte counters and filter offsets; each method is proved
against a function or relation of `SyncSpec`. `SyncProtocol` puts two such processes and their messages in flight
together; a step is any call of either side, so a run is any interleaving, any buffer sizes, any ack sizes. Each
kind of message has its own FIFO channel per direction. Both sets are fixed during a run, and a trie buffer holds
at least two hashes, as `Set::getMinSyncTrieBuffer` asks.

**The Bloom filters** (`Bitset`, `BloomSpec`, `CountingBloom`, `BloomProofs`, `BloomHistories`, `BloomFaults`,
`InMemoryFilter`). The
bit array is an array of bytes; index records are byte strings; the item count and its record in the store are
fields. `remove` is modelled as it is written: it writes back one byte less than it read where one hash less is meant,
and never counts down. So some desirable properties fail, and exact conditions are proved instead: of completing an
addition (`AddCompletesIff`), of being contained after an addition or a removal (`AddContainsIff`, `RemoveContainsIff`), of
keeping the index exact (`AddKeepsExactIff`, `RemoveKeepsExactIff`, `RemoveKeepsTidyIff`), and of being reloaded with the same
bits (`ReloadRebuildsIff`, `AddAgreesIff`). For any parameters, `StaleEntryHidesKey` and `RemovalHidesKey` are histories after
which the filter denies a key it was given; `FaultsHappen` has digests for them under the double hashing scheme. `RemoveWhole` in `BloomHistories` is not the program's removal but the
one that is meant, with whole hashes written back; every history with it stays in order. The hash functions are a
parameter; nothing is assumed of them.

**The set** (`SetModel`): a trie behind a Bloom test, with the same hard maximum for both. `Finds` is what `find` answers;
`Insert` and `Erase` say exactly how it changes, for every key. `covered` and `tidy` are ghost histories: `covered` says that
every insertion since the set was last empty got its filter entries, `tidy` that moreover no erased key shared a
position. After insertions and clears of keys whose positions differ, within the maximum, both hold, and `Find` is
membership.

**Digests of byte streams** (`Streaming`, `Md2`, `Sha1`, `Words32`). One engine stands for MD4, MD5, SHA-1, SHA-224/256
and SHA-384/512, with word size, byte order, initial state and compression function as parameters. MD2 has a
class of its own, with the 46 of 48 state bytes that `md2_starts` clears. SHA-1's compression is concrete.

## Where the code differs from what it promises

- A hash of 256 bits or more is accepted by the interface, but its prefix length does not fit: `AddIff` says exactly
  when an addition is still set insertion, and what it is otherwise.
- A counting filter does not survive removals from shared records, and a removal can hide other keys
  (`RemoveHidesIff`, `FirstSharedRemoval`; `StaleEntryHidesKey` and `RemovalHidesKey` are the histories).
- With a hard maximum, erasing makes no room in the filter: `Set.Insert` says exactly when the filter throws after the key
  has entered the trie, and `ErasingMakesNoRoom` is a history, after which reloading the filter sets bits it did not have.
- The file-backed filter's bulk addition sets other bits than its single addition unless it is made of whole bytes
  (`FileBitIff`); the in-memory filter's item count is off when the sum wraps (`CountAllIff`).
- A digest context counts a call's bytes modulo the counter word: `LengthOfPiecesIff` says exactly when the length field is
  that of the message, and `LongCallMiscounted` gives a call that it is not.
- `done()` never holds on a side whose set is empty; `DoneIff` has both directions.
- Sent and received byte counts agree only when no root hash was sent (`ByteConservation`).

## Model

| member | source | states |
|---|---|---|
| Digests.LeavesAgree | setsync/trie/KeyValueTrie.cpp:153-170 | every key below a node shares the node's prefix up to its prefix length |
| Digests.SideOfLeaf | setsync/trie/KeyValueTrie.cpp:210-221 | the bit behind the prefix tells on which side of a node a key is |
| Digests.Canonical | setsync/trie/KeyValueTrie.cpp:357-383 | two Patricia tries over the same keys are the same tree, so a set has one root digest whatever its history |
| Digests.NodesCounted | setsync/trie/KeyValueTrie.cpp:237-262 | a trie of N keys has 2N-1 nodes, all different |
| TrieStore.ReplaceKeepsPatricia | setsync/trie/KeyValueTrie.cpp:271-311 | replacing a subtrie by one that fits its place leaves a Patricia trie, all the way up to the root |
| TrieStore.ClimbStep | setsync/trie/KeyValueTrie.cpp:271-311 | one round of the climb, with old and new nodes both stored, turns a half-done replacement into one that is done one level higher |
| KeyValueTries.TrieNode.Similar | setsync/trie/KeyValueTrie.cpp:153-160 | true exactly if the prefixes agree on all bits of this node's prefix length |
| KeyValueTries.TrieNode.CommonPrefixSize | setsync/trie/KeyValueTrie.cpp:162-170 | the length of the longest common prefix |
| KeyValueTries.SplitIsPatricia | setsync/trie/KeyValueTrie.cpp:239-253 | with the split node in the old node's place the whole tree is a Patricia trie again, and holds one key more, which is nowhere else |
| KeyValueTries.StoredPrefixSplits | setsync/trie/KeyValueTrie.cpp:239-242 | prefix bits behind the prefix length, which depend on history, play no part in a split |
| KeyValueTries.ReplacedGone | setsync/trie/KeyValueTrie.cpp:312-321 | the nodes deleted at the end of a climb are none of the new trie, and what is left are exactly its nodes |
| KeyValueTries.KeyValueTrie.Intermediate | setsync/trie/KeyValueTrie.cpp:239-253 | the node over the old node and the leaf, on the sides that the first different bit says; one side always applies |
| KeyValueTries.KeyValueTrie.Insert | setsync/trie/KeyValueTrie.cpp:223-340 | inserts exactly if the key is new; the store is then well-formed for the old keys and the new one, and unchanged otherwise; no exception |
| KeyValueTries.KeyValueTrie.RehashParent | setsync/trie/KeyValueTrie.cpp:273-311 | one round of a climb: parent, sibling and child are stored with their new digests and links |
| KeyValueTries.KeyValueTrie.RehashAfterInsert | setsync/trie/KeyValueTrie.cpp:260-321 | after the climb the store is well-formed for the trie with the split node in place |
| KeyValueTries.KeyValueTrie.Erase | setsync/trie/KeyValueTrie.cpp:472-592 | erases a leaf of the trie and nothing else; throws exactly for inner nodes |
| KeyValueTries.KeyValueTrie.EraseBelowGrandparent | setsync/trie/KeyValueTrie.cpp:497-586 | promoting the sibling and rehashing all ancestors leaves a store for the keys without the erased one |
| KeyValueTries.KeyValueTrie.Add | setsync/trie/KeyValueTrie.cpp:716-731 | set insertion, for every valid trie: true exactly for a new key, size counter equal to the number of keys; the catch-all runs only on an empty trie |
| KeyValueTries.KeyValueTrie.Remove | setsync/trie/KeyValueTrie.cpp:733-746 | set removal, with the same invariant; digests of inner nodes and unknown keys change nothing |
| KeyValueTries.KeyValueTrie.Contains | setsync/trie/KeyValueTrie.cpp:748-760 | the flat lookup agrees with the tree: leaf for a key, inner node for the digest of a subtrie, not found otherwise |
| KeyValueTries.KeyValueTrie.GetRoot | setsync/trie/KeyValueTrie.cpp:870-880 | the root digest, and none exactly for the empty set |
| KeyValueTries.KeyValueTrie.Equals | setsync/trie/KeyValueTrie.cpp:767-791 | comparing the two root nodes decides equality of the two sets of keys |
| KeyValueTries.LookupLeaf | setsync/trie/KeyValueTrie.cpp:748-760 | a leaf digest is found exactly if its key is in the set |
| KeyValueTries.FoundSubtrieIsShared | setsync/Set.cpp:156-169 | pruning is sound: if the other trie knows a digest it has every key below it |
| KeyValueTries.SameKeysSameStore | setsync/trie/KeyValueTrie.cpp:716-746 | any two histories that end in the same set end in the same root and the same records, up to unused fields; so removal undoes a fresh addition |
| KeyValueTries.RootsDecideEquality | setsync/trie/KeyValueTrie.cpp:767-791 | root digests are equal if and only if the sets are |
| KeyValueTries.NodeIsPrefixClass | setsync/trie/KeyValueTrie.cpp:153-170 | the keys below any node are all keys of the set with some prefix |
| KeyValueTries.LookupPrefixClass | setsync/trie/KeyValueTrie.cpp:748-760 | the digest of any trie is known if and only if its keys are all keys of the set with some prefix |
| KeyValueTries.RemovalTakesNodesAbove | setsync/trie/KeyValueTrie.cpp:497-586 | between a set and the set without one key, exactly the nodes that had the key below them change |
| WideHashes.InsertBelowIff | setsync/trie/KeyValueTrie.cpp:223-253 | for hashes of any length: an insertion inserts exactly if no key of the trie has the same first n mod 256 bits; otherwise it is a duplicate for less than 256 bits, and throws for more |
| WideHashes.AddIff | setsync/trie/KeyValueTrie.cpp:716-731 | an addition to an orderly trie is set insertion with the right answer, store and size if and only if hashes have less than 256 bits or the key does not clash so; otherwise the catch-all makes the key the only one, all records stay, and the size grows |
| WideHashes.AllClash | setsync/trie/KeyValueTrie.cpp:105-105 | with 256 or 512 bits a trie never holds more than the key added last |
| WideHashes.Additions | setsync/trie/KeyValueTrie.cpp:716-760 | with 256 or 512 bits, after any additions the flat lookup finds exactly the keys ever added, and the size is the number of additions, repeated ones as well |
| WideHashes.RemovalAfterAdditions | setsync/trie/KeyValueTrie.cpp:472-481 | removing a key succeeds if and only if it was ever added; then no root is left, and the size is off by what else was added; otherwise nothing changes |
| WideHashes.NarrowTries | setsync/trie/KeyValueTrie.cpp:153-160 | for less than 256 bits these trees are the tries of the class |
| Cuts.CutVectors.GetSubTrie | setsync/trie/KeyValueTrie.cpp:813-841 | the recursive cut: returns the net growth of the two vectors, between 1 and its allowance; leaves are conserved and split among the entries, although it expands entries that sibling calls left; terminates |
| Cuts.CutVectors.Flatten | setsync/trie/KeyValueTrie.cpp:854-866 | the buffer gets all entries of both vectors |
| Cuts.GetSubTrie | setsync/trie/KeyValueTrie.cpp:843-868 | throws exactly for a buffer of less than two hashes or an unknown digest, otherwise writes a cut, and no more bytes than the buffer has |
| KeyValueTries.KeyValueTrie.Capacity | setsync/trie/KeyValueTrie.cpp:845-845 | so many hashes fit the buffer, and one more does not |
| Cuts.CutPartitions | setsync/trie/KeyValueTrie.cpp:843-868 | a cut has min(capacity, leaves) digests, all below the root, whose leaf sets partition its leaves |
| Cuts.BagSize | setsync/trie/KeyValueTrie.cpp:813-841 | every digest accounts for at least one leaf, and leaves for exactly one |
| SyncProcess.SynchronizationProcess.GetSubTrie | setsync/Set.cpp:110-134 | the topmost subtrie that can be cut is sent, queued as sent hashes and counted; subtries that cannot are dropped |
| SyncProcess.SynchronizationProcess.ReadSomeTrieAcks | setsync/Set.cpp:136-154 | as many acks as fit leave the queue in order, packed into bits with zeros behind them |
| SyncProcess.SynchronizationProcess.ProcessSubTrie | setsync/Set.cpp:156-169 | queues one ack a hash, saying whether the trie lacks it |
| SyncProcess.SynchronizationProcess.ProcessAcks | setsync/Set.cpp:170-206 | throws exactly on a short buffer or too many acks; otherwise each ack in order reports a leaf, expands an inner node, or drops the hash |
| SyncProcess.SynchronizationProcess.IsSubtrieOutputAvailable | setsync/Set.cpp:212-226 | starts the trie phase with the root on the first call for a non-empty set |
| SyncProcess.SynchronizationProcess.IsEqual | setsync/Set.cpp:94-108 | true exactly if equal before or the root digests are the same, and remembered |
| SyncProcess.SynchronizationProcess.Done | setsync/Set.cpp:228-245 | equal, or started with nothing pending, nothing to answer and nothing unanswered; what that means in a run is `DoneMeans` |
| SyncProcess.SynchronizationProcess.ReadNextBloomFilterChunk | setsync/Set.cpp:65-75 | the next part of the filter; it is finished exactly when a part is asked for that reaches beyond its end |
| SyncProcess.SynchronizationProcess.ProcessBloomFilterChunk | setsync/Set.cpp:77-83 | compares a chunk at the right offset, or throws and changes nothing |
| SyncProcess.SynchronizationProcess.GetRootHashForSending | setsync/Set.cpp:89-92 | the root hash; counted as sent even if there is none |
| SyncCore.SendKeepsCore | setsync/Set.cpp:110-134 | sending a cut keeps the invariant of a direction: alignment, conservation of missing keys, budget of nodes |
| SyncCore.AnswerKeepsCore | setsync/Set.cpp:156-169 | answering a subtrie keeps it |
| SyncCore.AcksKeepCore | setsync/Set.cpp:170-206 | processing any number of acks keeps it, and the restart branch is not taken |
| SyncCore.CoreIsExact | setsync/Set.cpp:170-206 | the invariant with nothing pending means that the reported keys are the difference, each once |
| SyncProtocol.StepKeepsTrie | setsync/Set.cpp:94-226 | every call of either side keeps the trie invariant of both directions |
| SyncProtocol.StepKeepsBytes | setsync/Set.cpp:65-206 | every call keeps the byte balance |
| SyncProtocol.StepKeepsBloom | setsync/Set.cpp:65-83 | every call keeps: the peer has compared its filter with exactly the bits received so far |
| SyncProtocol.RunInvariant | setsync/Set.cpp:57-245 | the invariant holds in every state of every run |
| SyncTheorems.ExactDifference | setsync/Set.cpp:110-245 | in any state of any run, a side that is done or settled has reported exactly the keys the other side lacks, each once, and nothing else is ever reported |
| SyncTheorems.ExchangeMakesEqual | setsync/Set.cpp:228-245 | when both sides are done, each set together with what the other reported is the same set |
| SyncTheorems.EmptySideIsNeverDone | setsync/Set.cpp:228-245 | a side with an empty set is never done, whatever else has happened |
| SyncTheorems.DoneIff | setsync/Set.cpp:212-245 | a side with nothing to start, to expand, to answer or to wait for is done if and only if its set is not empty |
| SyncTheorems.DoneMeans | setsync/Set.cpp:228-245 | in any state of any run: a side is done if and only if it has found the sets equal, or has started and has nothing to expand, none of its hashes is on its way or waits for an ack, and it owes no ack to the other side |
| SyncTheorems.SmallBufferDropsAll | setsync/Set.cpp:110-120 | with a buffer of less than two hashes nothing is sent and everything pending is dropped |
| SyncTheorems.TopmostKnownIsCut | setsync/Set.cpp:110-134 | otherwise the topmost pending subtrie that the trie knows is cut, those above it are dropped and those below it stay |
| SyncTheorems.ExpandedNext | setsync/Set.cpp:110-134 | a hash that an ack has put up for expansion is the next one to be cut, and nothing else is taken from the stack |
| SyncTheorems.LostHashRestarts | setsync/Set.cpp:188-201 | the restart branch: every key of the set is pending again, below one digest, and nothing is reported |
| SyncTheorems.SidesSwap | setsync/Set.cpp:57-245 | a run is a run for the two sides in the other order, so what is proved of one side holds of the other |
| SyncTheorems.RootHashDecides | setsync/Set.cpp:94-108 | for non-empty sets, comparing root hashes decides whether they are equal |
| SyncTheorems.AckAlignment | setsync/Set.cpp:136-206 | on both sides, unanswered hashes match acks in flight, then the peer's pending acks, then hashes in flight, in order; each ack says whether the peer lacks that node |
| SyncTheorems.AcksRoundTrip | setsync/Set.cpp:136-206 | the acks one side reads out of its queue are those the other side processes, and it counts as many bytes as were sent |
| SyncTheorems.GuardsNeverFire | setsync/Set.cpp:173-178 | the length guards of acks and of filter chunks never fire in a run, on either side |
| SyncTheorems.TrafficBound | setsync/Set.cpp:110-134 | neither side sends a node twice, and a set of N > 1 keys sends at most 2N-2 hashes, one of a single key at most one |
| SyncTheorems.ByteConservation | setsync/Set.cpp:65-206 | in both directions, sent bytes are received bytes plus bytes in flight plus root hashes; with nothing in flight they agree exactly if no root hash was sent |
| SyncTheorems.SentBytesCounted | setsync/Set.cpp:65-154 | in any state of any run, the sent bytes are those of all hashes ever sent, of the root hashes, of the filter up to its offset, and of all acks read out |
| SyncTheorems.BloomPhaseIsExact | setsync/Set.cpp:65-83 | once all of a filter has arrived, whatever the chunks, exactly the local keys it does not contain have been reported |
| SyncTheorems.OnlyMissingKeysReported | setsync/Set.cpp:65-83 | at any time of the Bloom phase, with a sender whose filter covers its set, only keys of the one set that are not in the other have been reported |
| SyncTheorems.ChunkLoopEnds | setsync/Set.cpp:57-75 | whatever the chunk sizes and the other calls, a side says that its filter is finished after at most one chunk call more than the filter has bytes |
| SyncTheorems.StepRank | setsync/Set.cpp:110-226 | no call adds to the work left in the two trie phases, and every call that moves one on takes some away |
| SyncTheorems.RunsTerminate | setsync/Set.cpp:110-226 | a run has only so many such calls, at most eight for each key of the two sets |
| SyncTheorems.StuckIsSettled | setsync/Set.cpp:110-245 | a started direction with nothing to expand, answer or deliver has reported the difference |
| Bitset.UnpackSet | setsync/bloom/FSBloomFilter.cpp:225-229 | setting or clearing a bit by byte and mask changes that bit alone |
| Bitset.MaskIsShift | setsync/utils/bitset.h:16-16 | the mask of bit j is one shifted left by j |
| Bitset.ByteIsItsBits | setsync/utils/bitset.h:16-20 | a byte is the sum of the powers of two whose bits are set |
| Bitset.UnpackInjective | setsync/Set.cpp:142-147 | byte strings with the same bits are the same |
| CountingBloom.CountingBloomFilter.Reload | setsync/bloom/KeyValueCountingBloomFilter.cpp:25-54 | the bits rebuilt from a store are exactly its positions, and the item count is the stored one, or zero |
| CountingBloom.CountingBloomFilter.Close | setsync/bloom/KeyValueCountingBloomFilter.cpp:57-62 | the item count goes to the store unless it is zero |
| CountingBloom.Reopen | setsync/bloom/KeyValueCountingBloomFilter.cpp:25-62 | closing any filter whose records lie inside it and loading it again gives back index and item count, and the same bits if and only if they agreed with the records |
| CountingBloom.CountingBloomFilter.Contains | setsync/bloom/FSBloomFilter.cpp:184-197 | true exactly if all positions of the key are set |
| CountingBloom.CountingBloomFilter.Add | setsync/bloom/KeyValueCountingBloomFilter.cpp:105-145 | index, bits and count after an addition, with the early return; throws, after entering the key in the index, exactly if the addition ran to its end and the hard maximum of completed additions has been reached |
| CountingBloom.CountingBloomFilter.AddBits | setsync/bloom/FSBloomFilter.cpp:141-154 | the add of the plain filter: throws exactly at the hard maximum, otherwise sets the bits and counts, up to the largest count |
| CountingBloom.CountingBloomFilter.Remove | setsync/bloom/KeyValueCountingBloomFilter.cpp:159-223 | index and bits after a removal, as written; true exactly if the key was contained and the removal clears one of its positions |
| CountingBloom.CountingBloomFilter.CompactBuffer | setsync/bloom/KeyValueCountingBloomFilter.cpp:186-200 | after the move the buffer starts with all hashes other than the key, in order; the bytes behind them are those the loop leaves |
| CountingBloom.CountingBloomFilter.GetChunk | setsync/bloom/KeyValueCountingBloomFilter.cpp:95-103 | the next bytes of the filter, at most maxlength |
| CountingBloom.CountingBloomFilter.Diff | setsync/bloom/KeyValueCountingBloomFilter.cpp:63-93 | throws exactly for a chunk that does not fit; otherwise reports the local keys at bits the chunk lacks |
| CountingBloom.CountingBloomFilter.Clear | setsync/bloom/KeyValueCountingBloomFilter.cpp:147-150 | no record, no bit, and a count of zero |
| BloomProofs.AddCompletesIff | setsync/bloom/KeyValueCountingBloomFilter.cpp:109-144 | for every key and every index: an addition runs to its end if and only if no position of the key lists it, before the addition or after the addition itself has entered it there; for different positions that is: none lists it before |
| BloomProofs.AddContainsIff | setsync/bloom/KeyValueCountingBloomFilter.cpp:105-145 | after an addition the key is contained if and only if the addition ran to its end or it was contained before; other keys gain exactly the bits of the added one |
| BloomProofs.AddKeyEffect | setsync/bloom/KeyValueCountingBloomFilter.cpp:105-145 | then it appends the key to the records of its positions, sets their bits, and changes nothing else |
| BloomProofs.RemoveFromDistinct | setsync/bloom/KeyValueCountingBloomFilter.cpp:172-221 | a removal works on each position of the key by itself |
| BloomProofs.RemoveContainsIff | setsync/bloom/KeyValueCountingBloomFilter.cpp:159-223 | for all keys: after a removal another key is contained if and only if it was before and none of its positions is cleared, which is decided by the length of the record there and how often the removed key uses it |
| BloomProofs.RemoveAnswerIff | setsync/bloom/KeyValueCountingBloomFilter.cpp:159-223 | for all keys and filters: a removal answers true if and only if the key was contained and at some of its positions no more than one hash is left when its turn comes |
| BloomProofs.RemoveHidesIff | setsync/bloom/KeyValueCountingBloomFilter.cpp:180-216 | for a key whose positions differ, another key stays contained if and only if every shared record has more than one hash |
| BloomProofs.AddCovers | setsync/bloom/KeyValueCountingBloomFilter.cpp:105-145 | an addition that gets its entries leaves room for all users of every position |
| BloomProofs.RemoveCovers | setsync/bloom/KeyValueCountingBloomFilter.cpp:159-223 | no removal, as written, takes the bit of a position another key uses |
| BloomProofs.CoveredIsContained | setsync/bloom/FSBloomFilter.cpp:184-197 | no false negatives for covered keys |
| BloomProofs.AddKeepsExactIff | setsync/bloom/KeyValueCountingBloomFilter.cpp:105-145 | adding a new key keeps the index exact if and only if its positions differ and no record of them has stray bytes that would be read into it |
| BloomProofs.ShrunkLists | setsync/bloom/KeyValueCountingBloomFilter.cpp:184-202 | the record written back lists exactly the other users if and only if it was made of whole hashes |
| BloomProofs.RemoveKeepsExactIff | setsync/bloom/KeyValueCountingBloomFilter.cpp:159-223 | a removal keeps the index exact if and only if each position is the key's own or has a record of whole hashes |
| BloomProofs.SharedRemovalMisaligns | setsync/bloom/KeyValueCountingBloomFilter.cpp:201-202 | a removal from a shared record of whole hashes never leaves whole hashes |
| BloomFaults.StaleEntryHidesKey | setsync/bloom/KeyValueCountingBloomFilter.cpp:122-131 | for any parameters with hashes of several bytes and any three keys that share a position, the third with one to itself: add all three, remove the first and the third, add the third again; it is listed, the addition stops, and the filter denies it |
| BloomFaults.RemovalHidesKey | setsync/bloom/KeyValueCountingBloomFilter.cpp:180-216 | going on with a fourth key that shares the third one's own position: with it added the third key is contained, and removing it makes the filter deny the third one |
| BloomFaults.FaultsHappen | setsync/bloom/DoubleHashingScheme.cpp:29-38 | four digests of 16 bytes have such positions under the double hashing scheme |
| BloomProofs.DiffReportsMissingKeys | setsync/bloom/KeyValueCountingBloomFilter.cpp:63-93 | with an exact index, comparing all bits of another filter reports exactly the local keys it does not contain |
| BloomProofs.DiffOfChunks | setsync/bloom/KeyValueCountingBloomFilter.cpp:63-103 | the reports of any chunks, one after the other, are those of the whole filter |
| BloomHistories.AddKeepsTidy | setsync/bloom/KeyValueCountingBloomFilter.cpp:105-145 | adding a new key with different positions keeps index exact, records whole and bits equal to records |
| BloomHistories.RemoveKeepsTidyIff | setsync/bloom/KeyValueCountingBloomFilter.cpp:159-223 | a removal keeps that if and only if the key shares no position, or hashes are single bytes |
| BloomProofs.ReloadRebuildsIff | setsync/bloom/KeyValueCountingBloomFilter.cpp:25-54 | reloading a store gives back the filter if and only if its bits agreed with its records |
| BloomProofs.RemoveKeepsAgrees | setsync/bloom/KeyValueCountingBloomFilter.cpp:159-223 | every removal, as written, keeps bits and records in agreement |
| BloomProofs.AddAgreesIff | setsync/bloom/KeyValueCountingBloomFilter.cpp:105-145 | an addition keeps them in agreement if and only if it runs to its end or makes no new record; one at which the filter throws, if and only if the key was contained before |
| BloomHistories.RemoveWholeKeepsTidy | setsync/bloom/KeyValueCountingBloomFilter.cpp:184-202 | with whole hashes written back, as is meant, removal keeps index, records and bits in order, whatever is shared |
| BloomHistories.HistoryStaysTidy | setsync/bloom/KeyValueCountingBloomFilter.cpp:105-223 | over every history of additions, removals and clears, that holds with the removal that is meant, and with the program's as long as no removal is from a shared record |
| BloomHistories.WholeHistoryContains | setsync/bloom/KeyValueCountingBloomFilter.cpp:105-223 | over every history with the removal that is meant, the filter contains every key that was added and not removed |
| BloomHistories.FirstSharedRemoval | setsync/bloom/KeyValueCountingBloomFilter.cpp:201-202 | after a history without such a removal, the next operation keeps the order if and only if it is none either |
| SetModel.Set.Insert | setsync/Set.cpp:515-526 | inserts exactly a new key while the set is below its hard maximum, so no valid set exceeds it; throws exactly if then the filter entries can be made but as many additions as the maximum have been completed since the last clear; gives the filter afterwards, and says of the key and of every other key exactly whether it is found |
| SetModel.Set.Erase | setsync/Set.cpp:484-497 | erases exactly a key of the set, and says for every other key exactly whether it is still found |
| SetModel.Set.Find | setsync/Set.cpp:555-560 | true exactly for keys of the set that pass the Bloom test; that is membership as long as every insertion got its filter entries |
| SetModel.ErasingMakesNoRoom | setsync/Set.cpp:515-526 | with a hard maximum of one, insert, erase, insert: the second insertion throws, its key is in the trie and is not found, and reloading the filter gives other bits, with which the key is contained |
| SetModel.Set.Clear | setsync/Set.cpp:586-591 | the empty set, with a filter that is in order again |
| SetModel.Set.Equals | setsync/Set.cpp:601-607 | true exactly for equal sets |
| InMemoryFilter.BloomFilter.Add | setsync/bloom/BloomFilter.cpp:217-230 | throws exactly at the hard maximum; otherwise sets the key's bits and counts it |
| InMemoryFilter.BloomFilter.AddAll | setsync/bloom/BloomFilter.cpp:232-258 | hashing all keys, sorting and setting gives the bits of adding the keys one by one |
| InMemoryFilter.BulkIsOneByOne | setsync/bloom/BloomFilter.cpp:235-252 | for any keys, the sorted hashes set the bits that single additions set |
| InMemoryFilter.SortSorts | setsync/bloom/BloomFilter.cpp:246-246 | the sort orders the hashes and keeps them |
| InMemoryFilter.CountAllIff | setsync/bloom/BloomFilter.cpp:253-257 | bulk addition counts as single additions do if and only if the sum does not wrap |
| InMemoryFilter.BloomFilter.Contains | setsync/bloom/BloomFilter.cpp:277-291 | true exactly if all positions are set |
| InMemoryFilter.BloomFilter.ContainsAll | setsync/bloom/BloomFilter.cpp:293-303 | the number of the first key not contained, or the number of keys |
| InMemoryFilter.BloomFilter.Unite | setsync/bloom/BloomFilter.cpp:136-146 | bitwise union with a filter of the same size, nothing otherwise |
| InMemoryFilter.BloomFilter.Intersect | setsync/bloom/BloomFilter.cpp:124-134 | bitwise intersection likewise |
| InMemoryFilter.AddedKeysHeld | setsync/bloom/BloomFilter.cpp:217-258 | the bits are exactly the positions of the keys added |
| InMemoryFilter.HeldIsContained | setsync/bloom/BloomFilter.cpp:277-291 | no false negatives |
| InMemoryFilter.UnionHolds | setsync/bloom/BloomFilter.cpp:136-146 | the union of two filters is the filter of both sets of keys |
| InMemoryFilter.IntersectionContains | setsync/bloom/BloomFilter.cpp:124-134 | an intersection contains exactly the keys both contain |
| InMemoryFilter.FileBitIff | setsync/bloom/FSBloomFilter.cpp:156-182 | the file-backed filter's bulk addition sets the bit of its single addition for every hash if and only if the filter size is a multiple of 8 |
| InMemoryFilter.ComputeIndices | setsync/bloom/FSBloomFilter.cpp:225-229 | byte and bit of a hash: the byte of the reduced hash, the bit of the hash itself |
| InMemoryFilter.SetFileBits | setsync/bloom/FSBloomFilter.cpp:173-176 | exactly these bits are set by bulk addition, and no bit is cleared |
| Streaming.StreamDigest.Update | setsync/crypto/sha1.c:234-273 | the message grows by the input; what is compressed and what is buffered stay its whole blocks and its rest |
| Streaming.StreamDigest.Count | setsync/crypto/sha4.c:234-240 | the two counter words with carry hold the counted bytes |
| Streaming.StreamDigest.LengthField | setsync/crypto/sha1.c:290-297 | the shifted words, in the engine's byte order, are the counted bits |
| Streaming.StreamDigest.Padding | setsync/crypto/md5.c:266-267 | a one bit and as few zero bytes as lead to two words before the end of a block |
| Streaming.StreamDigest.Finish | setsync/crypto/sha2.c:283-312 | the digest is the fold of the compression function over the message padded as section 5.1 of FIPS 180-2 and sections 3.1 and 3.2 of RFC 1321 have it, with the counted bits as length |
| Streaming.HighWordIsSum | setsync/crypto/sha1.c:292-294 | the two shifted words that are ored have no bit in common, so the or is their sum |
| Streaming.CountedAndMissed | setsync/crypto/sha1.c:245-249 | the length of the message is what the counter was given and a counter word for each time it wrapped within a call |
| Streaming.LengthOfPiecesIff | setsync/crypto/sha1.c:245-249 | for any pieces, the length field is that of the message they make if and only if eight times the wraps within calls make a multiple of the counter word |
| Streaming.LongCallMiscounted | setsync/crypto/sha1.c:245-249 | with 32-bit words, one call of 2^32 bytes has a length field of zero in place of 2^35 |
| Streaming.NothingMissed64 | setsync/crypto/sha4.c:234-237 | with 64-bit words no call whose length fits 64 bits is miscounted |
| Streaming.DigestPieces | setsync/crypto/md4.c:182-257 | for any pieces, the digest is that of the message they make |
| Streaming.SplitDoesNotMatter | setsync/crypto/sha2.c:231-312 | two ways of cutting a message into pieces shorter than a counter word give the same digest, that of the message with its own length |
| Streaming.PaddingIsUnique | setsync/crypto/sha1.c:299-303 | a message has one padding only |
| Streaming.PaddedBytes | setsync/crypto/sha1.c:275-303 | a padded message byte by byte: the message, 80 hexadecimal, fewer zero bytes than a block has, and up to the end of a block a field that reads back as the number of bits |
| Streaming.EncodeDecode | setsync/crypto/sha1.c:50-56 | a number that fits is read back from its bytes, in either byte order |
| Streaming.DecodeEncode | setsync/crypto/md5.c:41-57 | bytes read as a number and written out again are the same bytes |
| Md2.PadInjective | setsync/crypto/md2.c:149-152 | padding can be undone |
| Md2.ChainInjective | setsync/crypto/md2.c:105-110 | if no two bytes have one substitute, two blocks that leave the same checksum behind are the same |
| Md2.ChecksumDeterminesBlock | setsync/crypto/md2.c:103-110 | so the checksum of a block, with what is carried into it, determines the block |
| Md2.BlocksSnoc | setsync/crypto/md2.c:133-137 | processing one more block is the fold over one more block |
| Md2.ChecksumSnoc | setsync/crypto/md2.c:103-110 | starting each block from the checksum's last byte is carrying that byte from block to block, as section 3.2 of RFC 1319 does |
| Md2.Md2Context.MixState | setsync/crypto/md2.c:84-101 | in place over 48 bytes, the compression of section 3.4 of RFC 1319; only 16 bytes of the old state matter |
| Md2.Md2Context.MixChecksum | setsync/crypto/md2.c:103-110 | one checksum block, in place |
| Md2.Md2Context.Update | setsync/crypto/md2.c:116-139 | the message grows by the input; state and checksum are those of its whole blocks |
| Md2.Md2Context.Finish | setsync/crypto/md2.c:144-160 | the digest of the standard: all padded blocks, and then the checksum of all of them, although both were computed in one pass |
| Md2.DigestPieces | setsync/crypto/md2.c:116-160 | the same for a message in any pieces and any content of the two state bytes left uncleared |
| Words32.RotationsAgree | setsync/crypto/sha1.c:96-96 | the shift-and-or rotations by 1, 5 and 30 are rotations |
| Words32.ChooseIsChoice | setsync/crypto/sha1.c:116-116 | the source's form of the first function is the standard's |
| Words32.MostIsMajority | setsync/crypto/sha1.c:170-170 | the source's form of the majority is the standard's |
| Words32.ParityFlips | setsync/crypto/sha1.c:143-143 | zeros have parity zero, and flipping bits of the last word flips those of the parity |
| Words32.ParityTurns | setsync/crypto/sha1.c:143-143 | the three words can take each other's places |
| Words32.MixedFlips | setsync/crypto/sha1.c:98-103 | the same for the four words of the schedule |
| Words32.MixedTurns | setsync/crypto/sha1.c:98-103 | and these can take each other's places |
| Sha1.FourBytes | setsync/crypto/sha1.c:41-47 | the or of four shifted bytes is the big-endian word |
| Sha1.WordBytes | setsync/crypto/sha1.c:79-94 | word i is the number its four bytes encode, most significant first, and written out it is these bytes |
| Sha1.FunctionsAgree | setsync/crypto/sha1.c:116-197 | round by round the source's functions are those of section 5 of FIPS 180-1 |
| Sha1.ConstantsAreRoots | setsync/crypto/sha1.c:117-198 | the constants are 2^30 times the square roots of 2, 3, 5 and 10, rounded down |
| Sha1.InitialBytes | setsync/crypto/sha1.c:68-72 | the initial state as the bytes that count up and down |
| Sha1.P | setsync/crypto/sha1.c:105-108 | a round that changes two registers in place is a step of the 80-step loop, with the registers renamed |
| Sha1.R | setsync/crypto/sha1.c:98-103 | the circular schedule: the new word is word t of the 80-word schedule and replaces word t-16 |
| Sha1.FiveRounds | setsync/crypto/sha1.c:119-219 | five rounds are five steps, and the registers have their own names again |
| Sha1.Process | setsync/crypto/sha1.c:75-229 | the circular schedule and the unrolled rounds compute what the 80-word loop of section 7 of FIPS 180-1 computes |
| Sha1.EngineStep | setsync/crypto/sha1.c:251-266 | what streaming compresses a block with is what the unrolled rounds compute |
| Sha1.DigestPieces | setsync/crypto/sha1.c:234-310 | streaming with this compression, over any pieces shorter than 2^32 bytes, gives the steps of FIPS 180-1 over the blocks of the message padded with its own length |
| Arithmetic.BitOrIsSum | setsync/crypto/sha1.c:41-47 | the or of two numbers, one of them below all bits of the other, is their sum |

## Left out

- Storage back ends (Berkeley DB, LevelDB, in memory), transactions, files and mapped memory: the key-value store is a map whose calls succeed.
- Hash functions as functions on bytes: digests in the trie are symbolic, so a real collision is outside the model; the hash buffer layout is not modelled either.
- `performHash = false` and the dirty flag: no code cleans dirty nodes.
- Changing a set during its trie phase: a run has fixed sets, and there the restart branch of `processAcks` is never taken (what it does is `LostHashRestarts`); with changes, pending subtries can be dropped and completeness does not hold.
- Nodes in memory as objects: the C++ nodes are copied on assignment, so the model's nodes are values; sharing of a node between two variables does not occur there.
- Channels that mix the kinds of messages, lose or reorder them: each kind has its own FIFO channel.
- WideHashes.Additions: histories with removals of hashes of 256 bits and more are followed for one removal only, and for 384 bits not at all.
- KeyValueTries.KeyValueTrie.Add: for hashes of at most 255 bits, because of the eight-bit prefix length (for wider ones see `WideHashes`); that no allocation fails is taken for granted.
- Filter sizes from error rates (floating point), the extended hashing scheme, and any claim about probabilities.
- `operator==` of the filters, `FSBloomFilter::containsAll`, `FSBloomFilter::addAll` beyond the bits it sets, `Set::get`, binary data and its index.
- Streaming.StreamDigest.Finish: the compression functions of MD4, MD5 and SHA-2 are parameters; writing out the state words, and cutting the state for SHA-224 and SHA-384, is left out.
- Md2.Md2Context.Finish: the table of substitutions is a parameter.
- Counter words and message bytes as bit vectors: their shifts and ors of counters and bytes are modelled on numbers, with `BitOr` bit by bit.
- HMAC, files, self tests and dispatch of the crypto directory; the C interface, configuration, dot output and evaluation programs.
- `size_t` and 64-bit widths of sizes and byte counters, except where the model names them.
