# A verified model of crdt-merge

This project models the replicated data types of the Python library crdt-merge, the gossip protocol that carries
them, its binary wire format, Merkle trees, delta sync, the sketches, and the fast merge paths that are meant to agree
with simple ones, and proves what they keep. Each Dafny module follows one part of one source file:

| files | models |
|---|---|
| `Clocks`, `Gossip`, `GossipRuns`, `GossipExchanges`, `GossipOrder` | vector clocks, the gossip store, whole protocol runs, exchanges as runs, arrival order |
| `Histories`, `Counters`, `ORSet`, `LWWMap` | the core types, each against a history of operations |
| `Convergence`, `Replicas` | one theorem about merge trees, and its instance for each type |
| `Bytes`, `Utf8`, `Wire`, `WirePrefixes`, `WireFrames`, `WireLayout` | the tag-length-value codec, its self-delimiting encodings, frames and batches, and their bytes |
| `SortedKeys`, `Merkle`, `MerkleTrees` | tree build and shape, root hashes, diff, merge |
| `Delta` | delta computation, application, composition, the delta store |
| `Dependencies`, `MessageLog`, `ContentOnlyLogs`, `RateLimiter` | cycle detection, the bounded message log, its coarser duplicate rule, the token bucket |
| `Rows`, `Streaming` | row merging, the merge-join and the hash join |
| `DataFrame`, `Parallel` | the one-pass keyed merge and its chunked form |
| `Strategies`, `MergeQL` | conflict strategies, filter pushdown |
| `Feeds`, `Bits`, `HyperLogLog`, `BloomFilter`, `CountMin` | the sketches |
| `Lex`, `Maps`, `Sets`, `Options` | string order, map extensionality, set sizes, optional values |

Objects whose methods update fields are classes; every such method is proved equal to a function on values, and the
theorems are about those functions. Loops over dicts and sets pick keys in any order, so what is proved holds for every
iteration order. A Python exception is a value of a result type, a null result or a false flag, as its comment says.

Foreign pieces are parameters with the properties they need: content hashes (collision-free only where a lemma says
so, and elsewhere the exact effect of a collision is stated), Python's `str()`, Unicode normalisation, zlib (decompressing undoes
compressing), 64-bit item hashes, user strategies, and clock readings. Fresh UUID tags are step numbers of the history.

## Where the code and its documentation differ

- `crdt_merge/gossip.py:390` promises one outcome for any message order. `GossipOrder.OrderIrrelevantIffChampion` gives
  the exact condition and `GossipOrder.ThreeWayCycle` three clocks that break it.
- `crdt_merge/gossip.py:205` merges an external clock into the entry only. `Gossip.ExternalClockKeepsBelow` says when
  that is harmless and `Gossip.NextWriteLostIff` when the next local write of the key is lost.
- `crdt_merge/merkle.py:24` and `crdt_merge/merkle.py:296` equate equal roots with equal datasets, but keys are not hashed:
  `MerkleTrees.ShortcutAgreesWithScan`, `MerkleTrees.RenamedKeyGoesUnnoticed`.
- `crdt_merge/dataframe.py:280` calls the merge order-independent: `DataFrame.ListedCommutesIff` gives the exact condition
  on the rows listed, and `DataFrame.OrderIrrelevantIff` on the result when no hash repeats.
- `crdt_merge/dataframe.py:378` holds rows with different keys to be always distinct; their hash texts can be equal:
  `Parallel.DifferentKeysCollide`. `DataFrame.NothingDroppedIff` says exactly when duplicate removal drops no row, and
  `Parallel.ChunksAgreeIff` what it does to the chunked merge.
- `crdt_merge/probabilistic.py:430` says an estimate never undercounts; after a merge it can:
  `CountMin.UndercountsIff`, `CountMin.MergeUndercounts`.
- `crdt_merge/probabilistic.py:124` says the leading zeros of the remaining bits are counted; the first of those bits
  are skipped. `HyperLogLog.RankKeptIff` says for which hashes the promised rank comes out all the same.
- `crdt_merge/strategies.py:93` asks every strategy to commute and associate: `Strategies.CommutesIff`,
  `Strategies.AssociatesIff`, each with the exact condition.
- `crdt_merge/mergeql.py:707` calls pushdown safe for fields that the source records have. It is safe exactly when the
  key decides the filter, or the limit shows nothing: `MergeQL.PushdownSafeIff`, `MergeQL.PushdownCanChangeRows`.
- `crdt_merge/core.py:555` and `crdt_merge/core.py:604` accept any timestamp: `LWWMap.ReflectedIffInOrder` says which
  local writes and deletes keep a map in step with what it has observed.
- `crdt_merge/agentic.py:364` calls all merges of agent states CRDT-compliant. Message logs deduplicated by content
  alone keep the first argument's copy, and truncation lets cut contents return: `ContentOnlyLogs.CommutesIff`,
  `ContentOnlyLogs.AssociatesIff`, `ContentOnlyLogs.OrderAndGroupingMatter`.
- `crdt_merge/delta.py:354` says that the first call returns no delta; so does every call that finds the store empty again,
  and a replica then misses a snapshot: `Delta.FollowsIffKept`.
- The column cache of the hash join (`crdt_merge/streaming.py:218-265`) can drop a column of a later pair:
  `Streaming.HashJoinWidth` says when all columns are there and `Streaming.CacheDropsColumn` shows one that is lost.
- Advancing a dotted version vector drops an outstanding dot of another node: `Clocks.AdvanceKeepsHistory`.

## Model

| member | source | states |
|---|---|---|
| Clocks.CompareByFlags | crdt_merge/clocks.py:135-165 | the flag loop with early exit decides the pointwise causal order: BEFORE, AFTER, EQUAL or CONCURRENT |
| Clocks.CompareEqual | crdt_merge/clocks.py:135-165 | EQUAL is returned exactly for equal clocks |
| Clocks.CompareMirrors | crdt_merge/clocks.py:135-165 | swapping the clocks swaps BEFORE and AFTER and nothing else |
| Clocks.SameCounters | crdt_merge/clocks.py:70-113 | with zero counters stripped, a clock is determined by its counters |
| Clocks.IncrementAddsOne | crdt_merge/clocks.py:127-131 | an increment adds one to the node's own counter and nothing else |
| Clocks.IncrementAfter | crdt_merge/clocks.py:127-131 | incrementing gives a clock strictly after everything the old one covered |
| Clocks.MergeIsLub | crdt_merge/clocks.py:169-179 | merge is the least upper bound of the two clocks in the causal order |
| Clocks.MergeAssociates | crdt_merge/clocks.py:169-179 | grouping of merges is irrelevant |
| Clocks.MergeDotted | crdt_merge/clocks.py:272-295 | merging dotted vectors gives the merge of the clocks they stand for, with no dot left |
| Clocks.AdvanceKeepsHistory | crdt_merge/clocks.py:258-268 | an advance descends from the old vector exactly when an outstanding dot is already covered or is the one minted |
| Clocks.AdvancesConcurrent | crdt_merge/clocks.py:258-268 | two advances of one base at different nodes are concurrent |
| Gossip.ExactlyOneWins | crdt_merge/gossip.py:385-409 | of two distinct clocks exactly one replaces the other |
| Gossip.GossipState.Update | crdt_merge/gossip.py:189-213 | new entries and clock after a write, with or without an external clock |
| Gossip.GossipState.Delete | crdt_merge/gossip.py:215-237 | new entries and clock after a delete; the key reads as absent |
| Gossip.GossipState.GetEntries | crdt_merge/gossip.py:252-263 | exactly the entries held under the given keys, one per key |
| Gossip.GossipState.DigestEntries | crdt_merge/gossip.py:267-293 | one hash of value, clock and tombstone flag per held key |
| Gossip.GossipState.AntiEntropyPush | crdt_merge/gossip.py:295-312 | exactly the held keys that the peer lacks or has with another hash |
| Gossip.GossipState.AntiEntropyPull | crdt_merge/gossip.py:314-331 | exactly the peer's keys that are missing here or have another hash here |
| Gossip.ClassifyKeys | crdt_merge/gossip.py:523-560 | three sorted lists that together are the push and pull sets, the last being their common part |
| Gossip.GossipState.ApplyEntries | crdt_merge/gossip.py:354-381 | the batch loop equals accepting entries one by one, and returns how many were accepted |
| Gossip.CountsEachWin | crdt_merge/gossip.py:354-381 | an entry of a batch counts as accepted exactly when it wins against what the entries before it left |
| Gossip.BatchIsSingles | crdt_merge/gossip.py:368-381 | a batch may be cut anywhere into smaller batches |
| Gossip.ReceiveAllPointwise | crdt_merge/gossip.py:368-381 | a batch with one entry per key decides each key by its own contest |
| Gossip.PushPull | crdt_merge/gossip.py:333-350 | digests, push, pull, get and apply on both sides make up one exchange |
| Gossip.ExchangeAgrees | crdt_merge/gossip.py:354-409 | after one exchange both stores hold all keys, and are equal exactly when no two different entries had one hash |
| Gossip.ShipsOnlyDifferences | crdt_merge/gossip.py:295-331 | no key is shipped whose entries were equal on both sides |
| Gossip.LocalUpdateTakesEffect | crdt_merge/gossip.py:204-213 | with entry clocks below the node clock, an update without an external clock always stores its entry |
| Gossip.DeleteKeepsBelow | crdt_merge/gossip.py:227-237 | deleting keeps every entry clock below the node clock |
| Gossip.ReceiveKeepsBelow | crdt_merge/gossip.py:368-381 | accepting an entry keeps every entry clock below the node clock |
| Gossip.ExternalClockKeepsBelow | crdt_merge/gossip.py:204-213 | an external clock keeps it too exactly when the ticked node clock already covered it |
| Gossip.ExternalWriteStored | crdt_merge/gossip.py:204-213 | with entry clocks below the node clock, an update with any external clock stores its entry under the merged clock |
| Gossip.NextWriteLostIff | crdt_merge/gossip.py:204-213 | after it the next local write of the key is lost exactly when the external clock is two or more ahead on this node, or is not covered by then and the text of the node clock loses the tie |
| Gossip.ExternalClockDropsNextWrite | crdt_merge/gossip.py:204-213 | so on an empty store under every external clock that counts two writes of this node |
| Gossip.MergeKeepsLarger | crdt_merge/gossip.py:442-470 | of two entries the value of the larger text stays, of equal texts a deleted one, with its own flag and a clock that covers both |
| Gossip.GossipState.UnionStores | crdt_merge/gossip.py:442-470 | the merge loop: union of keys, merged clocks, winner by content text and tombstone flag |
| Gossip.GossipState.MergeWith | crdt_merge/gossip.py:423-471 | a fresh state whose entries and clock are the merges |
| GossipRuns.ClocksDecideCausality | crdt_merge/gossip.py:354-409 | in every run with lost, repeated and reordered entries, comparing two minted clocks decides happened-before |
| GossipRuns.ClockCountsKnown | crdt_merge/gossip.py:368-381 | a node's clock has reached a write's own counter exactly when the write is in the node's causal history |
| GossipRuns.KnownBelowClock | crdt_merge/gossip.py:368-381 | the whole clock of every known write is below the node clock |
| GossipRuns.CounterReached | crdt_merge/clocks.py:127-131 | a write's clock reaches another write's counter exactly when that write is in its past |
| GossipRuns.BelowEverywhere | crdt_merge/gossip.py:189-237 | in every reachable state all entry clocks are below the holder's node clock |
| GossipRuns.UpdatesTakeEffect | crdt_merge/gossip.py:204-213 | in every run every local update stores the entry it mints |
| GossipRuns.EntriesAreMinted | crdt_merge/gossip.py:354-381 | every entry held anywhere was minted by a write its holder knows |
| GossipRuns.EqualClocksSameEntry | crdt_merge/gossip.py:354-381 | equal clocks under one key mean equal value and tombstone, on any nodes at any times |
| GossipRuns.ReachableExchangeAgrees | crdt_merge/gossip.py:295-381 | from any two reachable states one exchange makes the stores equal unless a hash collides |
| GossipExchanges.ExchangeIsRun | crdt_merge/gossip.py:295-381 | an exchange between two nodes of a run is that run continued by single deliveries to the two, no other node changing, so it leaves a reachable state |
| GossipExchanges.DeliverAll | crdt_merge/gossip.py:368-381 | receiving any list of minted entries is such a continuation |
| GossipExchanges.AtPrefix | crdt_merge/gossip.py:368-381 | later steps change no earlier state |
| GossipOrder.OrderIrrelevantIffChampion | crdt_merge/gossip.py:385-409 | all arrival orders leave the same entry exactly when one entry beats every other |
| GossipOrder.ChampionStays | crdt_merge/gossip.py:385-409 | an entry that beats all others survives every order and repetition |
| GossipOrder.SurvivorCanChange | crdt_merge/gossip.py:385-409 | without one, moving an unbeaten entry to the end changes the survivor |
| GossipOrder.PairsAgree | crdt_merge/gossip.py:385-409 | two entries always have a common outcome |
| GossipOrder.ThreeWayCycle | crdt_merge/gossip.py:404-408 | {a:9}, {a:10} and {a:5,b:1} beat each other in a circle |
| Counters.SlotCountsObserved | crdt_merge/core.py:72-105 | after any increments and merges a slot holds the sum of all observed increments by its node, none lost or counted twice |
| Counters.OneHasSeenMore | crdt_merge/core.py:89-105 | of two versions one has observed every increment of a node that the other has |
| Counters.ValueSplits | crdt_merge/core.py:63-70 | the value does not depend on the order the slots are summed in |
| Counters.GCounter.constructor | crdt_merge/core.py:48-61 | an initial amount counts only for a named node and a positive number |
| Counters.GCounter.Increment | crdt_merge/core.py:72-87 | negative amounts are refused; otherwise the value grows by the amount |
| Counters.GCounter.MergeWith | crdt_merge/core.py:89-105 | the merge loop takes the larger count of every slot |
| Counters.PNCounter.Increment | crdt_merge/core.py:156-169 | the net value grows by the amount |
| Counters.PNCounter.Decrement | crdt_merge/core.py:171-184 | the net value falls by the amount |
| Counters.PNCounter.MergeWith | crdt_merge/core.py:186-202 | both halves merge slot by slot |
| ORSet.ValueIsUnremovedAdds | crdt_merge/core.py:382-418 | in every history an element is in the set exactly when some add of it was observed and no observed remove had seen that add |
| ORSet.LiveTagsAreUndead | crdt_merge/core.py:453-476 | the live tags are exactly the observed adds that no observed remove had seen |
| ORSet.TombstonesAreDead | crdt_merge/core.py:401-418 | the tombstones are exactly the tags some observed remove had seen |
| ORSet.LiveAndRemovedDisjoint | crdt_merge/core.py:453-476 | live tags and tombstones never overlap |
| ORSet.NoResurrection | crdt_merge/core.py:453-476 | a removed tag is live in no later version, whatever stale states are merged |
| ORSet.RemoveTagKeepsDisjoint | crdt_merge/core.py:420-437 | removing one tag keeps them apart exactly when no other element holds the tag |
| ORSet.ObservedRemoveSet.Add | crdt_merge/core.py:382-399 | the element gains the fresh tag and nothing else changes |
| ORSet.ObservedRemoveSet.Remove | crdt_merge/core.py:401-418 | the element's tags all become tombstones |
| ORSet.ObservedRemoveSet.RemoveTag | crdt_merge/core.py:420-437 | one tag of one element becomes a tombstone |
| ORSet.ObservedRemoveSet.MergeWith | crdt_merge/core.py:453-476 | union of tags minus union of tombstones, dropping emptied elements |
| LWWMap.LookupIsLatestUndeleted | crdt_merge/core.py:578-617 | in every history whose local writes and deletes are in order the map shows the newest observed write unless some observed delete is at least as new |
| LWWMap.ReflectedIffInOrder | crdt_merge/core.py:555-617 | every version reflects all observed writes and deletes exactly when each local write or delete replaces nothing newer that still counts |
| LWWMap.LiveIffOutdatesDeletes | crdt_merge/core.py:599-602 | a register is live exactly when it is newer than every observed delete, although dominated tombstones were dropped |
| LWWMap.SetsReflected | crdt_merge/core.py:635-664 | every observed write is matched by a register at least as new |
| LWWMap.RegistersObserved | crdt_merge/core.py:635-664 | every register is an observed write |
| LWWMap.DeletesReflected | crdt_merge/core.py:555-576 | every observed delete is recorded or outdated by the register held |
| LWWMap.TombstonesObserved | crdt_merge/core.py:604-617 | every tombstone is an observed delete |
| LWWMap.MergeRegistersIsMax | crdt_merge/core.py:295-324 | merging registers keeps one of them and one with the larger stamp |
| LWWMap.BackdatedSetHidesNewer | crdt_merge/core.py:555-576 | a local write with an older stamp hides the newer one |
| LWWMap.BackdatedDeleteRevives | crdt_merge/core.py:604-617 | a local delete with an older stamp revives a deleted key |
| LWWMap.LastWriterWinsMap.Set | crdt_merge/core.py:555-576 | the register is replaced and a strictly older tombstone dropped |
| LWWMap.LastWriterWinsMap.Delete | crdt_merge/core.py:604-617 | the tombstone is replaced |
| LWWMap.LastWriterWinsMap.Snapshot | crdt_merge/core.py:619-633 | the whole view agrees with single lookups on every key |
| LWWMap.LastWriterWinsMap.MergeWith | crdt_merge/core.py:635-664 | registers by stamp, tombstones by time, over the union of keys |
| Convergence.TreesConverge | crdt_merge/core.py:24-30 | any two merge trees over the same states, in any shape, order and repetition, give the same state |
| Replicas.ClocksConverge | crdt_merge/clocks.py:169-179 | the convergence theorem for vector clocks |
| Replicas.GCountersConverge | crdt_merge/core.py:89-105 | the convergence theorem for grow-only counters |
| Replicas.PNCountersConverge | crdt_merge/core.py:186-202 | the convergence theorem for positive-negative counters |
| Replicas.ORSetsConverge | crdt_merge/core.py:453-476 | the convergence theorem for observed-remove sets with live tags apart from tombstones |
| Replicas.LWWMapsConverge | crdt_merge/core.py:635-664 | the convergence theorem for last-writer-wins maps where a stamp on a key stands for one value |
| Replicas.GossipStatesConverge | crdt_merge/gossip.py:423-471 | the convergence theorem for gossip entries and clocks where value texts are distinct |
| Replicas.MerkleTreesConverge | crdt_merge/merkle.py:396-428 | the convergence theorem for Merkle record sets where a content hash stands for one content |
| Wire.RoundTrip | crdt_merge/wire.py:195-295 | decoding an encoding anywhere in any data gives the value (tuples as lists, bytearrays as bytes) and the exact end offset; it fails exactly when a tuple is a set element or dict key |
| WirePrefixes.PrefixFree | crdt_merge/wire.py:195-237 | no encoding is a proper prefix of another, tuples in key position included; values with one encoding decode alike |
| WirePrefixes.SkipsValue | crdt_merge/wire.py:195-237 | tags, lengths and counts alone tell where any encoding ends |
| WireLayout.PutLooksUp | crdt_merge/wire.py:239-295 | a decoded dict holds what was assigned last to a key, in the key's first place |
| WireLayout.SetHoldsOnce | crdt_merge/wire.py:239-295 | a decoded set holds each of its elements once |
| Wire.PlainUnchanged | crdt_merge/wire.py:239-295 | values without tuples, bytearrays and foreign objects come back unchanged |
| Wire.EncodeValue | crdt_merge/wire.py:195-237 | the encoder with its loops over parts computes the encoding, or the overflow error |
| Wire.DecodeValue | crdt_merge/wire.py:239-295 | the decoder with its loops over an offset computes the decoding, errors included |
| Utf8.ValidIffText | crdt_merge/wire.py:239-295 | bytes are accepted as text exactly when they encode some code points, surrogates excluded |
| WireLayout.ScalarLayout | crdt_merge/wire.py:195-237 | the bytes of nulls, booleans and floats |
| WireLayout.IntLayout | crdt_merge/wire.py:195-237 | one byte in two's complement for -128 to 127, eight up to 64 bits, an overflow error beyond |
| WireLayout.TextLayout | crdt_merge/wire.py:195-237 | texts and bytes behind a tag and a four-byte length; foreign objects as texts, bytearrays as bytes |
| WireLayout.ContainerLayout | crdt_merge/wire.py:195-237 | lists and tuples alike, sets and dicts: a tag, a count and the encodings of the parts in order |
| WireLayout.FrameLayout | crdt_merge/wire.py:309-331 | the header byte by byte, and a compressed body exactly when compression was asked for and made it shorter |
| WireLayout.CompressionNeverLonger | crdt_merge/wire.py:309-331 | so asking for compression never makes a frame longer |
| WireLayout.BatchLayout | crdt_merge/wire.py:708-726 | the number of frames, then every frame behind its size |
| WireLayout.ShortBodyPasses | crdt_merge/wire.py:239-295 | a text or bytes body that ends early is returned short |
| WireLayout.ShortNumberRefused | crdt_merge/wire.py:239-295 | a number that ends early is refused |
| WireLayout.UnknownTagRefused | crdt_merge/wire.py:239-295 | so is a tag above the last one |
| WireLayout.FrameRefused | crdt_merge/wire.py:518-541 | frames that are too short, have another magic or a later version are refused, each with its error |
| Bytes.FirstCountsMost | crdt_merge/wire.py:195-237 | numbers are read with the most significant byte first |
| Bytes.BigEndianRoundTrip | crdt_merge/wire.py:195-237 | fixed-width big-endian numbers read back |
| WireFrames.FrameRoundTrip | crdt_merge/wire.py:309-331 | a frame, compressed or not and followed by any bytes, reads back as its message |
| WireFrames.FramePrefixRejected | crdt_merge/wire.py:518-541 | no strict prefix of a frame is accepted |
| WireFrames.BatchRoundTrip | crdt_merge/wire.py:708-754 | a batch, even followed by other bytes, reads back as its messages |
| WireFrames.BatchPrefixRejected | crdt_merge/wire.py:728-754 | every strict prefix of a batch is rejected |
| WireFrames.SerializeMany | crdt_merge/wire.py:708-726 | the batch loop writes the count and the length-prefixed frames, or fails with the first failure |
| WireFrames.DeserializeMany | crdt_merge/wire.py:728-754 | the batch loop reads exactly the counted frames, or fails with the first failure |
| Merkle.JoinInjective | crdt_merge/merkle.py:206-210 | joining hexadecimal hashes with bars is unambiguous |
| Merkle.JoinAppends | crdt_merge/merkle.py:206-210 | child hashes are joined in order with bars |
| Merkle.LevelCut | crdt_merge/merkle.py:236-256 | a level is cut from the left into groups of b, only the last one smaller, and each becomes a node that hashes its members' hashes |
| Merkle.RootsEqualIffContentsEqual | crdt_merge/merkle.py:206-258 | under a collision-free hash, equal roots mean equal content sequences, and conversely for one branching factor |
| Merkle.BuildHash | crdt_merge/merkle.py:214-258 | the root hash depends on the sequence of leaf hashes alone |
| Merkle.BuildOverLeaves | crdt_merge/merkle.py:214-258 | leaves in key order at one depth, one to b children, exact counts and key ranges at every node |
| Merkle.GroupsIsCeiling | crdt_merge/merkle.py:236-256 | a level of n nodes has n / b groups, rounded up |
| Merkle.HeightIsLeast | crdt_merge/merkle.py:318-329 | the height is the least h with b^(h-1) at least n |
| MerkleTrees.RootHashesEqualIff | crdt_merge/merkle.py:294-300 | two trees of one branching factor, empty ones included, have equal roots exactly when their key-ordered content hashes are equal |
| MerkleTrees.RootHashesEqual | crdt_merge/merkle.py:294-300 | equal roots mean equal contents even across branching factors |
| MerkleTrees.ShortcutAgreesWithScan | crdt_merge/merkle.py:531-587 | the diff's root shortcut reports what the scan would exactly when the roots differ or the key sets are equal |
| MerkleTrees.RenamedKeyGoesUnnoticed | crdt_merge/merkle.py:194-210 | one record under two different keys gives equal roots and an empty diff |
| MerkleTrees.MerkleTree.Rebuild | crdt_merge/merkle.py:214-258 | the level loop ends with the fresh build of the current records |
| MerkleTrees.MerkleTree.RootHash | crdt_merge/merkle.py:294-300 | the lazily rebuilt root is always that of a fresh build |
| MerkleTrees.MerkleTree.TreeHeight | crdt_merge/merkle.py:318-329 | walking down the first children counts the height of the tree |
| MerkleTrees.MerkleTree.Insert | crdt_merge/merkle.py:333-359 | the record is filed with its content hash and the tree marked stale |
| MerkleTrees.MerkleTree.Delete | crdt_merge/merkle.py:361-375 | the record goes, and the result says whether it was there |
| MerkleTrees.MergeKeepsLarger | crdt_merge/merkle.py:396-428 | of two records of one key the one with the larger content hash stays, the first of equals |
| MerkleTrees.MerkleTree.MergeWith | crdt_merge/merkle.py:396-428 | union of keys, the larger content hash winning |
| MerkleTrees.MerkleDiff | crdt_merge/merkle.py:531-587 | nothing under equal roots, else the keys of one side only, of the other only, and those whose content hashes differ; with the exact number of comparisons |
| MerkleTrees.CompareCommon | crdt_merge/merkle.py:565-587 | exactly the common keys whose content hashes differ |
| Delta.ApplyDelta | crdt_merge/delta.py:206-258 | the loops remove, then overwrite, then add |
| Delta.ComposeDeltas | crdt_merge/delta.py:260-325 | the composed delta lists the net change of the deltas, with the largest version |
| Delta.ComposedActsLikeAll | crdt_merge/delta.py:260-325 | on every record set the composed delta does what the deltas in order do |
| Delta.ChangesFold | crdt_merge/delta.py:260-325 | added or removed and then modified counts as added, modified twice as modified, added and then removed as removed |
| Delta.GroupingIrrelevant | crdt_merge/delta.py:260-325 | composing consecutive deltas in any grouping gives the same net change |
| Delta.ComposedAccumulates | crdt_merge/delta.py:260-325 | a composed delta can stand for its parts anywhere in a list |
| Delta.ListingAccumulates | crdt_merge/delta.py:285-325 | a delta that lists a net change has exactly that net change |
| Delta.ComputeDelta | crdt_merge/delta.py:160-204 | read off the rows: the last rows of new keys are added, last rows whose content hash changed are modified, keys that are gone are removed; applying it gives the new set exactly when no change left its content hash the same |
| Delta.IndexHoldsAll | crdt_merge/delta.py:181-196 | indexing rows holds the last row of every key that occurs, and nothing else |
| Delta.DifferenceReaches | crdt_merge/delta.py:160-258 | the same for every delta that lists the difference |
| Delta.DeltaStore.Ingest | crdt_merge/delta.py:354-394 | the store holds the last row of every key; the version, and a delta of what was added, modified and removed since the previous non-empty snapshot |
| Delta.FollowsIffKept | crdt_merge/delta.py:354-394 | a replica fed what a store emits holds every snapshot exactly when no change hides behind equal hashes and no snapshot fills up after an empty one |
| Delta.IngestAll | crdt_merge/delta.py:354-394 | a store run over any snapshots from any state: what it emits and holds, one version per delta, and that condition |
| Delta.AnyGroupingFeedsAlike | crdt_merge/delta.py:260-325 | feeding a replica the emitted deltas composed in any grouping is the same as feeding them one by one |
| Delta.AnyGroupingReachesLatest | crdt_merge/delta.py:354-394 | so under that condition any grouping ends with the latest snapshot |
| Dependencies.DetectCircular | crdt_merge/agentic.py:532-551 | the check raises exactly when the dependency graph has a cycle, and always ends |
| Dependencies.Search.Visit | crdt_merge/agentic.py:539-549 | a search either closes a cycle or finishes its agent after all its dependencies |
| Dependencies.Search.VisitDependencies | crdt_merge/agentic.py:547-548 | the loop over an agent's dependencies finishes all of them or closes a cycle |
| Dependencies.NoCycleThrough | crdt_merge/agentic.py:539-549 | no cycle goes through a finished agent |
| Dependencies.ClosesCycle | crdt_merge/agentic.py:540-541 | meeting an agent of the current path proves a cycle |
| Dependencies.GraphIsLast | crdt_merge/agentic.py:532-538 | a name stands for the last agent that has it, and names no agent has are unknown |
| Dependencies.UniqueNamesGraph | crdt_merge/agentic.py:532-538 | with unique names the graph is what the agents declare |
| MessageLog.MergeMessages | crdt_merge/agentic.py:393-412 | concatenate, deduplicate, sort, refill the bounded queue |
| MessageLog.DedupKeepsFirsts | crdt_merge/agentic.py:392-408 | of the messages with one dedup text the first is kept, in order, under either strategy |
| MessageLog.SortIsStable | crdt_merge/agentic.py:409 | the merged messages stand in order of time, those of one time in the order they came |
| MessageLog.MergeKeepsNewest | crdt_merge/agentic.py:393-412 | the merged log is sorted and holds exactly the newest k messages of both |
| MessageLog.NewestOfNewest | crdt_merge/agentic.py:393-412 | truncating before a union does not change the newest k of the union |
| MessageLog.LogLaws | crdt_merge/agentic.py:361-412 | truncated logs merge commutatively, associatively and idempotently |
| MessageLog.LogsConverge | crdt_merge/agentic.py:361-412 | the convergence theorem for truncated logs with a common cap |
| ContentOnlyLogs.CommutesIff | crdt_merge/agentic.py:393-412 | merging by content alone is order-independent exactly when every content whose first copies differ between the logs is older, in both copies, than k messages about which they agree |
| ContentOnlyLogs.CommutesUncut | crdt_merge/agentic.py:393-412 | with room for all messages: exactly when both logs hold the same first copy of every shared content |
| ContentOnlyLogs.AssociatesIff | crdt_merge/agentic.py:393-412 | it is independent of grouping exactly when cutting the first two logs revives no later copy of a cut content and cutting the last two loses nothing that the first one's older copies let back in |
| ContentOnlyLogs.AssociatesUncut | crdt_merge/agentic.py:393-412 | with room for all messages it always is |
| ContentOnlyLogs.OrderAndGroupingMatter | crdt_merge/agentic.py:393-412 | an old and a new copy of one content with another message between them in time: with room for one message both order and grouping change the result |
| RateLimiter.GrantsBounded | crdt_merge/agentic.py:88-104 | between any two calls of any run at most capacity + rate * elapsed tokens are granted |
| RateLimiter.BudgetHolds | crdt_merge/agentic.py:95-104 | what is granted and what is left together fit in that budget |
| RateLimiter.TokensInRange | crdt_merge/agentic.py:95-104 | tokens stay between zero and the capacity |
| RateLimiter.GrantedIffFits | crdt_merge/agentic.py:88-104 | a call is granted exactly when no window that ends with it has spent its budget: neither the starting tokens plus what was earned since, nor a full bucket at an earlier call plus what was earned since |
| RateLimiter.BurstGranted | crdt_merge/agentic.py:88-104 | a full bucket grants as many calls in a burst as it holds tokens |
| RateLimiter.SpacedCallerNeverRefused | crdt_merge/agentic.py:88-104 | calls at least 1 / rate apart are always granted |
| RateLimiter.TokenBucket.Acquire | crdt_merge/agentic.py:95-104 | refill for the elapsed time, then take a whole token or refuse |
| Rows.ResolveRowByColumn | crdt_merge/streaming.py:81-140 | the column loop fills every column with what one row has where the other has nothing, what both agree on, or what the policy answers for the two cells and times |
| Rows.ResolveKeepsKey | crdt_merge/streaming.py:81-140 | merging two rows of one key keeps the key under every policy |
| Streaming.MergeSortedStream | crdt_merge/streaming.py:267-383 | finishes exactly when both sources are sorted; then yields the join in full batches but the last, rows of one key joined pair by pair and all others as given, with exact counts; stopped early it has yielded full batches of a prefix |
| Streaming.JoinPairs | crdt_merge/streaming.py:297-383 | on sorted sources, whatever keys repeat: the rows of one key are joined pair by pair in order, cell by cell as above, and the surplus of either side comes out as it is |
| Streaming.JoinSorted | crdt_merge/streaming.py:297-383 | sorted sources give sorted output |
| Streaming.CountsConserved | crdt_merge/streaming.py:297-383 | output rows plus merged pairs equal input rows |
| Streaming.MergeStream | crdt_merge/streaming.py:149-265 | by position: the first row of a key is joined with the key's last row in the second source, other rows of the first come out as given, then the last rows of keys only the second has; the popped index and growing column cache, full batches but the last, and the exact value of every counter |
| Streaming.HashJoinWidth | crdt_merge/streaming.py:218-265 | where all matching pairs have the same columns between them, every joined row has them all |
| Streaming.ColumnsKeptIff | crdt_merge/streaming.py:218-265 | a pair keeps all its columns exactly when the cached ones include them or are fewer |
| Streaming.CacheDropsColumn | crdt_merge/streaming.py:218-265 | two pairs of which the second loses a column |
| Streaming.JoinsAgree | crdt_merge/streaming.py:218-265 | on duplicate-free sorted sources with one column set the two joins yield the same rows |
| Streaming.EmitYields | crdt_merge/streaming.py:142-147 | each row goes into the open batch, which is yielded when full |
| DataFrame.MergeKeyed | crdt_merge/dataframe.py:268-384 | the index, sort, merge and duplicate-removal loops put out the first row of every hash of the rows rightly listed, or report a missing key column |
| DataFrame.ListedRightly | crdt_merge/dataframe.py:323-384 | rightly listed: for each key without nulls, in key order, the last rows of both sides merged over all columns or the last row of the only side; then the rows with a null in their key, in order |
| DataFrame.CellIsMerged | crdt_merge/dataframe.py:386-432 | a merged cell is the one that is not null, the first of two alike after normalization, the schema strategy's answer, the cell of the later time and at one time of the larger text, the preferred side's, or the one of the larger normalized text |
| DataFrame.BuildIndex | crdt_merge/dataframe.py:323-347 | the last row per key, rows with a null key apart; indexed, repeated and null rows add up |
| DataFrame.IndexHolds | crdt_merge/dataframe.py:323-347 | the index holds a row of the list for exactly the keys without nulls in it |
| DataFrame.OwedIsListed | crdt_merge/dataframe.py:349-384 | the merge lists the last row of every key of either input, merged where both have one, and every row with a null in its key |
| DataFrame.ListedIsOwed | crdt_merge/dataframe.py:349-384 | and lists nothing else |
| DataFrame.DropRepeats | crdt_merge/dataframe.py:434-446 | the loop computes duplicate removal |
| DataFrame.KeptRightly | crdt_merge/dataframe.py:434-446 | which keeps exactly the rows whose hash no earlier row has, in order |
| DataFrame.DedupKeepsOneEach | crdt_merge/dataframe.py:434-446 | every hash is kept, by exactly one row, and no row is invented |
| DataFrame.EveryRowKeptIff | crdt_merge/dataframe.py:434-446 | duplicate removal keeps every row exactly when no two different rows share a hash |
| DataFrame.RowCommutesIff | crdt_merge/dataframe.py:386-432 | two rows merge the same from either side exactly when each differing pair is told apart by time, text or its column's strategy |
| DataFrame.ListedCommutesIff | crdt_merge/dataframe.py:268-384 | without duplicate removal the whole merge is independent of argument order exactly under that condition on all shared keys and with matching null-key rows |
| DataFrame.OrderIrrelevant | crdt_merge/dataframe.py:268-384 | under that condition so is the merge with duplicate removal |
| DataFrame.OrderIrrelevantIff | crdt_merge/dataframe.py:268-384 | and only then, when no listed hash repeats |
| DataFrame.NothingDroppedIff | crdt_merge/dataframe.py:268-384 | duplicate removal drops nothing exactly when no two listed rows share a hash |
| Parallel.ComputeChunks | crdt_merge/parallel.py:209-262 | the chunks are the rows of groups that partition the keys, each but the last of exactly the chunk size |
| Parallel.CutGroups | crdt_merge/parallel.py:249-252 | cutting the sorted keys gives such a partition, and nothing for a negative size |
| Parallel.ExactlyOneGroup | crdt_merge/parallel.py:249-260 | every key lies in exactly one group |
| Parallel.ChunkLists | crdt_merge/parallel.py:254-260 | before duplicate removal a chunk lists exactly the rows the whole lists for its keys, in the same order |
| Parallel.ChunksAgreeIff | crdt_merge/parallel.py:99-140 | over rows of one column set with normalized keys, the chunks give the rows of the one-pass merge exactly when no two keys of different chunks are owed rows of one hash |
| Parallel.RunWorkers | crdt_merge/parallel.py:108-137 | in whatever order the workers finish the result holds all their rows; any failure fails the whole |
| Parallel.ParallelMerge | crdt_merge/parallel.py:54-140 | threshold, single-chunk and bad-size cases, and agreement with the one-pass merge under the condition above |
| Parallel.DifferentKeysCollide | crdt_merge/dataframe.py:259-266 | two rows with different keys and one hash text: the one-pass merge keeps only one of them |
| Strategies.LwwAnswers | crdt_merge/strategies.py:99-114 | LWW answers the value of the later time, at one time that of the larger text |
| Strategies.MaxAndMinAnswer | crdt_merge/strategies.py:116-143 | MaxWins and MinWins answer the larger and the smaller of two numbers, of two texts, or of the texts of a mixed pair, and a null only for two |
| Strategies.RankIsLastPlace | crdt_merge/strategies.py:186-211 | a value ranks by the last place of its text among the levels, or below them all |
| Strategies.PriorityAnswers | crdt_merge/strategies.py:186-211 | Priority answers the value of the later level, within one level that of the larger text |
| Strategies.LaterCellJoined | crdt_merge/streaming.py:81-140 | under a schema with LWW for a column, joined rows hold the cell of the later row |
| Strategies.CommutesIff | crdt_merge/strategies.py:99-211 | a strategy gives the same from either side exactly when the values are not told apart by position alone |
| Strategies.AssociatesIff | crdt_merge/strategies.py:99-211 | at equal times every strategy associates on three values, except exactly that MaxWins and MinWins do not where the three break their order |
| Strategies.OneKindNeverBreaks | crdt_merge/strategies.py:116-143 | values of one kind and nulls never do |
| Strategies.CirclesBreak | crdt_merge/strategies.py:116-143 | values of three different texts do exactly when they beat each other in a circle |
| Strategies.EqualTextBreaks | crdt_merge/strategies.py:116-129 | so do 9, "10" and 10, two of one text |
| Strategies.MaxCircle | crdt_merge/strategies.py:116-129 | 10, 9 and "1a" beat each other in a circle |
| Strategies.RowCommutesIff | crdt_merge/strategies.py:301-362 | rows merge the same from either side exactly when no column holds a confusable pair |
| MergeQL.ExecuteMerge | crdt_merge/mergeql.py:786-887 | the fold with pushed-down filter, fallback on a failed evaluation, MAP and LIMIT; equal to merging first when the key decides the filter |
| MergeQL.ScanSources | crdt_merge/mergeql.py:804-856 | the source loops compute the scan, including the moment pushing stops |
| MergeQL.AnyOfMeans | crdt_merge/mergeql.py:369-411 | a disjunction says yes exactly when some clause does and all before it say no, raises exactly when some clause raises and all before it say no, and otherwise says no |
| MergeQL.AllOfMeans | crdt_merge/mergeql.py:369-416 | the dual for conjunctions |
| MergeQL.LeafMeans | crdt_merge/mergeql.py:369-486 | a leaf is decided by the cell it names, and an unreadable clause passes every row |
| MergeQL.FoldGathers | crdt_merge/mergeql.py:804-856 | the fold holds each key that occurs, null apart, once, with the joined cells of all its rows in the order of the sources |
| MergeQL.FoldInOrder | crdt_merge/mergeql.py:804-856 | in the order in which the keys first appear |
| MergeQL.KeyQueryAnswers | crdt_merge/mergeql.py:786-887 | a query for any of some conditions on the key, without MAP and LIMIT, returns one row for exactly the source keys that some condition accepts, with the joined cells of its rows |
| MergeQL.PushdownSafeIff | crdt_merge/mergeql.py:701-734 | for every filter that never raises, every row policy, MAP and LIMIT: pushing down gives the rows of merging first on all sources exactly when rows of one key always get one verdict, or the limit is zero or cuts off at least as many rows as there are keys that can pass |
| MergeQL.JudgedBothWaysShows | crdt_merge/mergeql.py:701-734 | where the limit can show a row, rows of one key judged both ways give sources on which the two differ, also for filters that may raise |
| MergeQL.LimitKeepsFront | crdt_merge/mergeql.py:874-876 | a limit keeps that many rows from the front, or all but that many if it is negative |
| MergeQL.RenameRow | crdt_merge/mergeql.py:864-872 | the MAP loop puts every cell under its new name and adds none; the theorem above asks no more of MAP |
| MergeQL.PushdownAgrees | crdt_merge/mergeql.py:701-734 | in that direction for every query, filters that raise included: same rows, same order |
| MergeQL.KeyOnlyDecides | crdt_merge/mergeql.py:369-486 | a filter that names no field but the key is decided by it |
| MergeQL.ScanFollowsFold | crdt_merge/mergeql.py:804-856 | at every point the scan and the plain fold agree on the entries that do not fail the filter |
| MergeQL.EvalReadsFields | crdt_merge/mergeql.py:369-486 | a clause is decided by the fields it names |
| MergeQL.PushdownCanChangeRows | crdt_merge/mergeql.py:701-734 | on a merged field pushdown can keep a row that merging first drops |
| HyperLogLog.CountLeadingZeros | crdt_merge/probabilistic.py:61-70 | the scan counts zeros down to the first one |
| HyperLogLog.IndexIsTopDigits | crdt_merge/probabilistic.py:119-122 | the register index is the number made of the hash's p highest digits |
| HyperLogLog.RankMeaning | crdt_merge/probabilistic.py:119-127 | the rank is that of the lowest 64 - 2p digits, jumping to 65 - p when they are all zero |
| HyperLogLog.RankKeptIff | crdt_merge/probabilistic.py:119-127 | the promised rank comes out exactly when the 64 - p remaining digits are all zero, or begin with as many zeros as their lowest 64 - 2p digits, which are not all zero |
| HyperLogLog.FirstDigitUnseen | crdt_merge/probabilistic.py:119-127 | a hash whose first remaining digit is one gets the highest rank |
| HyperLogLog.RegistersHoldLargest | crdt_merge/probabilistic.py:119-179 | after any adds and merges each register holds the largest rank of the items with its index |
| HyperLogLog.SameItemsSameRegisters | crdt_merge/probabilistic.py:157-179 | merged registers are those of one sketch fed the same items in any order and repetition |
| HyperLogLog.MergeableHLL.Add | crdt_merge/probabilistic.py:119-127 | the indexed register is raised to the item's rank |
| HyperLogLog.MergeableHLL.MergeWith | crdt_merge/probabilistic.py:157-179 | register by register the larger, or refusal on different precisions |
| BloomFilter.PositionsStep | crdt_merge/probabilistic.py:267-271 | the positions start at the first hash and go on in steps of the second, around the filter |
| BloomFilter.LeastFirst | crdt_merge/probabilistic.py:273-277 | bits are numbered from the least significant one of every byte |
| BloomFilter.BitIffClaimed | crdt_merge/probabilistic.py:267-338 | a bit is set exactly when an item that reached the filter claims it |
| BloomFilter.SameItemsSameBits | crdt_merge/probabilistic.py:304-338 | a merged filter is bit for bit one filter fed the same items |
| BloomFilter.ContainsIff | crdt_merge/probabilistic.py:290-296 | membership holds exactly when all positions are claimed, so never fails for an added item |
| BloomFilter.MergeableBloom.Add | crdt_merge/probabilistic.py:273-283 | exactly the item's positions are set in the packed bytes |
| BloomFilter.MergeableBloom.MightContain | crdt_merge/probabilistic.py:290-296 | true for every item that reached the filter |
| BloomFilter.MergeableBloom.MergeWith | crdt_merge/probabilistic.py:304-338 | byte-wise or, or refusal on different parameters |
| CountMin.PositionsStep | crdt_merge/probabilistic.py:408-412 | the columns start at the first hash and go on in steps of the second, around the row |
| CountMin.EstimateBetween | crdt_merge/probabilistic.py:414-470 | after any adds and merges an estimate lies between the most any one line of adding accounts for and the estimate of one sketch fed everything |
| CountMin.MergedEstimateBetween | crdt_merge/probabilistic.py:445-470 | for two sketches: between the larger true count and the estimate of the combined stream |
| CountMin.UndercountsIff | crdt_merge/probabilistic.py:425-470 | a merged estimate is below the combined true count exactly when in some row each stream's noise is below the other's count |
| CountMin.MergeUndercounts | crdt_merge/probabilistic.py:425-470 | merging two sketches of one item undercounts |
| CountMin.MergeableCMS.Add | crdt_merge/probabilistic.py:414-418 | one counter per row and the total grow by the count |
| CountMin.MergeableCMS.Estimate | crdt_merge/probabilistic.py:425-433 | the smallest of the item's counters |
| CountMin.MergeableCMS.MergeWith | crdt_merge/probabilistic.py:445-470 | counter by counter the larger, or refusal on different dimensions |

## Left out

- Convergence of more than two replicas through `apply_entries`: false in general; `GossipOrder` gives the exact condition.
- Happened-before runs leave out writes with an external clock and whole-state gossip merges, which make clocks no write minted.
- JSON payload text inside frames: a JSON frame's payload is opaque bytes; rebuilding typed objects from decoded dicts is not modelled.
- Wire values: Python's equality of `True`, `1` and `1.0`, NaN in sets, frozensets and the recursion limit.
- Peeking at frame types, sizes and protocol versions: one-line reads of the header.
- ORSet serialization, `from_dict` of every type, and wall-clock defaults for timestamps.
- Merkle `from_records` and the subtree statistics of the diff report: bookkeeping around the modelled build and scan.
- `compose_deltas` without a key, and mixed integer and string keys: identities of records do not line up there.
- Facts, tags and counters of agent states: they are the core types.
- Keys of the streaming merges are integers; rows without a key are not given to them.
- Rows with different column sets in `merge_stream`: the cached column list can drop columns; the model has the cache, the agreement theorem asks for one column set.
- The producer thread and queue of `merge_stream`, timings, and reuse of one statistics object across streams.
- Cells are null, integers or text: NaN handling in row merging, nested dict and list cells, and equal keys of different numeric types.
- Detection of a `_ts` column: the conflict rule is a parameter, and detection gives the same rule in every chunk where rows can conflict.
- Merging without a key, fuzzy duplicate removal, vectorized and Arrow paths, pandas and polars conversion.
- User strategies that raise: row policies are total.
- UnionSet, Concat, LongestWins and Custom strategies, and strategy registries.
- Timestamped LWW over more than two rows: a merged row carries the newer time for older cells.
- DataFrame.OrderIrrelevantIff: where listed hashes repeat, duplicate removal can hide a difference; `DataFrame.OrderIrrelevant` is one direction there.
- MergeQL.PushdownSafeIff: a filter that may raise stops the pushing in mid-scan; `MergeQL.PushdownAgrees` and `MergeQL.JudgedBothWaysShows` are one direction each there.
- The WHERE text parser and the query parser; a WHERE clause is its parsed form, with leaves that may raise.
- Conflict counts and provenance of queries, which do depend on the pushdown.
- The order of columns in a row, which decides between columns that MAP gives one new name.
- Cardinality, false-positive and item-count formulas of the sketches: floating-point numerics.
- Encryption, observability, access control, storage backends, command line and integrations.
