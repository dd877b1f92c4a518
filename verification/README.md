# Verified model of the sparse state trie and of subblock aggregation

This project models two parts of a system that proves Ethereum blocks in a zkVM, and proves
properties of them in Dafny.

**The sparse Merkle Patricia trie and the two-level state on it** (`crates/mpt`). A trie may hold
hashes in place of sub-tries. Nodes are inserted, deleted, hashed with a per-node cache, encoded,
stitched together from proofs, and pruned to a witness. The state is a trie of accounts and a
storage trie per account.

**Splitting a block into subblocks and putting it back together** (`crates/executor`). The host
splits the gas of a block, cuts and executes it, and makes a witness for each subblock. The client
runs each subblock on its witness. The aggregator checks that the subblocks make up the block.

## How it is built

- Values and their functions come first: `Trie` (lookup, insertion, deletion), `NodeCodec`
  (encoding, references, hashes, decoding), `Pruning`, `Resolving`, `StateMap`. The classes
  `MptNodes.MptNode`, `EthereumStates.EthereumState` and `Aggregation.CumulativeOutput` update their
  fields in place as the source does, and every method is proved equal to the function on values.
- `MptNode.Valid()` contains the cache invariant: a cached reference is the reference of the current
  sub-trie, in which a stub may carry a residue (see below). `MptRuns` proves over whole runs when the
  cached hash is the hash without any cache.
- What these functions compute is stated apart from them as well, by lookups, byte by byte, or node by
  node: `IsPruned`, `UnmarkedOnPath` and `Asked` say what pruning leaves and what it marks, `Taken` and
  `SubblockTaken` what a state is after changes, `NodeItems`, `Writes` and `CompactForm` what the
  encodings are, `Greedy` where the gas is split, `IsDerived`, `ChainHashes` and `AcceptedPlace` what the
  aggregator checks and returns, `WholeMergeIs` what a merge is.
- Keccak-256, the hash of headers, and the roots of lists in a header are uninterpreted functions.
  A theorem that needs collision freedom says which encodings must not collide.
- A `Digest` carries a residue: pruning replaces a node by its hash without clearing the reference
  cache, so a short encoding may survive in the cache of the stub. `Clean` tries have no residue;
  every trie that was read from the outside is clean, updates keep it so, and pruning keeps it so
  exactly when it cuts no node with a short encoding (`CutsShort`, on the trie before the pruning).
- `Find` tells an absent key from an unresolved path; `Get` is the lookup of the source, which answers
  "no value" for both.
- Tries of hashed keys have all keys 64 nibbles long (`Uniform`); for these, updates fail only at
  unresolved nodes.
- The EVM is a machine with three functions: what happens before the first transaction, for each
  transaction, and after the last one. They depend on the header, ommers, withdrawals and block
  hashes, so the aggregator's comparisons of these are needed in the proofs. Where a subblock runs on
  its witness, the EVM is any deterministic program that reads accounts and slots.
- An adequacy theorem has a simulation at its centre. `Sparse.Stands` relates a sparse trie and the
  trie it stands for under a set of deletable keys, and is kept by every update; pruning and the
  rebuilding from proofs both establish it. A run of insertions and deletions in any order can lose it
  on the way; `Transitions` shows that the run ends in the same trie as with the insertions first.

Main results, by file: `TrieForm` and `TrieHistory` (canonical form, exact outcomes, history
independence), `Binding` (Merkle binding), `NodeRoundTrip` (codec), `MptNodes`, `MptRuns` and
`StaleHashes` (in-place refinement and cache coherence), `Pruning`, `StatePruning`, `Witnesses` and
`SubblockRuns` (pruned witnesses are adequate, for the execution and for its changes), `ShortNodes` and
`HiddenSurvivor` (exact limits of pruning, and of deleting from any trie with hidden parts), `Orphans`,
`Exclusion`, `ProofTries`, `LoneNodes`, `SparseRuns` and `Transitions` (the proofs of a transition are
enough for all updates of one trie, in any order), `StateProofs` and `StateTransitions` (and for a whole
block on the two-level state), `WitnessTries` and `WitnessDb` (tries of a witness), `StateBinding` (what
a state root binds), `GasSplit`, `HostLoop` and `HostOutput` (splitting), `AggregationMeaning` and
`AggregationFlags` (aggregation), `Requests` (request merge).

Where the code does not do what its comments say, or what one might expect, the model follows the code:

- `get` answers "no value" at an unresolved node, although its comment says that `None` proves absence
  (`HashHidesValue`); `CutGetIff` shows exactly when the answer is that of the whole trie, and
  `WitnessesReadAlike` exactly when two accepted witnesses answer alike.
- `insert` answers `true` also when the value of a present key changes.
- `mpt_from_proof` attaches a node to the first child with its hash. When an earlier slot of the same
  branch holds an equal sub-trie, the proof of a key is taken for a proof of its absence
  (`TwinHidesKey`); `ExclusionProved` has the exact condition.
- The aggregator checks both flags only for the subblocks in the middle; `FlagsDecide` shows exactly
  what that leaves open.
- The client checks the storage roots of a witness when it runs a whole block (`witness_db`), but not
  when it runs a subblock (`execute_subblock`). So the committed input root does not bind the storage
  that the subblock reads (`UncheckedStorage`); `RunAlikeIff` shows that the check is exactly what is
  missing. The aggregation theorems assume that roots bind states (`RootsBind`), and
  `TidyAggregation` discharges it for states that pass the check.
- A missing storage trie is taken for an empty one; `MissingTrieIff` shows exactly when that is right,
  and `MissingTrieWrong` a trie for which it is not.
- The prune step leaves short references in the caches of its stubs. The assertions in `prune` cannot
  fail because of that, but a reloaded trie may have another root, and the cached hash is then not the
  hash without caches; `ReloadedRootIff`, `TrueHashIff` and `PruningIff` have the exact condition, and
  `ShortTrieLosesNode` and `StaleRun` a trie.
- A deletion that merges a branch with a hidden child treats that child as a branch; `HiddenSurvivorIff`
  shows exactly when the root hash comes out right, and `HiddenLeafLost` a trie for which it does not.
- Merging some requests before the others are there is not always the same as merging all of them once;
  `MergeEarlyIff` has the exact condition, and `UnknownTypeMergesDifferently` requests.

## Model

| member | source | states |
|---|---|---|
| Nibbles.ToNibsLoop | crates/mpt/src/mpt.rs:1112-1128 | the loop gives the two halves of every byte, high half first |
| Nibbles.ToNibsInjective | crates/mpt/src/mpt.rs:1112-1128 | different keys have different paths |
| Nibbles.PrefixNibsLoop | crates/mpt/src/mpt.rs:1150-1165 | the loop gives the path of a compact encoding, for odd and even lengths |
| Nibbles.LcpLoop | crates/mpt/src/mpt.rs:1141-1147 | the loop gives the length of the longest common prefix |
| Nibbles.CompactRoundTrip | crates/mpt/src/mpt.rs:1131-1165 | decoding a compact encoding gives back every path, and the leaf flag can be recovered |
| Nibbles.CompactReencode | crates/mpt/src/mpt.rs:1131-1165 | encoding again what was decoded gives the same bytes exactly when the unused bits of the first byte are clear |
| Nibbles.CompactForm | crates/mpt/src/mpt.rs:1131-1139 | byte by byte: 0x20 for a leaf and 0x10 with the first nibble for an odd number of them, then two nibbles to the byte, the higher half first |
| Nibbles.PrefixForm | crates/mpt/src/mpt.rs:1150-1165 | of any bytes, bit 0x20 of the first says leaf and bit 0x10 that the first nibble is in it; every further byte has two nibbles |
| Rlp.SplitConcat | crates/mpt/src/mpt.rs:264-303 | the items written into a list one after the other are the items that are read from it |
| Rlp.StringForm | crates/mpt/src/mpt.rs:264-297 | a byte below 0x80 is its own code; up to 55 bytes come after 0x80 plus their number, more after 0xb7 plus the size of their length and the length |
| Rlp.ListForm | crates/mpt/src/mpt.rs:264-297 | the same for lists, with 0xc0 and 0xf7 |
| Rlp.ReadItemIff | crates/mpt/src/mpt.rs:318-360 | an item is read exactly when the bytes begin with the code of its payload: no other encoding is accepted |
| Rlp.SplitIff | crates/mpt/src/mpt.rs:318-360 | a payload is split into items exactly when it is these items one after the other |
| Rlp.UintInjective | crates/mpt/src/mpt.rs:911-913 | different numbers are written as different values, so a slot determines its number |
| NodeCodec.LengthExact | crates/mpt/src/mpt.rs:299-303 | the computed length of a node is the number of bytes that encoding it writes |
| NodeCodec.InlinedIff | crates/mpt/src/mpt.rs:470-483 | a node is referred to by its own encoding exactly when that has fewer than 32 bytes, and by its hash exactly when it has 32 or more |
| NodeCodec.HashIsKeccak | crates/mpt/src/mpt.rs:435-447 | short or long, the hash of a node is the Keccak hash of its encoding; an empty trie is written as 0x80 |
| NodeRoundTrip.EncodedItems | crates/mpt/src/mpt.rs:264-297 | a leaf and an extension are lists of two items, a branch of seventeen with the last one empty; a child is the empty string, its own code below 32 bytes, or 0xa0 and its hash |
| NodeRoundTrip.DecodeShows | crates/mpt/src/mpt.rs:258-363 | what is decoded from the encoding of a node has every child below 32 bytes as its own encoding decodes, and every other as the hash of its encoding |
| NodeRoundTrip.DecodeIff | crates/mpt/src/mpt.rs:318-360 | bytes decode to a node exactly when they begin with a way to write it, which differs from the encoding only in unused bits of paths; or if there are none and the node is empty |
| NodeRoundTrip.DecodeEncode | crates/mpt/src/mpt.rs:258-363 | decoding the encoding of a node gives the node with every child of 32 bytes or more replaced by its hash |
| NodeRoundTrip.RoundTripHash | crates/mpt/src/mpt.rs:258-363 | so decoding what was encoded keeps the hash |
| NodeRoundTrip.SurfaceHash | crates/mpt/src/mpt.rs:435-483 | a node shown only by its surface has the same hash |
| NodeRoundTrip.EncodeInjective | crates/mpt/src/mpt.rs:264-297 | nodes with the same encoding have the same surface |
| Binding.MerkleBinding | crates/mpt/src/mpt.rs:435-565 | two tries with the same root hash and no colliding encodings agree, present or absent, on every key that both resolve |
| Binding.FullBinding | crates/mpt/src/mpt.rs:435-483 | two fully resolved tries with the same reference and no colliding encodings are the same trie |
| Binding.GetIsFind | crates/mpt/src/mpt.rs:536-565 | the lookup has the value of a present key, and none both for an absent key and at an unresolved node |
| Binding.HashHidesValue | crates/mpt/src/mpt.rs:515-522 | the comment that no value proves absence is wrong: the hash of a leaf has the root hash of the leaf, and no value for its key |
| TrieMap.InsertRefines | crates/mpt/src/mpt.rs:915-1030 | a successful insertion is the map update; it reports a change exactly when the key had another value or none, and else leaves the trie as it is |
| TrieMap.DeleteRefines | crates/mpt/src/mpt.rs:628-740 | a successful deletion is the map removal; it reports a change exactly when the key was present, and else leaves the trie as it is |
| TrieForm.InsertCanonical | crates/mpt/src/mpt.rs:915-1030 | insertion keeps the canonical form, never empties a trie, and keeps a branch a branch |
| TrieForm.DeleteCanonical | crates/mpt/src/mpt.rs:628-740 | deletion keeps the canonical form, and a branch never loses its last child, so the unwrap is safe |
| TrieForm.InsertOutcome | crates/mpt/src/mpt.rs:915-1030 | insertion fails exactly at an unresolved node, or when the key is absent and a prefix of an entry or extended by one |
| TrieForm.DeleteOutcome | crates/mpt/src/mpt.rs:628-740 | deletion fails exactly at an unresolved node, or when two entries part at the end of the key |
| TrieHistory.CanonicalUnique | crates/mpt/src/mpt.rs:628-1030 | two canonical tries with the same lookups, unresolved ones included, are structurally equal |
| TrieHistory.RunRefines | crates/mpt/src/mpt.rs:628-1030 | after a run of updates every key has what its last update gave it |
| TrieHistory.HistoryIndependent | crates/mpt/src/mpt.rs:1651-1687 | two runs that leave every key with the same value leave the same trie |
| TrieHistory.OrderIndependent | crates/mpt/src/mpt.rs:1651-1687 | updates of distinct keys give the same trie in every order |
| TrieHistory.DeleteUndoesInsert | crates/mpt/src/mpt.rs:1651-1687 | deleting a key that was just inserted restores the trie |
| TrieHistory.InsertUndoesDelete | crates/mpt/src/mpt.rs:1651-1687 | inserting a deleted value again restores the trie |
| TrieHistory.PrefixFree | crates/mpt/src/mpt.rs:915-1030 | no key of a trie is a proper prefix of another entry |
| TrieHistory.UniformUpdates | crates/mpt/src/mpt.rs:628-1030 | with keys of one length, updates fail exactly at unresolved nodes, and keys keep that length |
| MptNodes.MptNode.Clear | crates/mpt/src/mpt.rs:370-373 | the trie is empty and its cached reference is gone |
| MptNodes.MptNode.Reference | crates/mpt/src/mpt.rs:398-400 | the cached or newly computed reference is that of the current trie |
| MptNodes.MptNode.CalcReference | crates/mpt/src/mpt.rs:470-483 | an encoding below 32 bytes is its own reference, one of 32 bytes or more is referred to by its hash |
| MptNodes.MptNode.HashNode | crates/mpt/src/mpt.rs:435-447 | the hash from the cached reference, or the computed one, is the hash of the contents, in which a stub left by pruning may still stand for its short encoding; for every other node it is the Keccak hash of the encoding |
| MptNodes.MptNode.EncodeNode | crates/mpt/src/mpt.rs:264-297 | encoding with cached references of the children is encoding without them |
| MptNodes.MptNode.InsertInternal | crates/mpt/src/mpt.rs:915-1030 | the update in place is the insertion on values; a failure, or no change, leaves the trie as it is; caches stay right |
| MptNodes.MptNode.Insert | crates/mpt/src/mpt.rs:900-907 | the same for a key in bytes |
| MptNodes.MptNode.InsertRlp | crates/mpt/src/mpt.rs:911-913 | the same for an encoded value |
| MptNodes.MptNode.DeleteInternal | crates/mpt/src/mpt.rs:628-740 | the update in place is the deletion on values and creates no nodes; a failure, or no change, leaves the trie as it is; caches stay right |
| MptNodes.MptNode.Delete | crates/mpt/src/mpt.rs:624-626 | the same for a key in bytes |
| MptNodes.MptNode.CollapseInPlace | crates/mpt/src/mpt.rs:650-690 | a branch with one child left is merged with it, as on values |
| MptNodes.MptNode.GetInternal | crates/mpt/src/mpt.rs:536-565 | the lookup in place is the lookup on values |
| MptNodes.MptNode.GetInternalWithTouched | crates/mpt/src/mpt.rs:575-617 | the same value as the plain lookup, and the references of exactly the nodes on the path |
| MptNodes.MptNode.DeleteInternalWithTouched | crates/mpt/src/mpt.rs:749-864 | the same result and trie as the plain deletion, and the references of the path and of the child that a branch is merged with |
| Touched.PathRefsIff | crates/mpt/src/mpt.rs:575-617 | the references that a lookup reports are those of exactly the resolved nodes on the path of the key |
| Touched.DeleteRefsIff | crates/mpt/src/mpt.rs:749-864 | those that a deletion reports are those of exactly the resolved nodes on the path, and of the only neighbour left in the branch of a deleted leaf |
| MptNodes.MptNode.PruneUnmarkedNodes | crates/mpt/src/mpt.rs:866-892 | exactly what IsPruned says: leaves stay, marked branches and extensions stay with their children pruned, and every other node becomes the stub with its hash, whose cached reference is the encoding if that is below 32 bytes |
| MptRuns.RunInPlace | crates/mpt/src/mpt.rs:365-1034 | after any sequence of insertions, deletions, clearing, pruning and hashing the contents are those of the steps on values; without collisions, the cached hash is the hash of the trie written out and read back, which has no caches, exactly when the root is a stub or nothing below it is stale; so it is if no pruning cuts a short node of the trie as it stands |
| MptRuns.AfterStepsClean | crates/mpt/src/mpt.rs:365-1034 | a run in which no pruning cuts a short node leaves no stale reference |
| StaleHashes.TrueHashIff | crates/mpt/src/mpt.rs:435-483 | for every trie, however it was pruned: without collisions the cached hash is the hash without caches exactly when the root is a stub, or no stub below it keeps a short encoding in its cache |
| MptRuns.RunHashIff | crates/mpt/src/mpt.rs:365-1034 | so at the end of any run |
| MptRuns.PruningIff | crates/mpt/src/mpt.rs:866-892 | after any pruning in a run that holds exactly when the pruning cuts the root itself away, or no node with a short encoding, of the trie as it stands before it |
| MptRuns.StaleRun | crates/mpt/src/mpt.rs:866-892 | there is a run from the empty trie, two insertions of 32-byte keys and a pruning, after which the cached hash is not the hash without caches |
| MptNodes.MptNode.CloneNode | crates/mpt/src/lib.rs:124-124 | a copy has the same contents and shares no node |
| Traversal.ForEachLeaves | crates/mpt/src/mpt.rs:402-429 | the explicit stack empties, and the callback gets the leaves of the trie in the order of the visit |
| Traversal.VisitsExactlyTheMap | crates/mpt/src/mpt.rs:402-429 | the visit calls back exactly once for each resolved key and value, and for nothing else |
| Traversal.UniformFits | crates/mpt/src/mpt.rs:402-429 | with 32-byte keys all paths fit into 64 nibbles |
| Sparse.StandsRef | crates/mpt/src/mpt.rs:435-483 | a sparse trie that stands for another has the same reference |
| Sparse.InsertStands | crates/mpt/src/mpt.rs:915-1030 | inserting into both keeps a sparse trie standing for the other, and both report the same |
| Sparse.DeleteStands | crates/mpt/src/mpt.rs:628-740 | deleting a deletable key from both keeps a sparse trie standing for the other, also when a branch is merged |
| Sparse.RunStands | crates/mpt/src/mpt.rs:628-1030 | a run that meets no unresolved node on the sparse trie ends with the same root hash as on the trie it stands for |
| Touched.LookRecords | crates/mpt/src/mpt.rs:575-617 | the references of a lookup cover what later updates of that key need |
| Touched.DropRecords | crates/mpt/src/mpt.rs:749-864 | what later visits record in the trie after a deletion, with the references of the deletion, covers what the trie before it needs, also for nodes that were merged or moved |
| Pruning.CollectRecords | crates/mpt/src/lib.rs:144-224 | the references collected on a copy that the collection itself deletes from cover all visited keys of the original trie |
| Pruning.PruneKeepsRoot | crates/mpt/src/lib.rs:131-141 | pruning, whatever was marked, keeps the root hash while the caches live, so its assertions cannot fail |
| Pruning.PruneIsPruned | crates/mpt/src/mpt.rs:866-892 | the pruned trie is the one that IsPruned describes node by node: nothing unmarked but leaves is left, and nothing marked is lost |
| Pruning.PrunedIsPrune | crates/mpt/src/mpt.rs:866-892 | and there is only one such trie |
| Pruning.PruneBlocks | crates/mpt/src/mpt.rs:866-892 | a key is blocked in the pruned trie exactly when it was before or an unmarked node that is not a leaf lies on its path; every other key has the same lookup |
| Pruning.PruneKeepsVisited | crates/mpt/src/mpt.rs:866-892 | pruning by the references of visits keeps the answer of the lookup for every visited key, and blocks no visited key that was not blocked |
| Pruning.CutGetIff | crates/mpt/src/mpt.rs:536-565 | a trie of which any parts were cut away answers a key as the whole trie does exactly if its path is still resolved, or the key was absent |
| Pruning.PruneAdequate | crates/mpt/src/mpt.rs:749-892 | every announced run of updates that the whole trie takes, the pruned trie takes, with the same root hash at the end |
| Pruning.CutClean | crates/mpt/src/mpt.rs:866-892 | pruning leaves no stale reference exactly when it cuts no node with an encoding below 32 bytes, a condition on the trie and the marks before the pruning |
| Pruning.LongNodesSafe | crates/mpt/src/mpt.rs:866-892 | in a trie whose branches and extensions all have encodings of at least 32 bytes nothing short is cut, whatever is marked |
| Pruning.ReloadedRootIff | crates/mpt/src/mpt.rs:866-892 | after writing out and reading back, the root hash is right exactly when the root itself was cut away, or no node with a short encoding was |
| Pruning.ReloadedAdequate | crates/mpt/src/mpt.rs:749-892 | adequacy for the trie that was read back, when the marks cut no short node of the whole trie |
| ShortNodes.ShortNodeLost | crates/mpt/src/mpt.rs:871-876 | a short branch or extension that is cut away below a kept root changes what is written out |
| ShortNodes.ShortTrieLosesNode | crates/mpt/src/mpt.rs:871-876 | for example two 32-byte keys that part in the last nibble are inserted: pruned to the lookup of a key that leaves their common path, the trie loses its short branch when it is written out |
| HiddenSurvivor.HiddenSurvivorIff | crates/mpt/src/mpt.rs:628-740 | without colliding encodings, deleting a present key from any trie with hidden parts (nothing short is cut, the path of the key is kept) goes through, and gives the root hash of the deletion from the whole trie exactly when the node that takes the place of its branch, if there is one, is a branch or not hidden |
| HiddenSurvivor.HiddenLeafLost | crates/mpt/src/mpt.rs:680-688 | for example two 32-byte keys with different first nibbles: one is deleted while the leaf of the other is hidden, and the result is wrong |
| Resolving.MptFromProof | crates/mpt/src/mpt.rs:1174-1215 | the loop from the last node to the first stitches every node into the one before it, or reports where that fails |
| Resolving.AttachOutcome | crates/mpt/src/mpt.rs:1183-1208 | one step replaces the first child that is the hash of the next node, and fails when that node is below 32 bytes, its parent can have no children, or has no such child, each with its own index |
| Resolving.StitchFailure | crates/mpt/src/mpt.rs:1174-1215 | a proof that cannot be stitched fails with the error of the first such step from the end |
| Resolving.StitchKeepsRef | crates/mpt/src/mpt.rs:1174-1215 | a stitched proof has the reference and the hash of its first node |
| Resolving.ResolveKeepsRef | crates/mpt/src/mpt.rs:1227-1253 | resolving from a store that files nodes under their references keeps reference and hash |
| Resolving.ResolveTerminates | crates/mpt/src/mpt.rs:1227-1253 | resolving ends when the hashes can be ranked so that stored nodes refer downwards |
| Resolving.ResolveMonotone | crates/mpt/src/mpt.rs:1227-1253 | with more fuel the result is the same, so the bound does not matter once it is enough |
| Resolving.ResolveUncovers | crates/mpt/src/mpt.rs:1227-1253 | from nodes of one full trie, exactly the stored nodes are uncovered |
| Orphans.FiledGenuine | crates/mpt/src/mpt.rs:1302-1304 | without collisions, what is filed under the reference of a node is that node |
| Orphans.LastFiled | crates/mpt/src/mpt.rs:1384-1386 | of several nodes with one reference the last one is filed |
| Orphans.ProofsAnswer | crates/mpt/src/mpt.rs:1281-1355 | the trie resolved from proofs of a full trie has its root and its answer for every proven key |
| Orphans.ShortenNodePath | crates/mpt/src/mpt.rs:1259-1279 | the list of all versions of a leaf or extension with a shorter path |
| Orphans.EndsAtSurvivor | crates/mpt/src/mpt.rs:650-690 | the path of a deleted key ends, after the deletion, at the merged survivor with a longer path |
| Orphans.SurvivorVisible | crates/mpt/src/mpt.rs:1255-1279 | the shortenings of the last node of the new proof show the survivor, unless it is a branch |
| Orphans.OrphanRecovery | crates/mpt/src/mpt.rs:1357-1462 | the trie resolved from the old proof of a key and those shortenings has the old root, accepts the deletion, and then has the new root |
| Exclusion.IsNotIncluded | crates/mpt/src/mpt.rs:1218-1224 | on the proof of a key of any trie: absent exactly when the trie has no value for the key, or has an equal sub-trie in an earlier slot of a branch on its path |
| Exclusion.AddOrphanedLeafs | crates/mpt/src/mpt.rs:1445-1462 | files the shortenings of the last node exactly when the proof shows that the key is gone |
| Exclusion.ProofStitches | crates/mpt/src/mpt.rs:1174-1215 | the proof of a key, made from one trie, always fits together |
| Exclusion.ExclusionProved | crates/mpt/src/mpt.rs:1217-1224 | the proof of an absent key shows its absence; the proof of a present key shows its presence exactly when no branch on its path has an equal sub-trie in an earlier slot |
| Exclusion.TwinHidesKey | crates/mpt/src/mpt.rs:1185-1190 | for example two 32-byte keys that differ only in the first nibble, with one long value: the proof of the second is taken for a proof of its absence |
| Exclusion.DeletionFilesOrphans | crates/mpt/src/mpt.rs:1445-1462 | after a deletion, the new proof of the deleted key leads to exactly the shortenings that the deletion needs |
| ProofTries.BuildTrie | crates/mpt/src/mpt.rs:1384-1432 | one trie from the old proofs and the orphans of the new ones, with the root that was asked for; only if every proof can be stitched |
| ProofTries.RootNodeIs | crates/mpt/src/mpt.rs:1376-1382 | the root is the first node of the last proof that has nodes |
| LoneNodes.EndsAtLone | crates/mpt/src/mpt.rs:1255-1279 | when all that a trie has left behind a place is one leaf or extension, the path of every other key through that place ends at that node, whose path only got longer |
| LoneNodes.DeletableStands | crates/mpt/src/mpt.rs:1357-1462 | a sparse trie that hides nothing that was filed, where the final proofs of all deleted keys were filed, stands for the whole trie under the deletion of any of them |
| SparseRuns.CoversRun | crates/mpt/src/mpt.rs:628-1030 | a run that goes through on the whole trie goes through, in that order, on a sparse trie that shows its keys, also when deletions merge hidden nodes on the way |
| Transitions.ProofsRecover | crates/mpt/src/mpt.rs:1281-1355 | from proofs of some keys of a full trie the trie is built, and answers every proven key as the full trie does |
| Transitions.TransitionRecovers | crates/mpt/src/mpt.rs:1357-1442 | without colliding encodings: from proofs, in a full trie, of the distinct keys of a run of insertions and deletions, and of the deleted keys after it, the trie is built, answers every proven key, takes the whole run in its order, and then has the new root |
| StateProofs.BuildState | crates/mpt/src/mpt.rs:1357-1442 | whatever is built from the proofs of accounts and slots has the roots that were asked for; from genuine proofs of two states the state is built, and is the full state before as far as the proofs show it |
| StateProofs.NodeOfDigest | crates/mpt/src/mpt.rs:1465-1470 | the hash of the empty trie and the zero word stand for an empty trie, any other for itself |
| StateTransitions.AccountAnswered | crates/mpt/src/mpt.rs:1357-1442 | it answers every proven account as the full state does |
| StateTransitions.SlotAnsweredInState | crates/mpt/src/mpt.rs:1357-1442 | and every proven slot |
| StateTransitions.UpdateKeepsComplete | crates/mpt/src/lib.rs:66-107 | changes keep a full state full, if its tries can be written out |
| StateTransitions.StateTransitionRecovers | crates/executor/host/src/subblock/basic.rs:247-320 | without colliding encodings: from genuine proofs, before a block and after it, of everything that the block touches, the state that is built is clean, takes the changes of the block, and then has the state root that the full state has after the block, in whatever orders the changes are applied to the two |
| WitnessTries.IndexNodes | crates/mpt/src/execution_witness.rs:16-33 | all nodes by the hash of their bytes and by reference, and the root node; fails exactly on a node that does not decode |
| WitnessTries.PackKeyForm | crates/mpt/src/mpt.rs:402-429 | the key that a leaf is reported with has two nibbles to the byte, and an odd last nibble in the higher half |
| WitnessTries.BuildStorages | crates/mpt/src/execution_witness.rs:45-66 | a storage trie for every account whose root node is there, and for no other; fails exactly on a root that cannot be resolved |
| WitnessTries.ValidateStorages | crates/mpt/src/execution_witness.rs:85-106 | accepts exactly when every storage trie has an account that decodes, and the root that it names |
| WitnessTries.BuildValidatedTries | crates/mpt/src/execution_witness.rs:12-75 | whatever is built is validated; from a genuine witness the tries are built, and are the full state as far as the witness shows it |
| WitnessTries.RebuiltAnswers | crates/mpt/src/execution_witness.rs:35-66 | a trie from a genuine witness answers every key whose proof is in the witness as the full trie does |
| WitnessDb.OpenWitness | crates/executor/client/src/io.rs:389-431 | accepts exactly when the state has the root of the first ancestor, every storage trie the root that its account names, or the empty one if there is no account, and the headers are a chain; gives the block hashes and the codes by their hashes |
| WitnessDb.CodeFound | crates/executor/client/src/io.rs:406-407 | without collisions every code is found under its hash |
| WitnessDb.WitnessesAgree | crates/executor/client/src/io.rs:389-431 | two witnesses accepted for the same headers, without collisions, agree on every account and slot that both resolve |
| WitnessDb.WitnessesReadAlike | crates/executor/client/src/io.rs:293-325 | and the lookup of the client gives the same from both exactly where both resolve the key, or neither has a value |
| WitnessDb.BareRootConforms | crates/executor/client/src/io.rs:389-431 | for example the bare state root is accepted whenever some state is, and has no account |
| StateMap.AccountRoundTrip | crates/mpt/src/lib.rs:94-100 | an encoded account decodes to its four fields, with the storage root |
| StateMap.AccountItems | crates/mpt/src/lib.rs:94-100 | the code of an account is the list of nonce, balance, storage root and code hash, in this order |
| StateMap.DecodeAccountIff | crates/mpt/src/lib.rs:94-100 | bytes decode to an account exactly when they begin with its code, and nonce and balance have at most 8 and 32 bytes |
| StateMap.AppliedTaken | crates/mpt/src/lib.rs:66-107 | what applying changes means, by lookups: a removed account is missing, a changed one is found with its fields, its storage root and its slots, and all others are as before |
| StateMap.UpdateDetermined | crates/mpt/src/lib.rs:66-107 | applying the same changes in whatever order of accounts and slots gives the same state |
| StateMap.UpdateKeepsLinks | crates/mpt/src/lib.rs:66-107 | applying changes keeps every account that has a storage trie linked to its root |
| StateMap.MissingTrieIff | crates/mpt/src/lib.rs:76-76 | starting a missing storage trie as empty is right exactly when the storage is wiped or all its slots are overwritten |
| StateMap.MissingTrieWrong | crates/mpt/src/lib.rs:76-76 | for example a missing trie with one slot while another slot is changed: the right trie has both slots, the other one only the changed one |
| EthereumStates.UpdateStorage | crates/mpt/src/lib.rs:75-92 | the slots of one account, by lookups: after it a zero slot is missing, any other is found with its value, and every other path is as before, or missing if the storage is wiped; fails exactly at an unresolved node |
| EthereumStates.EthereumState.Update | crates/mpt/src/lib.rs:66-107 | goes through exactly when no changed key meets an unresolved node, and then exactly the changes are taken: by lookups, removed accounts are missing, changed ones have their fields, storage root and slots, and all others are as before |
| EthereumStates.EthereumState.StateRoot | crates/mpt/src/lib.rs:110-112 | the hash of the state trie, computed without changing the state |
| EthereumStates.EthereumState.GetTouchedNodes | crates/mpt/src/lib.rs:144-224 | collects the references for all changed and touched keys and for no other: removed accounts and zero slots of changed accounts are deleted, the others looked up; fails exactly when a deletion meets an unresolved node |
| StateTouching.CollectedIff | crates/mpt/src/lib.rs:144-224 | what is collected is exactly what each lookup or deletion reports, on the trie that those before it have left |
| EthereumStates.EthereumState.PruneTo | crates/mpt/src/lib.rs:118-142 | prunes every trie by the collected references; on a state that was not pruned before, no assertion fails |
| EthereumStates.EthereumState.CloneState | crates/mpt/src/lib.rs:124-124 | a copy of the state that shares no node with it |
| StatePruning.StorageRootsAgree | crates/mpt/src/lib.rs:66-224 | a storage trie and its pruned version have the same root after the same changes |
| StatePruning.PrunedResolvable | crates/mpt/src/lib.rs:66-224 | the pruned state takes all changes that the whole state takes |
| StatePruning.PrunedStateAdequate | crates/mpt/src/lib.rs:66-224 | if the touched state covers the changed accounts, the same changes, applied in any orders, give the same state root on the pruned and on the whole state |
| Witnesses.ThreadDiffs | crates/executor/host/src/subblock/basic.rs:370-438 | every subblock gets a witness pruned from the state before it, and the state takes its changes; the loop stops only at changes that meet an unresolved node |
| Witnesses.NextSubblock | crates/executor/host/src/subblock/basic.rs:372-438 | one turn of the loop: the witness, the roots, and the state after it, by lookups: a removed account is gone, one with a nonce, a balance or code is there with its storage root and slots, one without any of these is left as it was |
| Witnesses.StepsTaken | crates/executor/host/src/subblock/basic.rs:424-431 | so for every subblock of the whole run |
| Witnesses.UpdateKeepsClean | crates/mpt/src/lib.rs:66-107 | applying changes leaves no stale reference, so the next pruning starts from a clean state |
| Witnesses.CleanPruned | crates/mpt/src/lib.rs:118-142 | a pruned state has no stale reference exactly when the marks cut no short node of any trie of the big state |
| Witnesses.LongStateSafe | crates/mpt/src/lib.rs:118-142 | from a state whose branches and extensions all have encodings of at least 32 bytes nothing short is cut |
| Witnesses.WitnessSuffices | crates/executor/host/src/subblock/basic.rs:370-438 | when the marks cut no short node of the big state, the witness that is read back has the root before the subblock, and its changes lead to the root after it |
| Witnesses.WitnessAnswers | crates/executor/host/src/subblock/basic.rs:370-438 | under the same condition the witness that is read back answers every touched address and slot as the big state does |
| Witnesses.WitnessHides | crates/executor/host/src/subblock/basic.rs:398-413 | and it shows no more: a path is blocked exactly when it was before or at the first unmarked node on it that is not a leaf |
| Witnesses.ReplaysChain | crates/executor/host/src/subblock/basic.rs:370-438 | over the whole run, under that condition, every replayed subblock starts with the root that the one before it ended with, and ends with the announced root |
| SubblockRuns.AccrueBloom | crates/executor/client/src/lib.rs:236-242 | a bit is set exactly when it is set in the bloom of some receipt |
| SubblockRuns.FinishSubblock | crates/executor/client/src/lib.rs:209-262 | the output has the roots before and after the changes, the bloom, receipts and requests; by lookups, a removed account is gone, one with a nonce, a balance or code is there with its storage root and slots, one without any of these is left as it was; fails exactly at an unresolved node |
| SubblockRuns.RunProgram | crates/executor/client/src/io.rs:293-325 | the database answers a deterministic program from the tries as the lookups on values do; it panics exactly on a slot of an account without a storage trie |
| SubblockRuns.AnswerInPlace | crates/executor/client/src/io.rs:293-325 | an account and a slot are answered by the lookup in their tries; a slot without a storage trie is the panic |
| SubblockRuns.ExecutesAlike | crates/executor/client/src/lib.rs:200-228 | a program that asks only for touched accounts and slots runs on the witness as it does on the big state |
| SubblockRuns.ReplaySubblock | crates/executor/client/src/io.rs:225-253 | on the witness that the host made, the program that gave the host its changes runs alike, the witness takes the changes, and the roots are those that the host announced |
| GasSplit.ComputeSubblockGasLimits | crates/executor/host/src/subblock/mod.rs:46-118 | for positive gas that adds up and does not overflow: no assertion fails, there are at most `count` limits, all positive and adding up to the total; each is the gas of a consecutive run of transactions, which ends exactly by the greedy rule, and is one transaction, at most one and a half shares, or less than a share and the first transaction; otherwise, what is returned adds up to the total in 64 bits |
| GasSplit.GreedyUnique | crates/executor/host/src/subblock/mod.rs:71-101 | the greedy rule leaves no choice, so the limits are determined |
| GasSplit.NextTransaction | crates/executor/host/src/subblock/mod.rs:71-96 | one turn of the loop keeps the invariant and its assertion holds |
| GasSplit.PushesBounded | crates/executor/host/src/subblock/mod.rs:57-101 | after so many pushes the gas passed as many shares, so there are fewer pushes than subblocks |
| GasSplit.ClosedPiece | crates/executor/host/src/subblock/mod.rs:71-101 | a closed piece is one transaction, at most one and a half shares, or less than a share and its first transaction |
| GasSplit.LimitsAddUp | crates/executor/host/src/subblock/mod.rs:103-108 | the limits of a cut add up to the gas of the transactions |
| Subblocks.TransactAppend | crates/executor/client/src/lib.rs:200-266 | executing a list is executing a part of it and then the rest from where that ended |
| HostLoop.TakesPrefix | crates/executor/host/src/subblock/basic.rs:120-150 | what is executed up to a gas limit is a run of a prefix of the transactions |
| HostLoop.TakesLongest | crates/executor/host/src/subblock/basic.rs:120-150 | one transaction more would go past the limit |
| HostLoop.TakesUpToLimit | crates/executor/host/src/subblock/basic.rs:120-150 | with a limit that is the gas after some transactions, exactly those are executed |
| HostLoop.ExecuteSubblocks | crates/executor/host/src/subblock/basic.rs:114-231 | with limits made from the gas of the transactions the loop runs once per limit with the index in bounds, the slices make up the block, only the first and the last carry their flags, and the starting gas is the last cumulative gas |
| HostOutput.SplitAndExecute | crates/executor/host/src/subblock/basic.rs:106-231 | splitting and executing a regular block gives at most `count` subblocks, as planned |
| HostOutput.OutputBinds | crates/executor/host/src/subblock/basic.rs:114-231 | every subblock of the host is genuine and starts in the state in which the one before it ended |
| HostOutput.OutputFits | crates/executor/host/src/subblock/basic.rs:114-231 | the subblocks of the host pass all per-subblock checks of the aggregator |
| HostOutput.HostOutputAccepted | crates/executor/client/src/lib.rs:274-437 | the aggregator accepts what the host produces for every valid block |
| Aggregation.CumulativeOutput.Extend | crates/executor/client/src/io.rs:150-161 | adds an output if its input root is the current output root, and else leaves everything as it is |
| Aggregation.CumulativeOutput.Merge | crates/executor/client/src/io.rs:165-207 | merges the requests and changes nothing else |
| Aggregation.CheckSubblock | crates/executor/client/src/lib.rs:298-346 | passes exactly when hashes, starting gas, flags and block parts are as they must be |
| Aggregation.CheckHeaders | crates/executor/client/src/lib.rs:369-382 | passes exactly when the headers are a chain, and gives its hashes, which ChainHashes describes |
| Aggregation.ChainHashes | crates/executor/client/src/lib.rs:369-382 | the hashes of a chain are each ancestor's hash under its number, which is the parent hash in the header after it, and no others |
| Aggregation.ChainedIff | crates/executor/client/src/lib.rs:369-382 | headers are a chain exactly when every ancestor has the number before, and the hash named in, the header after it |
| Aggregation.AcceptedPlace | crates/executor/client/src/lib.rs:298-346 | an accepted subblock has the parts of the block, starts with the root and the gas that the one before it ended with, and has the flags of its place |
| Aggregation.ExecuteAggregation | crates/executor/client/src/lib.rs:274-437 | succeeds exactly when all checks hold; then the header has the hash of the parent, the roots of the ommers, transactions and withdrawals of the body, and else the fields of the block's header, and is that header exactly when its own roots are those of the body |
| AggregationMeaning.RunSoFar | crates/executor/client/src/lib.rs:285-364 | if roots bind the states that follow each other (RootsBind), the first subblocks of an accepted aggregation are one run of the machine |
| AggregationMeaning.AggregationPreservesMeaning | crates/executor/client/src/lib.rs:274-437 | genuine public values whose flags fit, where roots bind the states that follow each other (RootsBind), once accepted, mean one run over the whole block from the parent state to the header's state root, with its bloom, the concatenated receipts, and requests that satisfy the rules |
| StateBinding.TidyAggregation | crates/executor/client/src/lib.rs:274-437 | RootsBind holds, and so acceptance means one run, if every state involved is complete and has exactly the storage tries of its accounts, each with the root that its account names, and no encodings collide |
| StateBinding.UncheckedStorage | crates/executor/client/src/lib.rs:190-228 | a subblock is run on its state without the check of the storage roots, so its root does not bind the storage: two states with one root on which a program runs differently |
| StateBinding.SameRootRunsAlike | crates/executor/client/src/io.rs:389-404 | with that check the root determines the run of every program, as far as both states resolve what it asks |
| StateBinding.RunAlikeIff | crates/executor/client/src/io.rs:397-404 | the check is exactly what is needed: of two complete states with one root, of which the first passes it, all programs run alike exactly when the second passes it too and has storage tries for the same accounts |
| AggregationFlags.FlagsSuffice | crates/executor/client/src/lib.rs:317-327 | flags that fit guarantee, for machines with any kind of states, that sound aggregations (genuine values, RootsBind, accepted) mean what they should |
| AggregationFlags.FlagsDecide | crates/executor/client/src/lib.rs:317-327 | of the flags that the checks let through, exactly those that fit guarantee that; the others fail already for machines whose states are their own roots, where RootsBind holds trivially |
| Requests.MergeRequests | crates/executor/client/src/io.rs:165-207 | at least two requests become one per type in order of first appearance, holding each distinct record of the type once in order of first occurrence; fewer stay as they are; the loops fail exactly on a request of unknown type without data among at least two |
| Requests.WholeMergeIs | crates/executor/client/src/io.rs:165-207 | requests that hold records of 192, 76 or 116 bytes for deposits, withdrawals and consolidations become one per type in order of first appearance, with the distinct records of the type in order of first occurrence |
| Requests.OddDataIsOneRecord | crates/executor/client/src/io.rs:176-186 | data that is not a whole number of records, or of an unknown type, counts as one record |
| Requests.MergePanicsIff | crates/executor/client/src/io.rs:176-186 | merging panics exactly on a request of unknown type without data, among at least two |
| Requests.MergedContents | crates/executor/client/src/io.rs:165-207 | when every type has one distinct record or only records of its size, the merged requests read back as the types in order of first appearance and, for each type, its distinct records in order of first occurrence |
| Requests.FirstAppearances | crates/executor/client/src/io.rs:165-207 | the order is that of first appearance |
| Requests.MergeEarlyIff | crates/executor/client/src/io.rs:165-207 | merging some requests early is safe, whatever follows, exactly when they are at most one, or have a type and each of their types has one distinct record or only records of its size |
| Requests.MergeEarly | crates/executor/client/src/io.rs:165-207 | merging such requests early does not change the merge of all of them |
| Requests.MergeEarlyPanics | crates/executor/client/src/io.rs:176-184 | and it panics exactly when merging late does |
| Requests.MergeIdempotent | crates/executor/client/src/io.rs:165-207 | merging such requests twice is merging once |
| Requests.WholeMerges | crates/executor/client/src/io.rs:165-207 | whole requests of known types are such, stay so when merged, and may be merged early and again |
| Requests.UnknownTypeMergesDifferently | crates/executor/client/src/io.rs:176-184 | two different requests of one unknown type are not: for some that follow, merging early gives another result |

## Left out

- Execution of the EVM, precompiles, sender recovery, and the consensus rules: an abstract machine, a deterministic program of lookups, and an abstract predicate on header, receipts and requests stand for them. That the program asks only for touched accounts and slots is assumed, since the host records what it touches while it runs. Grouping of deposit requests inside one subblock's run is part of that machine.
- The executor's own handling of the subblock gas limit: it is taken to run the longest prefix of the remaining transactions within the limit, and to end the block when none is left.
- Fetching over RPC, retries, caches on disk, the command line, logging and timing.
- `rpc-db`: a layered map over remote calls.
- `crates/executor/host/src/subblock/execution_witness.rs`: the same loops as in `basic.rs`, which are modelled.
- Proof verification in the zkVM, rkyv, serde, bincode and SHA-256: public values are taken as decoded pairs, and a witness that was written and read back is the trie without residues.
- The RLP crate: encoding and decoding follow Appendix B of the Ethereum Yellow Paper. Decoding drops what the encoding of a path leaves unused in its first byte.
- `debug_rlp`, `size`, and accessors of header fields.
- `merge_state_requests` and the derived header check of the host: they would add easy members.
- The loop over addresses in `proofs_to_tries`: that of `transition_proofs_to_tries`, which does more, is modelled, with the proofs filed by hashed address. The recovery theorems take updates of distinct keys, as a hash map holds them.
- Resolving.Resolve: bounded by fuel, because the recursion of the source has no bound; `ResolveTerminates` and the depth of the full trie say how much fuel is enough.
- MptNodes.MptNode.Delete: requires that no branch on the path loses its last child, where the source panics; `TrieForm.DeleteCanonical` proves that this never happens on a canonical trie.
- MptNodes.MptNode.Insert: requires a value that is not empty, where the source panics.
- Traversal.ForEachLeaves: works on the trie as a value, since it only reads; requires paths within the source's limit of 64 nibbles, where the source panics.
- WitnessDb.OpenWitness: works on the state as a value, since it only reads.
- EthereumStates.EthereumState.Update: iterates in an arbitrary order where the source's order is that of its hash maps; requires canonical tries with 32-byte keys.
- HostOutput.SplitAndExecute: state roots and block hashes are filled in by a function from the machine's states; that the tries give these roots is proved separately in `Witnesses`.
