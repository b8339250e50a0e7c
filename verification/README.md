# ChainLab verification

A Dafny 4.11 model of the consensus-critical parts of ChainLab, with proofs about
whole runs of them. `dafny verify dfyconfig.toml` checks the project.

The modules, and what they are about:

- `Finality`, `FinalityLive`, `FinalityFaults`, `FinalityNode`: the block tree, fork
  choice under the finality lock, votes, certificates, block production, and the rollback
  of every step that cannot be stored. `Finality` says what one call does and what every
  run keeps; `FinalityLive` says which blocks and votes are accepted, in terms of parent
  links and voter sets, and that enough votes finalise; `FinalityFaults` says which faults
  halt a node; `FinalityNode` is the node that does it step by step.
- `TxPool`, `TxPoolNode`: the pending list, the queue of future nonces, promotion,
  replacement, revalidation on a new head.
- `Leb`, `WasmScanner`, `CallGraph`, `WasmPolicy`: admission of WebAssembly code,
  from LEB128 bytes to the verdict on the direct-call graph.
- `FlatState`, `Snapshots`, `VersionedStore`, `StateHistory`, `StoreRules`, `SparseTree`, `FlatTree`:
  application state as a flat map, its journal, its history on disk, what a node reads
  back from it over whole runs, and its authenticated tree.
- `Lifecycle`, `ValidatorSets`, `EvidenceRules`, `EvidenceStore`: evidence, slashing, scheduled
  removals and admissions, and the validator sets the consensus engine ends up with.
- `Signer`: the private validator's last-sign state across failed writes and restarts.
- `Recovery`, `RecoveryRules`, `RecoveryAccount`: guardian recovery and session keys of a smart account.
- `Executor`, `ExecutorRules`, `Proposal`, `BlockExecution`, `FeeMarket`: one transaction with its fee
  escrow, building and checking a block, what a block does to the value in the store,
  and the base fee.
- `Arithmetic`, `Sums`, `Wrappers`: shared lemmas and the option type.

Code that changes state step by step is a class or a method with loops, proved
against a function of the old state; what the code promises is then proved of that
function over all inputs or all runs. The modules whose names end in `Rules` state, in
terms of the values before a call, when each operation succeeds and what it leaves,
entry by entry. Calls into foreign code are inputs: a batch commits or not, a signature
is valid or not, a contract run charges some gas and ends in some way, a file is renamed
or not. Hashes and encodings are injective on
the values in use, so the model keeps the values. Addresses, hashes and keys are
numbers or strings without structure.

Three properties do not hold of the code as it stands. Each has a concrete case
and the exact condition under which it does hold:

- Valid evidence can make a block fail. When a validator already leaves less than
  two blocks ahead, a further offence of it is recorded with that removal height,
  and the stored ledger is then refused (`ValidatorSets.LateEvidenceExample`,
  `ValidatorSets.EvidenceAppliesIff`).
- A storage write for an account that does not exist yet marks the slot but not the
  new account, so the journal misses an entry (`Snapshots.StorageForNewAccountIsLost`,
  `Snapshots.Store.SetStorage`). Such a block is stored, cannot be read back, and stops
  the process from starting (`StateHistory.UnjournaledBlockIsUnreadable`); a block reads
  back exactly when its journal is complete (`StateHistory.CommitReadsBackIff`). This is
  a fact about the store's interface. The executor does not get there: it raises the
  sender's nonce, and a deployment sets the contract's code, before any slot of that
  account is written (`internal/core/executor.go:83-86`, `internal/contracts/runtime.go:172`),
  and both mark the account (`Snapshots.Store.IncrementNonce`, `Snapshots.Store.SetCodeID`).
- If the state file is renamed but its directory cannot be synced, a restart may read
  a sign state that a later power loss takes away again, and one step is signed twice
  (`Signer.DoubleSignExample`). Signing stays safe exactly when no restart takes over a
  state whose write was reported as failed while the old file could still come back
  (`Signer.RunIsSafe`, `Signer.UnstableRestartIsUnsafe`, `Signer.RevertIff`). For an
  operator: do not restart between a rename whose directory was not synced and the next
  durable write (`Signer.QuietRunIsStable`).

## Model

| member | source | states |
|---|---|---|
| Finality.FinalityIsForever | internal/node/node.go:896-1478 | At the end of every run of imports, votes and produced blocks, with any persistence failures, the canonical chain contains the old lock and every block that was certified at the start, and the new lock descends from the old one |
| Finality.RunProgresses | internal/node/node.go:896-1478 | Over a whole run the block tree only grows, each new lock descends from the old one, and a halted node never changes again |
| Finality.StepIsSafe | internal/node/node.go:644-1478 | One import, vote or production, accepted, refused or rolled back, keeps the invariant: the canonical chain is the path to the highest known descendant of the lock, certified blocks lie at or below the lock, vote records and counters are exact |
| Finality.GenesisIsSafe | internal/node/node.go:323-333 | The state a node starts with satisfies the invariant |
| Finality.ImportIsSafe | internal/node/node.go:896-1076 | Every import, whatever stage fails, keeps the invariant and moves the lock only to a descendant |
| Finality.ImportCommitsOrStays | internal/node/node.go:978-1076 | An import either commits the whole candidate or leaves everything but the halt flag as it was |
| Finality.CommitKeepsInv | internal/node/node.go:1021-1076 | Installing a block that is compatible with the lock keeps every part of the invariant at once |
| Finality.ChainMoves | internal/node/node.go:1034-1061 | The chain chosen after an import is the path to its head and contains the lock |
| Finality.CertificatesStayBelow | internal/node/node.go:1326-1346 | After a certified block is accepted every certified block is the new lock or an ancestor of it |
| Finality.HeadStaysHighest | internal/node/node.go:1271-1289 | The head stays the highest known descendant of the lock, with the source's tie-break |
| Finality.VoteIsSafe | internal/node/node.go:1370-1478 | Every vote, counted, refused, equivocating or rolled back, keeps the invariant and moves the lock only to a descendant |
| Finality.VoteNeverConflicts | internal/node/node.go:1462-1465 | A canonical block is always compatible with the lock, so the conflict branch of a vote is unreachable |
| Finality.TallyCertifies | internal/node/node.go:1424-1461 | A tally that reaches the quorum size is a certificate of more than two thirds of the validators of that block |
| Finality.ProduceIsSafe | internal/node/node.go:644-814 | Producing a block, stored or rolled back, keeps the invariant |
| Finality.ProducedBlockIsNew | internal/node/node.go:644-814 | A produced block is never already known, so deleting it on rollback restores the tree exactly |
| Finality.ConflictingCertificateHalts | internal/node/node.go:1006-1020 | A certificate whose import is found off the locked branch changes nothing but halts the node, and no later call changes anything; FinalityLive.CertifiedImport says which certificates these are |
| Finality.ForkNeedsEquivocation | internal/consensus/poa.go:218-258 | If two nodes hold certificates for two children of one block, more than a third of that block's validators signed both |
| Finality.QuorumsIntersect | internal/consensus/poa.go:218-258 | Two certificates over one validator set share more than a third of it |
| Finality.QuorumSizeMeetsRule | internal/consensus/poa.go:108-113 | Counting to the quorum size is the same as holding more than two thirds, for every number of validators |
| FinalityLive.DescendsIff | internal/node/node.go:1237-1249 | Descending from a known block is the same as having a path of parent links down to it |
| FinalityLive.CompatibleIff | internal/node/node.go:1006-1020 | A block passes the lock test exactly when a path of parent links joins it and the locked block, in either direction |
| FinalityLive.CertifiedImport | internal/node/node.go:896-1076 | A valid child of a known block with a certificate of more than two thirds of its validators: off the locked branch it changes nothing, halts the node and every later call is refused; on the branch it is accepted, known, its signers are counted, the lock is at it or above it on the same branch, and the chain contains it |
| FinalityLive.CertifiedOnlyIf | internal/node/node.go:896-1076 | A certified block is accepted only if every check passed, its certificate holds and it lies on the locked branch; a refusal changes at most the halt flag |
| FinalityLive.PlainImport | internal/node/node.go:896-1076 | A block without a certificate is accepted exactly when the node runs, every check passes, it is a valid child within the side-fork and height limits, and the locked branch contains it; it moves the head exactly when it is higher, and a refusal changes at most the halt flag |
| FinalityLive.HeadRule | internal/node/node.go:1034-1061 | After an accepted block the head stays if it still descends from the lock and the block is not higher; if it no longer descends, the new head is the best descendant of the lock |
| FinalityLive.ProduceOutcome | internal/node/node.go:644-814 | Production succeeds exactly when the node runs and execution, validation and storage do, and appends one new block on the head; otherwise it changes at most the halt flag |
| FinalityLive.VoteOutcome | internal/node/node.go:1370-1478 | A vote for a canonical block by one of its validators is accepted exactly when it is that validator's first at the height or repeats it, and is stored; it keeps the earlier voters, adds this one, and certifies and locks the block exactly when the voters are more than two thirds; a vote for another block is recorded as proof of equivocation |
| FinalityLive.RunAgrees | internal/node/node.go:896-1478 | Over every run the counted voters, the first votes and the proofs agree with each other, and no first vote or proof is ever lost or changed |
| FinalityLive.GenesisAgrees | internal/node/node.go:323-333 | The state a node starts with satisfies that agreement |
| FinalityLive.EquivocationIsProved | internal/node/node.go:1927-1966 | A validator counted for two known blocks of one height has a proof with two different blocks |
| FinalityLive.VoteIsCounted | internal/node/node.go:1370-1478 | A vote accepted anywhere in a run is counted at the end of it |
| FinalityLive.VotesFinalise | internal/node/node.go:1370-1478 | If more than two thirds of the validators of a block had votes for it accepted at any points of a run, then at its end the block is certified, the lock is at it or higher, and the canonical chain contains it |
| FinalityFaults.ImportHalts | internal/node/node.go:896-1076 | An import halts a running node exactly when the parent's replay or the execution fails for good, a certificate lies off the locked branch, recording it fails for good, the new head cannot be prepared for good, or it is unknown whether the block was stored |
| FinalityFaults.VoteHalts | internal/node/node.go:1370-1478 | A vote halts a running node exactly when the parent's replay fails for good, a second vote cannot be punished for the first time, or it is unknown whether the vote was stored |
| FinalityFaults.ProduceHalts | internal/node/node.go:644-814 | Production halts a running node exactly when execution fails for good or it is unknown whether the block was stored |
| FinalityNode.KnownBlockDescendsFrom | internal/node/node.go:1237-1249 | The parent walk decides exactly whether a known block descends from the lock |
| FinalityNode.KnownChain | internal/node/node.go:2248-2267 | The walk back from a known block yields the chain from genesis to it |
| FinalityNode.HighestKnownDescendant | internal/node/node.go:1271-1289 | The scan over all known blocks, in any order, finds the unique best descendant, keeping the current head on a tie |
| FinalityNode.Node.constructor | internal/node/node.go:323-333 | A fresh node is the genesis state of the specification |
| FinalityNode.Node.ImportBlock | internal/node/node.go:896-1076 | The import step by step computes exactly the state and outcome of Finality.Import, which FinalityLive.CertifiedImport, CertifiedOnlyIf and PlainImport decide for every block |
| FinalityNode.Node.CheckImport | internal/node/node.go:896-976 | The checks before anything changes give exactly the verdict whose meaning FinalityLive.CertifiedImport, CertifiedOnlyIf and PlainImport state |
| FinalityNode.Node.InstallCandidate | internal/node/node.go:978-1076 | Staging, head choice, persistence and every rollback together give exactly the specified state |
| FinalityNode.Node.StageBlock | internal/node/node.go:978-1032 | Tree, height counts, lock, votes and evidence after staging |
| FinalityNode.Node.RollBack | internal/node/node.go:990-1005 | Undoing a staged block restores tree, counters, lock and vote records exactly, including removal of a counter that drops to zero |
| FinalityNode.Node.RecordCertificate | internal/node/node.go:1326-1346 | Recording all signers one by one equals indexing the set of them, in any order |
| FinalityNode.Node.RecordVote | internal/node/node.go:1927-1966 | A first vote is indexed; a second vote for another block becomes evidence, once |
| FinalityNode.Node.SubmitFinalityVote | internal/node/node.go:1370-1478 | The vote step by step computes exactly the state and outcome that FinalityLive.VoteOutcome decides for every vote, and never the safety violation |
| FinalityNode.Node.Certify | internal/node/node.go:1445-1478 | Certification of a canonical block with restoration of tree and lock on failure |
| FinalityNode.Node.ProduceBlock | internal/node/node.go:644-814 | Production step by step computes exactly the state and outcome that FinalityLive.ProduceOutcome decides |
| CallGraph.ValidateDirectCallGraph | internal/contracts/wasm_call_depth.go:95-167 | The search terminates and accepts exactly the graphs that are acyclic and whose call paths have at most 64 functions; each refusal names a true cause |
| CallGraph.Explore | internal/contracts/wasm_call_depth.go:131-164 | One root: explicit stack, three colours, depths of finished functions, termination |
| CallGraph.FinishDepth | internal/contracts/wasm_call_depth.go:151-160 | The depth of a function is one more than its deepest callee, unless a callee is at the limit |
| CallGraph.BackCallIsCycle | internal/contracts/wasm_call_depth.go:137-141 | A call into a function still on the stack closes a cycle |
| CallGraph.DepthIsWitnessed | internal/contracts/wasm_call_depth.go:151-162 | A recorded depth is the length of a real call path |
| CallGraph.DeepCalleeIsTooDeep | internal/contracts/wasm_call_depth.go:152-156 | A callee at depth 64 gives a path of 65 functions |
| CallGraph.DepthBoundsPaths | internal/contracts/wasm_call_depth.go:151-163 | No call path from a finished function is longer than its depth |
| CallGraph.AllVisitedIsAccepted | internal/contracts/wasm_call_depth.go:127-166 | When everything is finished the graph is acyclic and shallow |
| WasmPolicy.ValidateDirectCalls | internal/contracts/wasm_call_depth.go:95-167 | From bytes to verdict: a module is admitted exactly when all bodies decode to allowed instructions, all calls stay inside it, no function reaches itself and no chain is longer than 64 |
| WasmPolicy.OutOfBoundsIsRejected | internal/contracts/wasm_call_depth.go:109-113 | A body with a call outside the module has no in-bounds call graph |
| WasmScanner.ParseDirectCalls | internal/contracts/wasm_call_depth.go:10-93 | The scanner accepts exactly the decodable bodies and returns their call targets in order |
| WasmScanner.ParseIsInverse | internal/contracts/wasm_call_depth.go:10-93 | Decoding is the inverse of encoding: a byte string decodes to a body exactly when the body is allowed and encodes to it, so the instructions are unique |
| WasmScanner.ShapesAre | internal/contracts/wasm_call_depth.go:19-88 | The instruction table, immediate by immediate: which opcodes have none, a type, a constant, an index, labels, a memory argument, types, raw bytes or a second opcode; every other opcode, indirect and tail calls among them, is refused |
| WasmScanner.CallsAre | internal/contracts/wasm_call_depth.go:10-93 | The calls of a body are the targets of exactly its call instructions, in their order |
| WasmScanner.ImmSound | internal/contracts/wasm_call_depth.go:19-88 | What is read as an immediate is an allowed immediate of its opcode and a prefix of the bytes |
| WasmScanner.ImmComplete | internal/contracts/wasm_call_depth.go:19-88 | Every allowed immediate is read back, whatever bytes follow |
| WasmScanner.ItemsTakeRoom | internal/contracts/wasm_call_depth.go:201-205 | The length test on a vector never rejects a valid one |
| WasmScanner.ReadU32Vector | internal/contracts/wasm_call_depth.go:201-212 | Reads exactly the encoded label vectors of count plus one entries |
| WasmScanner.ReadValueTypes | internal/contracts/wasm_call_depth.go:214-231 | Reads exactly the encoded vectors of value types |
| WasmScanner.ReadMisc | internal/contracts/wasm_call_depth.go:233-249 | Reads exactly the allowed miscellaneous instructions |
| WasmScanner.ReadImmediate | internal/contracts/wasm_call_depth.go:19-88 | One immediate, by the shape of its opcode; for a call, its target |
| Leb.Reader.ReadByte | internal/contracts/wasm.go:1100-1107 | Reads one byte or reports the end |
| Leb.Reader.ReadBytes | internal/contracts/wasm.go:1109-1117 | Skips a raw immediate exactly when enough bytes are left |
| Leb.Reader.ReadU32 | internal/contracts/wasm.go:1131-1149 | Reads exactly the encodings of at most five bytes whose value fits 32 bits, padded ones included, and returns that value |
| Leb.Reader.ReadSigned | internal/contracts/wasm_call_depth.go:173-199 | For every bit width, reads exactly the encodings of at most the allowed bytes whose signed value fits the width |
| Leb.TakeU32Exact | internal/contracts/wasm.go:1131-1149 | The number in front is unique and independent of what follows |
| Leb.TakeSignedExact | internal/contracts/wasm_call_depth.go:173-199 | The same for signed numbers of any width |
| Leb.FitsByLastByte | internal/contracts/wasm_call_depth.go:183-196 | A signed number fits the width exactly when the payload of its last byte fits the bits left for it |
| Leb.SignExtendedFits | internal/contracts/wasm_call_depth.go:184-196 | The bit test on the last byte is that range test |
| Leb.EncodeU32 | internal/contracts/wasm.go:1420-1433 | The encoder produces an allowed encoding of exactly its argument |
| Leb.EncodeI32 | internal/contracts/wasm.go:1435-1449 | The signed encoder produces an allowed 32-bit encoding of exactly its argument, negative ones included |
| Leb.ReadUndoesEncode | internal/contracts/wasm.go:1131-1149 | Reading returns what was encoded, whatever bytes follow |
| VersionedStore.NormalizeStorageProfile | internal/abci/storage_profile.go:50-81 | The empty profile becomes the default; any other is accepted exactly when it is valid for its mode |
| VersionedStore.NextMinimumKeepsRetention | internal/abci/storage_v2.go:487-511 | The new history boundary keeps the promised window, bounds the number of heights, never goes back, and in full mode is a checkpoint below the current height |
| VersionedStore.PromisedWindow | internal/abci/storage_v2.go:487-531 | Every height of the retention window since the store began is there, and full mode holds fewer than retain plus interval heights |
| VersionedStore.SaveKeepsInv | internal/abci/storage_v2.go:238-350 | A commit batch keeps the disk equal to the history: live state, versions, deltas, block index, checkpoints, retention |
| VersionedStore.CheckpointsStay | internal/abci/storage_v2.go:487-531 | After pruning the boundary is a checkpoint again, and so is every height that should be one |
| VersionedStore.HashKept | internal/abci/storage_v2.go:514-529 | Pruning never removes the index entry of a version that stays |
| VersionedStore.ApplicationStore.constructor | internal/abci/storage_v2.go:185-236 | A new store holds the genesis state, in full, at height 0 |
| VersionedStore.Create | internal/abci/storage_v2.go:86-123 | A new database is made exactly when the profile is valid or empty and the genesis state agrees with its record |
| VersionedStore.ApplicationStore.PruneVersionsInBatch | internal/abci/storage_v2.go:487-531 | The pruning loop removes exactly the versions below the new boundary and their index entries |
| VersionedStore.ApplicationStore.Save | internal/abci/storage_v2.go:238-350 | Succeeds exactly for the next height (or height 0 again), a state that agrees with its record, a new block hash, a batch that commits and, at checkpoints, a journal that covers every change; then the history grows by exactly the projected state, which is the whole state exactly when the journal covers; otherwise nothing changes |
| VersionedStore.ApplicationStore.CommitBatch | internal/abci/storage_v2.go:286-349 | The batch and the memory after it agree with the history |
| VersionedStore.ApplicationStore.Restore | internal/abci/storage_v2.go:352-416 | State sync replaces an empty height-0 store by one complete state exactly when that state agrees with its record and the batch commits |
| VersionedStore.ApplicationStore.StateFromFlat | internal/abci/storage_v2.go:674-741 | The stored state of a height passes the count, root and index checks and then gives what it decodes to: the snapshot, if it decodes, a store can be rebuilt from it and it agrees with the record; a state with another count or root is refused |
| VersionedStore.ApplicationStore.FindCheckpoint | internal/abci/storage_v2.go:563-578 | The backward search always ends at the nearest checkpoint |
| VersionedStore.ApplicationStore.LoadHeight | internal/abci/storage_v2.go:549-595 | Checkpoint and deltas rebuild exactly the flat state stored for a retained height, and the result is what that state decodes to, corrupt exactly when it does not decode or is refused; lower heights are pruned, higher ones unavailable |
| VersionedStore.ApplicationStore.Restart | internal/abci/storage_v2.go:160-183 | Start-up from the disk alone, after a stop between any two batches, succeeds exactly when the current state and the checkpoint at the history boundary can be read back, and then restores memory; the index needs no repair |
| StateHistory.HistoryReadsBack | internal/abci/application.go:746-841 | Over every run of commits, failed commits, state syncs and restarts whose committed states are well-formed, rebuildable and journaled (or checkpointed): each retained height reads back exactly the snapshot handed over for it, with its record, start-up succeeds, and it finds the last one committed |
| StateHistory.RunIsReadable | internal/abci/application.go:746-841 | Readability of every retained height is an invariant of such runs, from any readable state |
| StateHistory.StepIsReadable | internal/abci/application.go:746-841 | One commit, state sync or restart, successful or not, keeps every retained height readable and the process on the stored state and its tree |
| StateHistory.StepIsDurable | internal/abci/storage_v2.go:238-416 | Any commit, journaled or not, any state sync and any restart keeps the disk equal to its history |
| StateHistory.GenesisIsReadable | internal/abci/storage_v2.go:185-236 | A new database is readable |
| StateHistory.CommitReadsBackIff | internal/abci/storage_flat.go:291-370 | A committed block reads back as the state it was made of exactly when the journal names every entry that changed |
| StateHistory.UnjournaledBlockIsUnreadable | internal/abci/storage_v2.go:674-741 | A concrete block whose journal misses a new account is stored, its height cannot be read, and the process does not start again |
| StateHistory.SavedWasHandedOver | internal/abci/application.go:823-841 | The snapshot kept for a height was handed over by a commit or state sync of that height, or was there before |
| StateHistory.ApplyMutationsToTree | internal/abci/storage_flat.go:493-587 | Writing every marked entry to the tree leads to the tree of the journal's delta, in any order of entries |
| StateHistory.Application.constructor | internal/abci/application.go:235-290 | A new chain is the genesis state of the specification |
| StateHistory.Application.Commit | internal/abci/application.go:746-797 | Updating the tree, saving and halting on failure computes exactly the specified step |
| StateHistory.Application.Sync | internal/abci/snapshot.go:242-268 | Applying a decoded snapshot computes exactly the specified step |
| StateHistory.Application.Start | internal/abci/application.go:248-262 | Starting from the disk computes exactly the specified step |
| StateHistory.Application.Query | internal/abci/application.go:602-625 | A query of a retained height returns what it decodes to, and in a readable history the snapshot committed at that height |
| StoreRules.BoundaryIs | internal/abci/storage_v2.go:487-511 | An archive keeps everything, a pruned store one height, and a full one moves its boundary to the last multiple of the interval that leaves the promised number of heights |
| StoreRules.SavesIff | internal/abci/storage_v2.go:238-350 | A save succeeds exactly when the batch commits, the height is next or 0 again, the state agrees with its record, no retained block has the hash, and where the state is stored in full every entry outside the journal is unchanged |
| StoreRules.SavedEntry | internal/abci/storage_v2.go:286-349 | After a save every journaled entry of the live state is that of the new state and every other one is as before |
| StoreRules.SavedHeight | internal/abci/storage_v2.go:286-349 | After a save exactly the heights from the boundary on are there, the new one with its record, hash and, at the interval, its full state, the others unchanged |
| StoreRules.RestoresIff | internal/abci/storage_v2.go:352-416 | When a state sync is stored, and that it leaves exactly its own height, in full |
| StoreRules.StartsIff | internal/abci/storage_v2.go:160-183 | A start succeeds exactly when the newest and the oldest height decode, rebuild and agree with their records; any height reads back as what it decodes to |
| StoreRules.BlockOutcome | internal/abci/application.go:746-797 | A block is committed exactly under the conditions of a save on a running process, and then the process holds its state and tree and the history has it; out of sequence it changes nothing; otherwise the process stops and the disk stays |
| StoreRules.SyncOutcome | internal/abci/snapshot.go:242-268 | Which snapshots are refused, which stop the process, and which become the only height |
| StoreRules.RestartOutcome | internal/abci/application.go:248-262 | A start runs the process on the newest state and its tree exactly when the newest and the oldest height are sound |
| FlatState.JournalIsExactIffItCovers | internal/abci/storage_flat.go:271-438 | The journal's delta is the complete difference, and leads to the next state, exactly when the journal covers every changed entry |
| FlatState.DiffApplies | internal/abci/storage_flat.go:271-289 | Applying the complete difference gives the next state; it deletes only what exists and never what it sets |
| FlatState.FlatDeltaFromMutations | internal/abci/storage_flat.go:291-370 | The loop over the journal computes its delta, in any order of entries |
| FlatState.AddFlatMutation | internal/abci/storage_flat.go:372-401 | One journal entry: set, delete or nothing |
| FlatState.ApplyFlatDelta | internal/abci/storage_flat.go:423-438 | Replay of a delta; a delete of a missing entry is an error |
| FlatTree.IncrementalMatchesRebuild | internal/abci/storage_v2.go:268-289 | The root of the tree changed by the delta equals the root of the tree rebuilt from the complete state, so the checkpoint comparison never fails |
| FlatTree.ApplyDeltaToTree | internal/abci/storage_flat.go:472-491 | Deletes then sets leave the tree over exactly the next state |
| FlatTree.BuildTree | internal/abci/storage_flat.go:448-459 | A tree built from nothing holds exactly the state |
| FlatTree.RepresentsOnce | internal/abci/storage_flat.go:448-491 | The flat state determines the contents of its tree |
| Snapshots.UnflattenUndoesFlatten | internal/abci/storage_flat.go:66-269 | Unflatten returns the snapshot exactly when it is well-formed, for every snapshot |
| Snapshots.FlattenUndoesUnflatten | internal/abci/storage_flat.go:66-269 | A flat state that decodes is the flat state of what it decodes to, exactly when it has a validator list |
| Snapshots.FlattenIsInjective | internal/abci/storage_flat.go:66-122 | Well-formed snapshots with the same flat state are equal |
| Snapshots.FlattenIsDecodable | internal/abci/storage_flat.go:156-269 | No error branch of unflatten is reached from a flattened snapshot |
| Snapshots.JournaledIsCovers | internal/state/store.go:467-745 | Marking what each write touches is the same as covering every changed flat entry |
| Snapshots.Store.ResetMutations | internal/state/mutations.go:74-76 | An empty journal covers the changes since the state it starts from |
| Snapshots.Store.AddBalance | internal/state/store.go:467-480 | Adds or fails on overflow, and marks what it changed |
| Snapshots.Store.IncrementNonce | internal/state/store.go:511-521 | Raises the nonce or fails on overflow, and marks the account, so that later slot writes to it are covered |
| Snapshots.Store.SetCodeID | internal/state/store.go:534-543 | Gives the account its code; an account made this way is marked, so that later slot writes to it are covered |
| Snapshots.Store.SetStorage | internal/state/store.go:574-606 | Writes one slot within the limits; afterwards the journal covers every change exactly when the write failed, the account existed, or the account was already marked |
| Snapshots.Store.SubStake | internal/state/store.go:734-745 | Subtracts or fails, and marks what it changed |
| Snapshots.Store.DeleteStoragePrefix | internal/state/store.go:656-683 | Deletes exactly the slots with the prefix and marks each |
| Snapshots.StorageForNewAccountIsLost | internal/state/store.go:574-606 | A concrete write to the storage of a missing account whose new account entry the journal misses |
| SparseTree.RootIsContents | pkg/proof/sparse.go:135-204 | Two trees have the same root exactly when they have the same contents, whatever writes led there |
| SparseTree.ProofIsSound | pkg/proof/sparse.go:260-321 | A proof that climbs to the root of the contents is right: the key holds that value, or is absent |
| SparseTree.ProofIff | pkg/proof/sparse.go:260-321 | A proof is accepted against a tree's root exactly when its key has 1 to 2048 printable characters, its value 1 byte to 16 MiB, its bitmap 256 bits with one sibling each, every sibling is that of the tree and the claim is true |
| SparseTree.HonestClimb | pkg/proof/sparse.go:224-258 | A proof made from the contents climbs to their root |
| SparseTree.RootFixesPath | pkg/proof/sparse.go:260-321 | Equal roots force equal hashes along the whole path of the key |
| SparseTree.VerifySparse | pkg/proof/sparse.go:260-321 | The verifier accepts exactly the well-formed proofs that climb to the expected root |
| SparseTree.Tree.constructor | pkg/proof/sparse.go:68-84 | The empty tree |
| SparseTree.Tree.RootHash | pkg/proof/sparse.go:135-144 | The stored root is the hash of the contents |
| SparseTree.Tree.RecalculatePath | pkg/proof/sparse.go:369-388 | Rewriting one path makes every stored node right again, storing none that equals an empty subtree |
| SparseTree.Tree.Set | pkg/proof/sparse.go:153-182 | Writes one leaf and leaves all others; refuses a bad key, a bad value or a path already held by another key |
| SparseTree.Tree.Delete | pkg/proof/sparse.go:184-204 | Removes one leaf and leaves all others |
| SparseTree.Tree.Prove | pkg/proof/sparse.go:224-258 | Produces, for every valid key, present or absent, a proof that states the truth and climbs to the root |
| SparseTree.Overlay.CloneAndPublishKeepView | pkg/proof/sparse.go:99-133 | Cloning layers and merging them keeps what is read |
| SparseTree.Overlay.GetIsView | pkg/proof/sparse.go:390-426 | Looking through the layers finds the newest write |
| Lifecycle.NextEpochRemovalHeight | internal/abci/evidence.go:366-380 | The first epoch boundary at least two blocks ahead; fails exactly when it does not fit 64 bits |
| Lifecycle.RemovalHeightIsLeast | internal/abci/evidence.go:366-380 | No earlier boundary qualifies |
| Lifecycle.RemovalHeightGrows | internal/abci/evidence.go:366-380 | Later evidence never schedules an earlier removal |
| Lifecycle.UnbondingHeight | internal/abci/evidence.go:382-388 | Removal plus the unbonding epochs; fails exactly when it does not fit 64 bits |
| Lifecycle.SlashAmountCeiling | internal/abci/evidence.go:353-364 | The exact ceiling of stake times basis points over 10000, never more than the stake |
| Lifecycle.RecordsSummarised | internal/abci/evidence.go:178-262 | A batch of evidence is applied exactly when there is room and the heights fit, and its result depends on which offences are new, not on their order |
| Lifecycle.ApplyNew | internal/abci/evidence.go:199-251 | A new offence: when it can be recorded, and that the branch for an earlier removal is never taken |
| Lifecycle.NewOffenceIsSlashed | internal/abci/evidence.go:203-244 | A new offence takes from its validator alone the least amount that covers the duplicate-vote rate (kind 1) or the light-client rate (kind 2) of the stake it finds, and the record keeps rate, stake and amount |
| ValidatorSets.RunKeepsInv | internal/abci/proposal.go:134-245 | In every run of blocks with non-decreasing times and consistent evidence times, the invariant holds and no set already in use or announced ever changes |
| ValidatorSets.ScheduledSet | internal/abci/proposal.go:216-226 | At every height up to two ahead the folded set is exactly the identities active by schedule, it is never empty, its power is positive, no offence was slashed twice, and every offence names its validator's removal height |
| ValidatorSets.StepKeepsInv | internal/abci/proposal.go:134-312 | One finalized block: compaction, evidence, admissions and updates keep the invariant |
| ValidatorSets.GenesisInv | internal/state/validator_lifecycle.go:58-73 | The genesis lifecycle, with admissions scheduled ahead, satisfies the invariant |
| ValidatorSets.FoldFollowsSchedule | internal/abci/evidence.go:443-469 | Folding the announced updates into a scheduled set gives the scheduled set of the next height, and only members are removed |
| ValidatorSets.RemovalChecksSuffice | internal/abci/evidence.go:390-403 | Checking the set at removal heights only is enough for it to be non-empty at every height |
| ValidatorSets.EvidenceAppliesIff | internal/abci/evidence.go:178-262 | Evidence that passed validation is applied exactly when there is room, heights fit, no new offence concerns a validator that already leaves within two blocks, and somebody stays |
| ValidatorSets.EarlierRemovalUnreachable | internal/abci/evidence.go:219-232 | Evidence never finds a later removal than the one it would schedule, so the branch that moves a removal forward is unreachable |
| ValidatorSets.LateEvidenceExample | internal/abci/evidence.go:218-233 | A concrete valid item of evidence for which applying fails: the validator's earlier removal is less than two blocks away |
| ValidatorSets.LedgerOkIff | internal/state/validator_lifecycle.go:151-295 | After evidence the stored-ledger check passes exactly when no evidence was late |
| ValidatorSets.SomeoneIff | internal/abci/evidence.go:390-403 | The emptiness check passes exactly when nobody is removed or an unmarked validator without removal height is active by then |
| ValidatorSets.EvidenceKeepsInv | internal/abci/evidence.go:178-262 | Applied evidence keeps the ledger invariant, every offence naming its validator's removal height, and all sets up to the next height |
| ValidatorSets.CompactionKeepsInv | internal/abci/evidence.go:264-307 | Compaction keeps the ledger invariant and its error for evidence from the future is unreachable |
| ValidatorSets.TxsKeepInv | internal/core/validator_admission.go:113-165 | Admissions and stake changes keep the ledger invariant and all sets up to the next height |
| ValidatorSets.NewWasNeverSlashed | internal/abci/evidence.go:158-167 | Evidence that is still accepted was never slashed before, even if compaction has deleted its record |
| ValidatorSets.LogIsNewKeys | internal/abci/evidence.go:190-251 | A batch slashes each new offence once and no other |
| EvidenceStore.VotingPowerAt | internal/abci/evidence.go:325-340 | The loop sums exactly the active powers, cannot overflow, and fails exactly on an empty set |
| EvidenceStore.TotalPowerFits | internal/state/validator_lifecycle.go:171-192 | The running check on the total equals a check on the sum |
| EvidenceStore.ScheduledSetsNonEmpty | internal/abci/evidence.go:390-403 | Decides whether every scheduled removal leaves somebody |
| EvidenceStore.ValidateEvidence | internal/abci/evidence.go:115-176 | Accepts exactly the lists in which every item is valid and no offence occurs twice |
| EvidenceStore.ValidateItem | internal/abci/evidence.go:130-162 | The checks on one item, including historical power and expiry |
| EvidenceStore.ValidatorUpdatesAt | internal/abci/evidence.go:443-469 | Announces exactly the identities that start or stop two heights ahead; its error is unreachable |
| EvidenceStore.Store.ValidateLedger | internal/state/validator_lifecycle.go:151-204 | Decides the stored-ledger check |
| EvidenceStore.Store.ApplyOne | internal/abci/evidence.go:188-251 | One record on working copies: consumed, refused, or slashed at the rate of its kind, recorded and scheduled |
| EvidenceStore.Store.ApplyAll | internal/abci/evidence.go:178-262 | The loop over all records computes the specified ledger, or fails as specified |
| EvidenceStore.Store.CompactOffences | internal/abci/evidence.go:264-307 | Drops exactly the timed offences that evidence can no longer repeat |
| EvidenceRules.ExpiredIff | internal/abci/evidence.go:152-163 | Evidence is too old exactly when both its age in blocks and its age in time exceed their limits, clock differences saturating at 64 bits |
| EvidenceRules.ItemIsProper | internal/abci/evidence.go:130-162 | An item is valid exactly when its kind, heights, time, power and total power are those of an active validator at its height and it is not too old |
| EvidenceRules.EvidenceIsProper | internal/abci/evidence.go:115-176 | A list is valid exactly when it is no longer than the validator list, every item is valid and no validator occurs twice at one height |
| EvidenceRules.CompactionIs | internal/abci/evidence.go:264-307 | Compaction drops exactly the timed offences that are too old in both measures, from the activation height on, and nothing else |
| EvidenceRules.EvidenceLeaves | internal/abci/evidence.go:199-262 | After a block's evidence exactly the validators with a new offence and no scheduled removal leave, at the first epoch boundary two blocks ahead, with the unbonding height the policy gives; all other identities stay as they were |
| EvidenceRules.OffencesAre | internal/abci/evidence.go:199-262 | Old offences stay, every new item is recorded with its rate, stake, amount and schedule, and nothing else is recorded |
| EvidenceRules.StakesAre | internal/abci/evidence.go:203-244 | Every stake falls by exactly the sum of the amounts recorded for its validator's new offences |
| EvidenceRules.BlockRunsIff | internal/abci/evidence.go:115-307 | On every reachable ledger a block runs exactly when its evidence is valid, there is room, the heights fit, no offender leaves too soon, and somebody stays |
| EvidenceRules.JoinIff | internal/core/validator_admission.go:113-165 | An admission changes the ledger exactly when the quorum holds, the key is new, its power is a positive thousandth of its stake, it starts at an epoch boundary at least two blocks ahead, and count and total power stay within their limits |
| EvidenceRules.WhoJoins | internal/core/validator_admission.go:113-165 | A block's transactions run in order: everybody in the ledger stays as they are, and somebody new is there afterwards exactly when one of the transactions admits them on what the ones before it left, with the identity it names |
| EvidenceRules.LastStakeCounts | internal/abci/proposal.go:134-245 | A stake after the transactions is the last one set, or unchanged if none was |
| EvidenceRules.BlockLedger | internal/abci/proposal.go:134-312 | Over a whole block: a validator is given its removal height exactly if it had none and the block brings a new offence of it, every other identity stays, and exactly the admitted ones join |
| EvidenceRules.LedgerRefusedIff | internal/state/validator_lifecycle.go:151-295 | A stored ledger is refused exactly for no or too many validators, too many offences, too much power, a missing genesis validator, a bad identity or a bad offence, each spelled out |
| EvidenceRules.ScheduleRefusedIff | internal/abci/evidence.go:405-441 | A schedule is refused exactly for a start or removal off the epoch boundaries or an unbonding height the policy does not give |
| Signer.RunIsSafe | internal/cometnode/durable_priv_validator.go:95-184 | In every run of requests, failed and uncertain writes and stable restarts, the invariant holds and releases are only appended |
| Signer.NoDoubleSign | internal/cometnode/durable_priv_validator.go:95-184 | Two releases of one height, round and step are the same message under the same signature, the signature covers the message, and steps never go back |
| Signer.SignIsSafe | internal/cometnode/durable_priv_validator.go:95-184 | One request keeps the invariant, including a timestamp-only difference, where the stored timestamp is put back |
| Signer.SignIs | internal/cometnode/durable_priv_validator.go:95-184 | For every stored state, request and write outcome: a later step is signed, and released exactly when the write is durable; a repetition of the stored step releases the stored signature, with the stored timestamp, exactly when nothing but the timestamp differs; everything else is refused and changes nothing |
| Signer.RestartIsSafe | internal/cometnode/durable_priv_validator.go:38-65 | A restart that cannot be reverted later keeps the invariant |
| Signer.UnstableRestartIsUnsafe | internal/cometnode/sign_state_atomic.go:51-57 | The condition on restarts is exact: from every reachable state, if what was read could still be lost with an unsynced rename, some continuation signs one step twice |
| Signer.DoubleSignExample | internal/cometnode/sign_state_atomic.go:51-57 | A concrete run from a new state file, with one unsynced rename and two restarts, releases two different messages for one step |
| Signer.RevertIff | internal/cometnode/durable_priv_validator.go:38-65 | What a restart reads could still be lost exactly when it is not the state the process before it held, so when its write was reported as failed |
| Signer.QuietRunIsStable | internal/cometnode/sign_state_atomic.go:51-57 | With no restart between a rename whose directory was not synced and the next durable write, every run is a safe one |
| Signer.FreshInv | internal/cometnode/durable_priv_validator.go:38-65 | A key that never signed satisfies the invariant |
| Signer.CheckHrs | internal/cometnode/durable_priv_validator.go:100-103 | The library's regression check: fresh exactly when later, same exactly when equal with a stored signature |
| Signer.RenameWithRetry | internal/cometnode/sign_state_atomic.go:60-83 | At most 24 attempts, none after success or a fatal error, bounded total delay |
| Signer.WriteAtomically | internal/cometnode/sign_state_atomic.go:18-58 | The file is replaced exactly when every step up to the rename succeeds; the directory sync decides between durable and uncertain |
| Signer.WriteIs | internal/cometnode/sign_state_atomic.go:18-83 | A write leaves the old file exactly when a step before the rename fails, all 24 renames fail in a way that may pass, or one fails for good first |
| Signer.DurablePrivValidator.constructor | internal/cometnode/durable_priv_validator.go:38-65 | Memory starts as the file |
| Signer.DurablePrivValidator.Persist | internal/cometnode/durable_priv_validator.go:169-184 | Memory moves only after a durable write; what a restart may find is recorded for every outcome |
| Signer.DurablePrivValidator.SignVote | internal/cometnode/durable_priv_validator.go:95-139 | The imperative vote signing computes exactly the specified state and release |
| Signer.DurablePrivValidator.SignProposal | internal/cometnode/durable_priv_validator.go:141-167 | The same for proposals |
| Signer.DurablePrivValidator.SignChecked | internal/cometnode/durable_priv_validator.go:114-139 | Repeat the stored signature, or sign, persist, then release |
| Signer.DurablePrivValidator.Restart | internal/cometnode/durable_priv_validator.go:38-65 | A restart loads the file or refuses a malformed one |
| Signer.RunIsLoadable | internal/cometnode/durable_priv_validator.go:38-65 | Over every run no restart refuses a file the process wrote, unless a negative height or round was signed |
| Recovery.RunKeepsInv | internal/core/recovery.go:105-400 | Over every run of recovery, ownership and session-key actions the stored round and grants are what the log says |
| Recovery.RecoveryNeedsGuardians | internal/core/recovery.go:291-385 | Recovery hands the account to X only if a configured guardian asks, at least threshold guardians have standing votes for X, all of them cast within 256 blocks of the first vote of the round as the log shows it, and the height is between the deciding vote plus delay and 256 blocks later |
| Recovery.DecidingVote | internal/core/recovery.go:235-261 | The vote that brings a candidate to the threshold decides the round, and no other vote does |
| Recovery.OwnerChanges | internal/core/recovery.go:365-385 | Only the owner, the account's own key, or a decided recovery changes the owner |
| Recovery.StepKeepsRound | internal/core/recovery.go:105-400 | Every action keeps the round in step with the votes cast since the last round ended |
| Recovery.ApproveKeepsRound | internal/core/recovery.go:154-289 | A vote, with expiry 256 blocks after the round's first vote, vote change and decision, keeps the round in step with the log |
| Recovery.StepKeepsGrant | internal/core/executor.go:918-1183 | Every action keeps each grant in force, its limit and its spending in step with the log |
| Recovery.GrantLimitHolds | internal/core/executor.go:1055-1124 | The transfers made under one grant never sum to more than its limit |
| Recovery.TransferIff | internal/core/executor.go:1037-1070 | A session key may make exactly the transfers that fit the grant the log shows in force |
| Recovery.LiveGrantIff | internal/core/executor.go:1126-1183 | A grant is in force exactly when no recovery, owner change or revocation came after it |
| Recovery.RecoveryVoidsGrants | internal/core/recovery.go:365-379 | After a recovery or an owner change an earlier grant authorises no transfer and no call until the key is added again |
| Recovery.NewAccountInv | internal/contracts/account.go:19-28 | A new account satisfies the invariant |
| Recovery.RunIsInOrder | internal/core/recovery.go:105-400 | In a run whose heights never go back the logged votes are in order of height |
| RecoveryRules.ApproveIff | internal/core/recovery.go:154-289 | A vote is taken exactly when a guardian casts it, in an open window or the first of a new one, not a repetition, and any change of mind decides; the new round is spelled out with its votes and window |
| RecoveryRules.ExecuteIff | internal/core/recovery.go:291-385 | On every reachable state a recovery is executed exactly when a guardian asks, the new owner is acceptable, the standing votes meet the threshold and the height is in the window after the deciding vote; owner, epoch and round are the only changes |
| RecoveryRules.ConfigureIff | internal/core/recovery.go:118-152 | Configuration succeeds exactly for the owner, at most sixteen external guardians and a threshold they can meet |
| RecoveryRules.ConfigChanges | internal/core/recovery.go:105-400 | Only the owner, or new code, changes the configuration |
| RecoveryRules.RoundChanges | internal/core/recovery.go:105-400 | Only guardians move a round; only a recovery, the owner or new code ends one |
| RecoveryRules.OwnerCan | internal/core/recovery.go:387-397 | What cancelling, clearing, handing over and replacing the code do, and that the account never owns itself |
| RecoveryRules.GrantIff | internal/core/executor.go:942-1031 | A session key is granted exactly by the owner, with a limit or a call, up to sixteen keys, with nothing spent; revoking removes just that key |
| RecoveryRules.CallIff | internal/core/executor.go:1071-1124 | A session key may make exactly the call its live grant names, before it expires |
| RecoveryRules.TransferIs | internal/core/executor.go:1037-1124 | A session key may make exactly the transfers its live grant covers, and only its spending changes |
| RecoveryAccount.VotesForOwner | internal/core/recovery.go:639-647 | The guardians voting for an owner, each once, as many as the vote map has |
| RecoveryAccount.CheckUnique | internal/core/recovery.go:424-437 | Decides whether a list repeats an address |
| RecoveryAccount.CastVote | internal/core/recovery.go:215-235 | Adds or changes a vote; refuses a repeated vote and a change that does not decide the round |
| RecoveryAccount.SmartAccount.constructor | internal/contracts/account.go:19-28 | A deployed account has its owner and nothing else |
| RecoveryAccount.SmartAccount.Configure | internal/core/recovery.go:118-152 | Succeeds exactly for the owner, distinct external guardians and a threshold they can meet; replaces the configuration and ends the round |
| RecoveryAccount.SmartAccount.Approve | internal/core/recovery.go:154-289 | Computes exactly the specified round; no stored-state fault is reachable |
| RecoveryAccount.SmartAccount.RecordVote | internal/core/recovery.go:211-289 | A vote on top of those that still stand |
| RecoveryAccount.SmartAccount.Decide | internal/core/recovery.go:237-261 | Fixes owner, approvals and window, or fails on overflow |
| RecoveryAccount.SmartAccount.Execute | internal/core/recovery.go:291-385 | Computes exactly the specified owner change; no stored-state fault is reachable |
| RecoveryAccount.SmartAccount.Cancel | internal/core/recovery.go:387-393 | The owner ends the round |
| RecoveryAccount.SmartAccount.Clear | internal/core/recovery.go:395-397 | The owner removes recovery altogether |
| RecoveryAccount.SmartAccount.SetOwner | internal/contracts/account.go:32-66 | The owner hands over; the round and every session key go |
| RecoveryAccount.SmartAccount.AddSessionKey | internal/core/executor.go:942-1022 | Grants with nothing spent, in the current epoch, within the key limit |
| RecoveryAccount.SmartAccount.RevokeSessionKey | internal/core/executor.go:1023-1031 | Removes a grant |
| RecoveryAccount.SmartAccount.SessionTransfer | internal/core/executor.go:1037-1124 | Authorises within epoch, expiry, target and remaining limit, and records the spending |
| TxPool.ReplayNonces | internal/node/node.go:2078-2088 | A list that replays holds, for each sender, every nonce from the account's to the replayed one, once, in order, and no other |
| TxPool.PromoteQueued | internal/node/node.go:2152-2204 | Promotion terminates in a queue nothing of which can be promoted and extends the pending list, which still replays; from a steady queue it loses nothing, takes each transaction in its turn, whatever stood before it not being ready, and keeps the order of the rest; it fails only if the pending list does not replay or a queued transaction faults |
| TxPool.PromotionIsDetermined | internal/node/node.go:2152-2204 | That leaves one outcome: two promotions of the same lists in which everything went in its turn and nothing more can be promoted are the same |
| TxPool.FindReady | internal/node/node.go:2182-2199 | Finds the first queued transaction whose turn it is and that is not refused, and says whether it executes or faults, or shows there is none |
| TxPool.FilterStale | internal/node/node.go:2168-2176 | Keeps exactly the transactions whose nonce is not used up |
| TxPool.FreshIs | internal/node/node.go:2168-2176 | The queue loses exactly the transactions whose nonce is used up, and each other one stays as often as it was there |
| TxPool.ReplayPending | internal/node/node.go:2078-2088 | The loop computes the replay |
| TxPool.WeighPart | internal/node/node.go:585-631 | A list that is part of another has no larger byte total and no larger count per sender |
| TxPoolNode.PoolNoncesAreUnique | internal/node/node.go:2090-2101 | No two transactions of the pool share sender and nonce |
| TxPoolNode.ReplayCounts | internal/node/node.go:2078-2088 | Replaying moves each nonce by the number of the sender's transactions |
| TxPoolNode.AcceptsIff | internal/node/node.go:458-631 | Which submissions are acceptable, in figures: a competitor's replacement needs the fee rule, 128 MiB and a pool that still works; a new transaction needs 128 MiB, 4096 places, 64 per sender, and executes at the next nonce or waits at most 64 nonces ahead in one of 2048 places, the next nonce being the account's plus its pending transactions |
| TxPoolNode.NewCapacity | internal/node/node.go:585-609 | Room by count, bytes and sender, exactly |
| TxPoolNode.ReplacementIndex | internal/node/node.go:2090-2101 | Finds the first competing transaction or shows there is none |
| TxPoolNode.ReplacePending | internal/node/node.go:473-502 | Succeeds exactly when the bytes fit and the changed pending list still replays, unless a queued transaction then faults; keeps the pool invariant, with exact bytes, puts the transaction in its competitor's place and promotes what that allows |
| TxPoolNode.SwapQueued | internal/node/node.go:2103-2137 | A queued replacement succeeds exactly when the bytes fit and it executes now or at its own nonce, unless a queued transaction then faults; promoted if its nonce is due, it keeps the pool invariant and swaps exactly one transaction |
| TxPoolNode.AppendPending | internal/node/node.go:542-558 | Succeeds exactly when the new transaction executes, unless a queued one then faults; it goes to the end of the pending list, and what waited for it follows in turn |
| TxPoolNode.RevalidateMempool | internal/node/node.go:816-838 | What still executes in order replays on the new state and what lies ahead is handed back; every other transaction has a used-up or taken nonce or does not execute behind what was kept; nothing is added |
| TxPoolNode.RevalidateQueued | internal/node/node.go:840-894 | The rebuilt queue is steady, within every limit and part of the old one; every transaction is in it or has a reason not to be |
| TxPoolNode.ReinsertOrphaned | internal/node/node.go:1145-1235 | Every abandoned transaction that the chain does not include is in the pool afterwards or has a reason not to be: a used-up or taken nonce, no room, or it does not execute behind what is pending; the pool satisfies the invariant, loses nothing and holds nothing else |
| TxPoolNode.Revalidate | internal/node/node.go:1083-1115 | The old pool on a new head: every transaction that the chain does not include is kept or has a reason not to be |
| TxPoolNode.Reinsert | internal/node/node.go:1182-1232 | One abandoned transaction goes to the end of the pending list or of the queue, or has a reason not to |
| TxPoolNode.PlacedGrows | internal/node/node.go:1145-1235 | A reason not to be in the pool stays one while the pool grows |
| TxPoolNode.Pool.constructor | internal/node/node.go:253-271 | A new node has the empty pool, which satisfies the invariant |
| TxPoolNode.Pool.SubmitTx | internal/node/node.go:458-559 | Accepts exactly the transactions within the gas limit that AcceptsIff describes, unless a queued transaction then faults; keeps the invariant (pending replays, nonces unique, bytes exact, all limits, settled queue); a refused submission changes nothing; an accepted one takes its competitor's place, or the end of the pending list if its nonce is due, or the end of the queue, and then promotion runs |
| TxPoolNode.Pool.SubmitNew | internal/node/node.go:504-558 | A new transaction is queued or made pending exactly when there is room and it executes now or waits for a near nonce, unless a queued one then faults |
| TxPoolNode.Pool.SubmitAndPersist | internal/node/node.go:440-456 | Accepts the same transactions if the pool can be persisted; otherwise the pool goes back to what it was |
| TxPoolNode.Pool.Rebase | internal/node/node.go:1078-1131 | A new head gives a pool that satisfies the invariant for it, made only of old and abandoned transactions that the chain does not include; every one of those is in the pool or has a reason not to be; it fails only if one of them faults, and then nothing changes |
| TxPoolNode.Pool.PendingNonce | internal/node/node.go:1642-1662 | The walk over the pending list returns the nonce a full replay would find |
| Executor.Store.Execute | internal/core/executor.go:56-318 | For every transaction: refused exactly when a pre-check fails, then and on contract faults nothing changes; no escrow fault; gas within the limit; the fee payer is the paymaster, else the guardian of a recovery step, else the sender; how each body ends; a failed body changes only the nonce and the fee balances, a successful one changes balances and stakes exactly by its meaning and the fee; the value in the store falls by exactly the burned base fee, an uncollected tip and a slashed stake |
| ExecutorRules.AdmittedIff | internal/core/executor.go:56-92 | Which transactions get past the pre-checks, for the account that pays: chain, gas, authorisation, nonce, caps, the largest fee, the sender's exposure, and room for what payer and collector may receive |
| ExecutorRules.SucceedsIff | internal/core/executor.go:112-318 | Which admitted transactions succeed, body by body, in balances, stakes, charges and limits before the call |
| ExecutorRules.FaultsIff | internal/core/executor.go:112-318 | Which admitted transactions fault and change nothing: a malformed session-key record, or a call that faults within its gas, in a batch the one that ends it |
| ExecutorRules.GasIs | internal/core/executor.go:112-318 | The gas used: of a batch that of its calls up to the end or the first operation that does not go through, of a contract its charges, both at most the limit, of everything else the intrinsic gas |
| ExecutorRules.BalanceIs | internal/core/executor.go:112-318 | Every balance after the call: what the body gives and takes if it succeeds, the tip for the collector, and the fee from the one account that pays |
| ExecutorRules.StakeIs | internal/core/executor.go:141-212 | Every stake after the call |
| ExecutorRules.PaymasterPays | internal/core/executor.go:661-689 | With a paymaster the fee leaves the paymaster's balance and the sender's balance changes only by the body |
| ExecutorRules.FeeIs | internal/core/executor.go:496-538 | The fee charged is the gas used times the base fee and the tip within the caps, legacy or not |
| Executor.Store.CommitFailed | internal/core/execution_outcome.go:462-500 | Settlement of a failed body on the escrowed store; running out of gas pays for the whole limit, any other failure for the gas used |
| Executor.Store.CommitBody | internal/core/executor.go:289-317 | Settlement of a successful body; the escrow faults of this path are unreachable |
| Executor.Prepare | internal/core/executor.go:56-92 | Nonce and escrow are taken exactly when every pre-check passes; neither escrow fault is reachable |
| Executor.SettleNeverFaults | internal/core/executor.go:674-689 | After the pre-checks refund and tip never underflow or overflow, for any mix of sender, payer, collector and body |
| Executor.FeeFits | internal/core/executor.go:496-538 | Once caps and the largest fee are accepted, every smaller gas use has a fee within the escrow and a tip within the planned one |
| Executor.ChangeIsIncomingAtMost | internal/core/executor.go:596-632 | No body adds more to a balance than the pre-check counted |
| Executor.ValidateFeeCapacity | internal/core/executor.go:540-578 | Decides exactly the stated capacity condition |
| Executor.CreditCapacity | internal/core/executor.go:580-594 | Decides whether a balance has room for what may come in |
| Executor.IncomingValue | internal/core/executor.go:596-632 | The value a transaction can bring to an address, or an overflow |
| Executor.ValueExposure | internal/core/executor.go:639-659 | The value a transaction can take from its sender, or an overflow |
| Executor.CheckedAdd | internal/core/executor.go:831-836 | The sum, or an error exactly when it does not fit 64 bits |
| Executor.CheckedMul | internal/core/executor.go:838-843 | The product, or an error exactly when it does not fit 64 bits |
| Executor.RunBatch | internal/core/executor.go:125-140 | A batch of transfers and calls succeeds exactly when every transfer has funds and room, every call ends well and all charges fit the limit; exact balance changes, gas within the limit |
| Executor.RunOps | internal/core/executor.go:125-140 | The loop over a batch: it stops at the first operation that does not go through, with the gas up to it, and faults exactly when that is a call that faults within its gas |
| Executor.RunStaking | internal/core/executor.go:141-212 | Stake succeeds exactly with enough balance and room, unstake exactly when unlocked with enough stake and room, slash exactly when allowed and there is stake; value is conserved up to what is slashed |
| Executor.RunBody | internal/core/executor.go:112-287 | Every body: exactly when it succeeds, runs out of gas or faults, what it produces and the gas it uses |
| Executor.RunContract | internal/core/executor.go:243-284 | A contract run ends as it would, with its charges, or out of gas with the whole limit |
| Executor.MoveTotal | internal/state/store.go:497-509 | A transfer conserves the total and moves exactly its amount, also to oneself |
| Executor.Meter.Charge | internal/contracts/meter.go:25-49 | Use never exceeds the limit; a charge that does not fit uses up the rest and fails, as does every later one |
| Executor.Metered | internal/contracts/meter.go:25-49 | A run fits exactly when its charges sum to no more than the limit |
| Proposal.ExecuteProposal | internal/abci/proposal.go:314-390 | The shared loop computes the strict or the selecting pass |
| Proposal.PreparedIsAccepted | internal/abci/proposal.go:72-132 | A prepared block is accepted by strict execution from the same state, with the same store, receipts, bytes and gas |
| Proposal.AcceptedIsSelected | internal/abci/proposal.go:314-390 | Selecting from an acceptable block returns the block itself |
| Proposal.SelectionIsGreedy | internal/abci/proposal.go:340-388 | The proposer goes through the candidates in order, takes exactly those that decode, execute and fit the gas limit behind those taken before, and stops at the end, after 8192 candidates, at 4096 transactions, or at the first candidate whose bytes do not fit |
| Proposal.SelectionFails | internal/abci/proposal.go:356-376 | The selection fails only on a candidate that fails for good or whose result cannot be encoded |
| Proposal.SizeIs | internal/abci/encoding.go:141-145 | A transaction counts its bytes, a tag, and the shortest length prefix in groups of seven bits |
| Proposal.StrictIsReplay | internal/abci/proposal.go:314-390 | Strict execution accepts exactly the blocks whose transactions all execute in order within the count, byte and gas limits, and returns the store, receipts, gas and bytes they produce |
| Proposal.StrictTakesAll | internal/abci/proposal.go:314-390 | An accepted block has all its transactions, one receipt each, within the byte and gas limits |
| BlockExecution.BlockIsAccounted | internal/abci/proposal.go:314-390 | In every accepted block the value in the store falls by exactly the base fees, uncollected tips and slashed stakes of its receipts, the block's gas is the gas of its receipts, and each account's nonce rises by the number of its transactions |
| BlockExecution.ProposalIsAccounted | internal/abci/proposal.go:72-132 | The same for every block a proposer builds |
| BlockExecution.TakenIsAccounted | internal/abci/proposal.go:340-388 | One taken transaction keeps the account, for any decoding and any executor that keeps to the rules of one transaction |
| FeeMarket.BaseFeeChange | internal/core/fee_market.go:50-66 | The exact floor of the quotient, saturated at the largest word, with no trapping division |
| FeeMarket.LongDivision | internal/core/fee_market.go:55-61 | Two-word division by words is the true quotient |
| FeeMarket.NextBaseFeeIs | internal/core/fee_market.go:12-46 | The closed form of the next fee from the parent's fee (1 if there is none) and half the gas limit (of 30 million if there is none), up by at least one or down by at most an eighth; it never falls below the initial fee, and the branch for a decrease of the whole fee is unreachable |
| FeeMarket.FeeGrowsWithUse | internal/core/fee_market.go:12-46 | Using more gas never leads to a lower fee |

## Left out

- Command line, RPC, desktop supervisor, explorer, invitations, backups: input, output and user interface.
- Pebble, wasmtime, CometBFT, signature schemes and Keccak: foreign code, taken as atomic batches, opaque runs, the stated regression check, and injective functions.
- Canonical JSON and the parsing of addresses and numbers: values are modelled, not their text.
- The node's snapshot files and their reload at start-up: runs start from genesis.
- Governance proposals, validator leave, faucet, counter and multisig contracts, events and receipt schemas: disabled in the source or easy.
- The order in which the source sorts evidence: lists are taken in that order. It only decides how the slashed amounts of one validator are split among several offences of one block; `Lifecycle.RecordsSummarised` shows that nothing else depends on it.
- The two-thirds signature quorum and certificate window of a runtime admission: one input of an admission says whether they hold.
- The version-1 database, its migration, stored transactions and receipts, and checksums of stored versions: they do not enter the state that is read back.
- The link between the finality lock and the transaction pool inside one import: the two are modelled separately, the pool following any new head.
- `set_code` is one event of `Recovery` that replaces the whole account storage; the code it attaches is not modelled.
- Signer.DurablePrivValidator.SignVote: vote-extension signatures are made afresh on every call and are outside the sign bytes, so nothing is stated about them.
- Signer.RenameWithRetry: delays are added up, not waited for.
- Executor.Store.Execute: contract storage, code uploads, session keys and recovery are one opaque value that a successful body replaces; whether the spent amount of a session key can be stored is an input, and what it means is in `Recovery`.
- Executor.RunBody: whether an unstake is locked and a slash is allowed are inputs.
- Proposal.ExecuteProposal: decoding and executing a transaction is one function of the state and the bytes; `BlockExecution` ties it to `Executor`.
- VersionedStore.ApplicationStore.StateFromFlat: rebuilding a store from a snapshot, and the agreement of a snapshot, the root of its tree and its record, are two functions that the model takes as given.
- StateHistory.HistoryReadsBack: that the store's writes are journaled and rebuildable is a condition on what is committed; `Snapshots.Store` shows it of the writes it models.
- TxPoolNode.Pool.Rebase: which blocks are abandoned and which transactions the new chain includes are inputs; the order of the rebuilt lists is stated as far as replaying them fixes it.
- TxPool.PromoteQueued: the executor is any function with the nonce law that `Executor.Store.Execute` states; gas, fees and heights are part of the head it is given.
- TxPoolNode.Pool.SubmitTx: the fee rule for replacements is a function of the two transactions. A fault of a queued transaction, which halts the node, is named as the one other reason for a refusal; which of several possible faults comes first is not.
- Snapshots.Store.AddBalance: six of the store's writes are modelled; the others mark their entries in the same way.
- RecoveryAccount.SmartAccount.Approve: a failed action leaves storage alone because the executor drops its working copy; the model checks before it writes.
- SparseTree.Tree.Set: two keys with one path are an error branch, as in the source; nothing bounds how often that happens.
- EvidenceStore.Store.ApplyAll: on failure nothing is said about the store, which the source then throws away.
