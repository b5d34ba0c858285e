# combcore: a verified model of the chain node

combcore follows the Bitcoin chain above a hard-wired checkpoint, extracts the commits each block
carries and keeps them in three places at once: an in-memory child-to-parent map with a tip
(`COMBInfo`), libcomb's stack of loaded blocks, and a LevelDB store behind a batch of up to 10000
blocks that have not been written yet (`NeoInfo`). This project models that machinery down to the
bytes of the store and proves what it keeps, over every run, every write and every interleaving. It
also models the two back-tracers that feed it, the raw block parser, and the wallet text format.

## How the model is built

- **The store** (`KeyValue`, `Layout`) is a finite map from byte strings to byte strings, iterated in
  lexicographic order and changed only by atomic, ordered batches. `Layout.StoreOf(bs)` is the
  exact map that holds the version and a block list `bs`; every scan is proved on it.
- **The node** (`Miner.Node`) is a class with the fields of `COMBInfo`, `NeoInfo`, libcomb's stack and
  the store. Its methods follow neominer.go, combcore.go and db.go; a `log.Panicf` is a `Halt`
  outcome. libcomb is a stack: loading pushes a block's commits, unloading pops one, the height is
  the starting height plus the number of loaded blocks.
- **Agreement** (`ChainState.Agree`) says that memory, libcomb and the store overlaid with its batch
  hold one and the same linked block list, that the batch is exactly that of the blocks not yet on
  disk, and how many are. `Step` gives one call of `neominer_process_block` as a change of state
  and the exact condition under which agreement survives it; `Runs` compares whole runs of blocks and
  flushes with a machine whose only state is the active chain; `LateRecovery` follows the node through a
  load whose clean-up comes late.
- **Sync** is a state machine over the steps of the two goroutines of `btc_sync`, a panic of the worker
  included; its shared state is the node's, so the theorem is about the real store and batch.
- SHA-256 is an uninterpreted function (`digest`); where a result needs it to tell two lists of commits apart,
  that is a premise about those two lists (`ChainState.TellsApart`). A remote node is a finite map from a block's hash to
  its parent (or to the block). The clock, HTTP, JSON, file reads and logging are left out.

## Where the code does not do what it says

- **Reorg to the checkpoint.** The comment on `combcore_reorg` (combcore.go:146-147) says it removes
  all block data after the target. If the target is the checkpoint and the chain is not empty, the lookup by hash
  finds nothing and falls through to the oldest stored block (db.go:299-316), so that block stays
  in the store and in libcomb while the tip goes back below it. The step does not halt, nor does any later
  step of the same sync; the next load does. `Step.StepAgreement` gives the exact condition for agreement,
  `Runs.CheckpointReorgUnloadable` the exact store left behind by the step, `Sync.SyncComplete` that left behind by a
  whole sync, and `Runs.CheckpointReorgRun` is the shortest run that shows it.
- **Zero hash.** A block with the all-zero hash goes into the batch but is discarded by memory
  (combcore.go:115-117). It is one of the refused cases of `Step.StepAgreement`.
- **Abandoned branches.** `Chain` is never pruned, so a parent on an abandoned branch passes the check
  in neominer.go:48 and the walk then halts at combcore.go:157. `Miner.Node.ProcessBlock` states exactly when.
  `Runs.AbandonedBranch` shows that every block a reorg abandons leads there, and that a restart
  recovers; `Runs.AbandonedBranchRun` is the shortest such run.
- **Late deletion.** The handler of a corrupted load unlocks before it deletes (db.go:422-429), so
  syncing can store blocks first, which the deletion then takes away again.
  `LateRecovery.LateHandler` says exactly when that destroys agreement: when the node has flushed a block at or above the
  corrupted height. `LateRecovery.LateRecoveryRun` loses a stored block this way and ends in a store that no
  restart accepts.
- **Known target.** The two tracers test the target against history at different times. `Trace.TracersAgree`
  says exactly when they return the same list: for an unknown target, when its chain is loaded; for a
  known one, unless it is loaded with a chain through its parent. `Sync.NodeTracersAgree` sharpens this for the node's own
  map: a known target makes them differ exactly if it is loaded and not the checkpoint.
- **Block count.** `db_load` counts the dummy block every scan emits, so the logged number is one too
  high (last clause of the first guarantee of `Miner.Node.Load`).

## Model

| member | source | states |
|---|---|---|
| `Step.StepAgreement` | neominer.go:39-76 | After a block whose parent is on the active chain the three views agree on some chain if and only if the parent is not the checkpoint under a non-empty chain and the hash is non-zero and new to the path. |
| `Step.AcceptedStep` | neominer.go:39-76 | An accepted step ends in agreement on the chain cut at the parent with the new block on top, and with the stated number of blocks on disk. |
| `Step.RefusedStep` | neominer.go:51-67 | A refused step (checkpoint reorg, zero hash, repeated hash) leaves no block list on which the views agree. |
| `Miner.Node.ProcessBlock` | neominer.go:39-76 | Unknown parent: halt, nothing changed. Known parent off the path: halt with the whole chain written and nothing deleted. Parent on the path: never a halt, agreement exactly if accepted. Accepted or refused, every atomic write stores a prefix of the chain before, or of the chain cut at the parent with the new block on top. Known hashes are never forgotten. The stored fingerprint is that of `ChainState.FingerprintOfAll`. |
| `Miner.Node.Ingest` | neominer.go:60-73 | On any node whose tip is the parent: batch, memory and libcomb change as `Step` says, a zero hash reaching the batch only, and the batch is written exactly at capacity. |
| `Miner.Node.Reorg` | combcore.go:145-174 | A target on the path at position j leaves the tip there and the same blocks removed from store and libcomb; a target off the path halts before anything is deleted. |
| `Miner.Node.TraceBack` | combcore.go:154-159 | The walk through `Chain` terminates and reaches the target exactly if it is on the active path. |
| `Miner.Node.Unload` | combcore.go:168-170 | The unload loop terminates at the wanted height having popped exactly the blocks above it. |
| `Miner.Node.RemoveBlocksAfter` | db.go:269-286 | One atomic write that removes exactly the keys from a height on. |
| `Miner.Node.CombProcess` | combcore.go:114-143 | Dummy blocks change nothing; a wrong parent or height halts; otherwise the block is pushed, linked and becomes the tip. |
| `Miner.Node.Write` | neominer.go:31-37 | The batch reaches the store in one atomic write and is empty afterwards; a node in agreement stays so, with its whole chain stored. |
| `Miner.Node.constructor` | combcore.go:44-59 | A new node agrees on the empty chain. |
| `Miner.Node.Replay` | db.go:408-447 | The loading loop up to the unlock: a corrupted store is left as it is, memory holds the blocks below the first bad fingerprint, and the handler has its height; without one, it stops exactly on a list that is no chain. |
| `Miner.Node.Load` | db.go:408-450 | A linked, authentic store is replayed completely; at the first bad fingerprint, whatever lies above it, memory keeps the linked blocks below and the store exactly their keys and the version, unless the height is zero, which halts; with good fingerprints and no zero hash loading succeeds if and only if the store holds a chain. |
| `ChainState.FingerprintOfAll` | db.go:50-61 | A block's fingerprint is the digest of all its commits, each 32 bytes, in order, and zero for an empty block. |
| `ChainState.FingerprintTells` | db.go:50-61 | Unless the digest fails to tell them apart, two blocks have the same fingerprint if and only if they have the same commits in the same order. |
| `Miner.Tampered` | db.go:433-440 | A stored block with its old fingerprint counts as corrupt if and only if any commit, or their order, has changed. |
| `Runs.RestartTampered` | db.go:408-450 | Starting on a store with such a block: the chain below it is active again and the store keeps nothing else. |
| `Miner.Node.Recover` | db.go:424-429 | The deferred handler halts at height zero with the store untouched and otherwise cuts the store at the corrupted height in one write. |
| `Miner.FindTarget` | db.go:299-316 | The newest-first search finds a path block itself, and the oldest block when asked for the checkpoint. |
| `ChainState.AgreeExtend` | neominer.go:60-69 | Extending the tip by a fresh, non-zero hash keeps all three views on the longer chain. |
| `ChainState.AgreeRewind` | combcore.go:154-170 | Moving the tip, cutting the store and unloading at the same block keeps agreement on the chain cut there. |
| `ChainState.AgreeUnique` | combcore.go:18-28 | A state agrees with at most one block list and one split between disk and batch. |
| `ChainState.WalkVisits` | combcore.go:154-159 | Following `Chain` from the tip visits the active blocks newest first and ends at the checkpoint. |
| `ChainState.NoAgreementAfterRepeat` | combcore.go:140-141 | Putting a hash of the path on top of the tip closes a cycle in `Chain`. |
| `Runs.Feed` | neominer.go:31-76 | Every run of blocks and flushes, any number of syncs, without a refused step: a halt exactly if a parent is off the chain; otherwise agreement on the simple machine's chain, all of it stored after a flush. Halted or not, each atomic write stored a prefix of the chain as it was after some of the blocks. |
| `Runs.RestartAfterCrash` | db.go:408-450 | Restarting on whatever any write of any such run left behind, one that halted included, succeeds and makes exactly that prefix active again. |
| `Runs.Restart` | db.go:462-480 | Restarting on a stored prefix of a linked chain rebuilds exactly that prefix, with no sanity halt. |
| `Runs.RunLinked` | neominer.go:39-76 | Every run keeps the chain linked, authentic and ending at the last block fed. |
| `Runs.FlushedFingerprint` | db.go:63-79 | After a flush the store's fingerprint is the xor of the active chain's, whatever reorgs led there: each bit is set exactly if an odd number of active blocks have it. |
| `Runs.SyncRun` | btc.go:64-78 | Feeding a trace on a tip or stored ancestor gives the old chain cut there followed by the traced blocks. |
| `Runs.SyncReorgsOnce` | neominer.go:47-53 | Only the first block of a trace can start a reorg. |
| `Runs.SyncAccepted` | neominer.go:47-60 | A trace is accepted if and only if its ancestor is on the active chain and not the checkpoint under a non-empty one. |
| `Runs.CheckpointReorgUnloadable` | combcore.go:145-174 | The store a reorg to the checkpoint leaves behind: the first old block below a new one that names the checkpoint, which is no chain. |
| `Runs.CheckpointReorgRun` | combcore.go:145-174 | Two blocks on the checkpoint, one after the other: no halt, but after a flush a restart halts. |
| `Runs.AbandonedBranch` | combcore.go:154-159 | After a reorg on any node, a block on top of any abandoned one halts, and a restart is on the chain after the reorg. |
| `Runs.AbandonedBranchRun` | combcore.go:154-159 | Four blocks on a new node: three accepted, the fourth, on an abandoned one, halts; a restart has the two active ones. |
| `LateRecovery.WindowOpens` | db.go:415-432 | Where a corrupted load unlocks, memory holds the blocks below the corruption and the store all the old ones. |
| `LateRecovery.WindowStep` | neominer.go:60-73 | A fresh block on the tip keeps that shape, whether or not its step flushes. |
| `LateRecovery.WindowFlushes` | neominer.go:31-37 | A flush overwrites the corrupted blocks at the heights it writes and leaves those above it. |
| `LateRecovery.WindowReorg` | combcore.go:145-174 | A reorg to a block of the chain finds it under the leftovers, deletes them and restores agreement. |
| `LateRecovery.RacingWithoutLeftovers` | neominer.go:31-73 | Without leftovers the shape is agreement. |
| `LateRecovery.LateStore` | db.go:269-286 | What a late deletion leaves in the store, and what the pending batch makes of it. |
| `LateRecovery.LateHandler` | db.go:415-432 | Whenever the deletion comes, the three views agree on some chain afterwards if and only if every block the node has flushed lies below the corrupted height. |
| `LateRecovery.LateRecoveryRun` | db.go:415-432 | Corrupted load, a sync that stores a block, the late deletion, one more sync: the stored block is gone and a restart halts. |
| `Sync.SyncComplete` | btc.go:60-78 | For a trace on any ancestor, in every interleaving, once the final lock is taken each sent block was processed once and in order, the batch is empty and the store holds exactly what libcomb holds, early stop of the producer included: the whole active chain, in agreement, if the blocks are an accepted run, and otherwise, on the checkpoint under a non-empty chain, its first block with the trace on top, which is no chain. |
| `Sync.SyncCrash` | neominer.go:47-53 | The worker can panic only at the first block of a trace whose ancestor is off the active chain, and the store then still holds a prefix of that chain. |
| `Sync.NodeTracersAgree` | btc_direct.go:48-77 | Against the node's own map the tracers return the same list if and only if the target is unknown with its chain loaded, or known and not loaded, or the checkpoint. |
| `Sync.NoDeadlock` | btc.go:60-78 | No interleaving is stuck before the final lock is taken, unless the worker has panicked. |
| `Sync.BehaviourBound` | btc.go:60-78 | Every interleaving ends: at most five steps more than two for each traced block. |
| `Sync.ProcessAccepted` | btc.go:65-72 | The block in flight is always the next one of the run and, in an accepted run, its step is accepted. |
| `Sync.TraceFeeds` | btc.go:74-78 | A chain traced against the node's own map is linked, fresh and free of repeats, starts at a known hash and ends at the target. |
| `Sync.SyncReachesTarget` | btc.go:42-79 | A whole sync to an unknown target is accepted exactly for a good ancestor, and then the tip is the target. |
| `Scans.ScanStored` | db.go:371-406 | Storing a list with increasing heights and scanning any height range emits a dummy block and exactly the blocks in range, in order, with their commits in order; nothing if the range is empty. |
| `Scans.WithinMembers` | db.go:383-386 | The range takes exactly the blocks from its first to its last height, both included. |
| `Scans.LoadBlocks` | db.go:371-406 | The scan loop computes the grouping that `ScanStored` is about, on every store with decodable values. |
| `Scans.RemoveBlock` | db.go:255-267 | Adds one delete for each stored key of the height. |
| `Scans.AddBlock` | db.go:288-297 | Removal of what the store holds at the height, then the block's puts, in this order behind the batch. |
| `Scans.StoreBlock` | db.go:239-253 | Adds the block's puts, commits first, positions counted in a uint32. |
| `Scans.RemoveAfterBatch` | db.go:269-286 | On any store, the collected deletes remove exactly the keys at or above the height. |
| `Scans.CutKeepsVersion` | db.go:269-286 | Suffix deletion from any height leaves the version key of any store alone. |
| `Layout.StoreOfAppend` | db.go:239-253 | Writing a block's batch to the store of a list gives the store of the longer list, and nothing else. |
| `Layout.StoreOfCut` | db.go:269-286 | Cutting at a height keeps the version and exactly the blocks below it. |
| `Layout.MetadataRoundTrip` | db.go:161-175 | Metadata survives its key and value encoding. |
| `Layout.MetadataLayout` | db.go:169-175 | Hash, previous hash, fingerprint, in this order. |
| `Layout.TagLayout` | db.go:155-159 | Height, position, four zero bytes; the key of the block comes first. |
| `Layout.VersionLayout` | db.go:452-460 | Two zero bytes hold the number 2. |
| `Layout.TagRoundTrip` | db.go:149-159 | Height and position survive the commit key encoding. |
| `Layout.AllEntriesSorted` | db.go:155-175 | Version key, then for each block its key directly followed by its commits in order: the layout order is the byte order. |
| `ChainState.StoreOfInjective` | db.go:239-253 | Two block lists with the same store are the same. |
| `Pending.PendingApplied` | db.go:288-297 | Against any store, the pending batch leaves other heights alone and gives each written height exactly its new block, although removal looks only at the store. |
| `Pending.PendingOnBlocks` | db.go:288-297 | On a stored block list, even one shortened since the batch was built, the batch puts its blocks in the place of those at their heights. |
| `Pending.WrittenHeight` | db.go:288-297 | After the write no key of an older block is left at a written height. |
| `Lookups.GetBlockByHash` | db.go:299-316 | The reverse scan loop, proved equal to `ScanBack`. |
| `Lookups.ScanBackStored` | db.go:299-316 | On a stored list the reverse key scan is the newest-first search over the blocks. |
| `Lookups.GetBlockByHeight` | db.go:318-335 | On a stored list: the block of least height at or above the argument, or zero metadata; the seek never lands on a commit entry. |
| `Lookups.FindCommits` | db.go:81-98 | The commit scan loop, proved equal to `SearchAll`. |
| `Lookups.SearchStored` | db.go:81-98 | On every stored list the commit scan agrees with the naive search, each height once for every occurrence. |
| `Lookups.FindInBlocksMembers` | db.go:81-98 | A height is reported exactly when a block there holds the commit. |
| `Lookups.FindInBlocksCount` | db.go:81-98 | A block's height is reported as often as the block holds the commit. |
| `Lookups.FindInBlocksOrder` | db.go:81-98 | Heights are reported in non-decreasing order. |
| `Lookups.StoreFingerprint` | db.go:63-79 | The fingerprint loop, proved equal to `ScanFingerprint`. |
| `Lookups.FingerprintStored` | db.go:63-79 | The store's fingerprint is the xor over its block list. |
| `Lookups.XorHex` | util.go:68-73 | A bit of the result is set exactly if it differs in the operands. |
| `Bits.XorBit` | util.go:70 | The same for one byte. |
| `Lookups.XorLaws` | util.go:68-73 | Order does not matter, zero changes nothing, a second xor undoes the first. |
| `Lookups.StoreParity` | db.go:63-79 | A bit of the store's fingerprint is set exactly if it is set in those of an odd number of blocks. |
| `Lookups.FingerprintChange` | db.go:63-79 | Storing a block changes the store's fingerprint by that of the block, and the same change takes it back. |
| `Trace.RestTrace` | btc_rest.go:11-54 | Returns the unknown hashes back to the first known one, oldest first; an error if the remote node lacks a header; nothing for a known target. |
| `Trace.DirectTrace` | btc_direct.go:48-77 | Same walk over loaded blocks, the target itself never tested first; empty if it breaks off. |
| `Trace.DirectLoadTrace` | btc_direct.go:79-105 | Files are read one by one, and for any target the result is that of the union of all of them. For an unknown target it is the one chain that connects it to history, and empty if and only if there is none. |
| `Trace.LoadedIsAll` | btc_direct.go:91-95 | Every block of every file is read. |
| `Trace.DirectFinds` | btc_direct.go:48-77 | For an unknown target the trace is the one connecting chain, or empty if there is none. |
| `Trace.DirectThroughParent` | btc_direct.go:50-58 | A loaded target, known or not, comes last behind the chain that connects its parent. |
| `Trace.PathConnects` | btc_direct.go:48-77 | What a walk finds is parent-linked, unknown throughout, starts just above a known hash and ends at the target. |
| `Trace.ConnectsIsPath` | btc_direct.go:48-77 | Any such chain is the one the walk finds. |
| `Trace.ConnectsRank` | btc_direct.go:48-77 | No hash occurs twice in a trace. |
| `Trace.PathMonotone` | btc_direct.go:91-103 | Loading more files does not change a walk that has succeeded. |
| `Trace.TracersAgree` | btc_rest.go:18-53 | Both tracers return the same list if and only if the target is unknown and its chain is loaded, or it is known and not loaded with a chain through its parent. |
| `Trace.DirectMonotone` | btc_direct.go:91-103 | Loading more files does not change a trace once it is not empty, for known targets as well. |
| `Trace.RestSend` | btc_rest.go:67-98 | Sends the fetched blocks in order, each of the hash asked for; stops at the first fetch that fails and halts at the first answer with another hash. |
| `Trace.DirectSend` | btc_direct.go:139-141 | Sends every block of the chain in order. |
| `Reversal.ReverseInPlace` | util.go:111-116 | The in-place swap loop reverses the array. |
| `BlockFormat.BlockRoundTrip` | btc.go:116-176 | On every well-formed block followed by any bytes the parser does not panic, stops exactly there and returns both hashes byte-reversed and all version-0 32-byte witness programs in output order. |
| `BlockFormat.TxRoundTrip` | btc.go:131-171 | A transaction, legacy or segwit with any witness stacks, is consumed exactly and yields its programs. |
| `BlockFormat.VarintRoundTrip` | btc.go:93-114 | Every compact size is read back with its own length. |
| `Parser.VarintBytes` | btc.go:93-114 | The value of each form, byte by byte, and where it panics. |
| `BlockFormat.WrappedSkip` | btc.go:146 | A declared size near 2^64 wraps, and the parser goes on at the wrapped place. |
| `BlockFormat.NegativeCount` | btc.go:164 | A declared count of 2^63 or more reads nothing. |
| `BlockFormat.InputCountRoundTrip` | btc.go:133-142 | With at least one input the segwit marker and the input count are told apart. |
| `BlockFormat.OutputRoundTrip` | btc.go:150-159 | An output yields its script's last 32 bytes exactly if the script is a version-0 witness program of 32 bytes. |
| `BlockFormat.ProgramsSnoc` | btc.go:150-159 | Each output adds its last 32 bytes behind the commits before it, exactly if its script is 0, 32 and 32 bytes. |
| `BlockFormat.AllProgramsOfOutputs` | btc.go:131-171 | The commits of a block are those of all its outputs, transaction after transaction. |
| `Parser.Parse` | btc.go:116-176 | The parser's loops, on all inputs, out-of-bounds slices included, compute the total function the round trips are about. |
| `Parser.TxLoop` | btc.go:131-171 | The transaction loop. |
| `Parser.InputLoop` | btc.go:143-147 | The input loop, skipping by a wrapping 64-bit length. |
| `Parser.OutputLoop` | btc.go:150-159 | The output loop, collecting commits. |
| `Parser.WitnessLoop` | btc.go:161-168 | The witness loops. |
| `BlockFile.ParseBlockFile` | btc_direct.go:14-46 | The framing loop on all inputs, in a reused buffer that may be longer than the file. |
| `BlockFile.FramesRoundTrip` | btc_direct.go:29-45 | A file of well-formed blocks followed by its end, or by any number of stray bytes that do not read as the magic together with what the buffer holds after them, yields all of the blocks. |
| `BlockFile.FramesFiled` | btc_direct.go:40-43 | Every parsed block is filed under its own hash. |
| `BlockFile.AddAllMembers` | btc_direct.go:40-43 | The blocks of a file join those filed before; of two with one hash the last stays. |
| `Hex.HexRoundTrip` | util.go:34-43 | Reading printed bytes gives them back. |
| `Hex.HexInverse` | util.go:34-43 | Printing what was read from upper-case digits gives the text back. |
| `Hex.HexToByte` | util.go:34-40 | Each pair of digits, of either case, gives the byte it writes; a last odd character is ignored. |
| `Bits.JoinBit` | util.go:37 | The bits of two joined values, digits or not. |
| `Hex.ToHexDigits` | util.go:64-66 | Each byte is printed as two upper-case digits, the high one first. |
| `Hex.CheckHex` | util.go:9-21 | True exactly for the right length and upper-case digits only. |
| `Hex.ParseHex` | util.go:44-62 | Succeeds exactly on 64 digits of either case; each pair gives the byte it writes, and the result prints back as the input in upper case. |
| `Bytes.BigEndianOrder` | util.go:75-85 | Byte order of big-endian numbers of one width is numeric order. |
| `Bytes.LessParts` | db.go:386-388 | The iteration order: the byte at the first difference decides, and a prefix comes first. |
| `Bytes.BigEndianRoundTrip` | util.go:75-97 | Decoding undoes encoding for every number that fits. |
| `Bytes.FromBigEndianRoundTrip` | util.go:75-97 | Encoding undoes decoding. |
| `Wallet.TextRoundTrip` | wallet.go:211-231 | Loading the text of any list of constructs hands libcomb the same constructs in the same order. |
| `Wallet.LineRoundTrip` | wallet.go:172-209 | On both networks an exported line makes one of the six branches fire, once, with the construct it came from. |
| `Wallet.PayloadRoundTrip` | wallet.go:71-170 | Every construct survives its fields, a decider its padded three-field form. |
| `Wallet.PayloadLayout` | wallet.go:445-484 | The fields of each kind and their order on the line. |
| `Wallet.PayloadSizes` | wallet.go:71-170 | The lengths each loader takes, and no others. |
| `Wallet.DeciderForms` | wallet.go:154-170 | Both formats give the same decider. |
| `Wallet.DeciderPadding` | wallet.go:467-470 | An exported decider stands behind 64 zeros. |
| `Wallet.TwoFieldDecider` | wallet.go:163-167 | A line of the new format loads. |
| `Wallet.NestedPrefix` | wallet.go:172-209 | The tests trim the line and do not exclude one another: a second prefix in front of an exported line hides it if and only if the line's own has had its turn by then. |
| `Wallet.PrefixForms` | combcore.go:71-87 | The prefixes, on the test network with backslashes. |
| `Wallet.PrefixClash` | combcore.go:71-92 | No prefix of a network starts a line of another kind. |
| `Wallet.Export` | wallet.go:486-507 | One line for each construct held: of every kind all of its list in its order, keys first, then stacks, transactions, deciders, merkle segments, unsigned ones. |
| `Wallet.ArrangedInOrder` | wallet.go:486-507 | There is exactly one such arrangement. |
| `Wallet.ExportConstruct` | wallet.go:445-484 | Each construct's line. |
| `Wallet.Load` | wallet.go:211-231 | Loads the lines of the text, whatever they are: empty ones skipped, malformed ones without effect, the last one with or without a newline. |
| `Wallet.SplitJoins` | wallet.go:215 | The lines of a text hold no newline, and joined by newlines they are the text. |
| `Wallet.SplitUnique` | wallet.go:215 | No other list of lines does that. |
| `Wallet.UnterminatedRoundTrip` | wallet.go:215-226 | A text whose last line has no newline replays the constructs of all lines, the last included. |
| `Wallet.ExportThenLoad` | wallet.go:486-507 | Export followed by load replays every construct: of each kind exactly the list held, in its order, and the kinds in theirs. |

## Left out

- Miner.Node.ProcessBlock: heights stay below 2^64 - 1, the last height a full scan reaches, a block has at most 2^32 commits, because positions are uint32, and the checkpoint hash is not zero; wrap-around beyond that is not modelled.
- Runs.Feed: the same bounds for every block of the run. A refused step ends the runs it is about; `Step.StepAgreement` and `Miner.Node.ProcessBlock` say what such a step leaves.
- Trace.DirectLoadTrace: parent links are acyclic (given as a rank), since on a cycle the source's loop would not end, and files that share a block agree on it.
- Trace.RestTrace: the remote node's parent links are acyclic, for the same reason.
- Sync.TraceFeeds: the zero hash is not among the traced hashes.
- Parser.Parse: a read past the length of a block's data is a panic, also where the source would read on within the capacity of the file buffer.
- LateRecovery.LateHandler: the deletion comes between two steps of the node, not in the middle of one, and stored blocks lie above the checkpoint.
- LateRecovery.WindowReorg: a reorg before the deletion to the checkpoint, or to a hash that a corrupted block also has, is not followed.
- Errors returned by LevelDB: every read and write succeeds and every batch is atomic.
- LevelDB, libcomb, SHA-256, HTTP, JSON, globbing and file reads themselves.
- `db_get_full_block_by_height` (db.go:337-369): it decodes the metadata value for every commit, so it does not return the stored block.
- `db_get_version`, legacy stores, inspect and debug helpers, status strings, progress, signals and the command line.
- `wallet_export_history`, and the wallet's JSON forms (`wallet_parse_*`, `wallet_stringify_*`): field by field copies through the hex conversions above.
- libcomb's verdict on a construct: a load is the sequence of calls made to its loaders.
- control.go, rpc.go, ghettoapi.go, main.go and config.go.
- Non-ASCII text in hex input: upper-casing is modelled on ASCII letters.
