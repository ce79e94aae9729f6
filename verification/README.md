# Verified model of Azure Clean Room components

A Dafny model of four parts of the repository, with proofs of what each of them promises.

- **The encrypted block file layer of the blobfuse launcher** (`ByteStore`, `Aead`, `ChunkedFile`,
  `FileSession`, `Encryption`, `ConcurrentStaging`, `FileRoundTrip`, `AlignedReads`, `Reopen`,
  `RacingOpens`). A plaintext file is stored as AES-GCM chunks of nonce, ciphertext and tag, with a
  padding trailer. The class `Encryptor` follows the component call by call; `FileSession` gives the effect
  of each call on one file; the theorems say that the stored bytes implement a plain map from blocks to
  bytes, for every interleaving of concurrent staging calls. The cipher is known only by its contract.
- **The CCF network provider** (`NaturalOrder`, `NodeNames`, `Snapshots`, `CcfNodes`, `ContainerGroups`, `StableSort`,
  `RemovalChoice`, `InstanceGuard`, `NetworkUpdate`, `Provisioning`, `Recovery`). Names are ordered by zero-padded
  numbers; nodes are picked, removed, replaced and recovered by concurrent tasks while CCF and the
  infra provider change under them. These parts are transition systems, and the theorems hold in every
  reachable state.
- **The lazily initialised client manager of the governance sidecar** (`InitOnce`), as atomic steps of
  any number of callers around one semaphore.
- **The pull-request impact resolver** (`DependencyRoots`, `ImpactResolver`).

`dafny verify dfyconfig.toml` checks the whole project.

## What the code does not guarantee

Where a natural property fails, the model keeps the code's behaviour, exhibits the failure and proves
exactly when the property does hold.

- Reopening a committed file rebuilds the record with the block count where a created file holds the
  last index. Padding is recovered, the farthest block is one too far, and the size reported after any
  calls into a reopened file is right exactly when they go more than one block past the old end, or end
  with the next block and the padding of the old last one (`Reopen.ReopenSizeExactlyWhen`). The blocks
  themselves read back (`Reopen.ReopenStageCommit`).
- The two maps of the encryptor are loaded and stored separately, so concurrent first calls into an
  uncached file can each build a record and lose one. Blocks are lost in some interleaving exactly when
  the calls stage a new block and not all the same one, and the committed file then reports no bytes at
  all (`RacingOpens.Race.CoversExactlyWhen`, `RacingOpens.Race.BlockIsLost`); a call can fail for want of a
  record exactly when there is a second one (`RacingOpens.Race.AllSucceedExactlyWhen`).
- A read copies one block from its first byte whatever the offset and the length asked for. It returns
  the plaintext, for every plaintext, exactly when it is empty or starts at a block boundary and reports
  at most one block (`AlignedReads.ReadsBackExactlyWhen`).
- Padding to nine places orders all names naturally exactly for runs of at most nine digits
  (`NaturalOrder.BoundIsExact`). Beyond that the model says exactly when the next node ordinal is fresh
  (`NodeNames.StartOrdinalFreshExactlyWhen`), when the search for the latest snapshot finds it
  (`Snapshots.FoundIsNewestExactlyWhen`), and when a replacement can lose a node because a new name is in
  use (`Provisioning.UnderProvisionedOrdinals`, `Provisioning.BillionthNodeIsLost`).
- `DeleteNode` compares the instance id and deletes in two requests. A container group created under
  the same name in between is deleted although its node is live (`InstanceGuard.LateDeletionHappens`).
  For an entry with a recorded id that gap is the only way (`InstanceGuard.NoLiveInstanceDeleted`), since
  a group brings one node into the network: its containers never restart
  (src/ccf/caci-ccf-provider/CAciNodeProvider.cs:1063). For an entry without a recorded id the log message
  says that the group is not deleted, but the code deletes it
  (src/ccf/caci-ccf-provider/CAciNodeProvider.cs:604-607); the model follows the code
  (`InstanceGuard.OnlyOwnGroupExactlyWhenRecorded`).
- The configuration object is published before its AuthMode is assigned, so a call that passes the
  unlocked test in between can return it without one (`InitOnce.ConfigCanEscapeEarly`);
  `InitOnce.IncompleteReturnExactlyWhen` says exactly which calls can.
- A changed file that no group depends on runs everything when it is alone, and not when a known file
  changes too (`ImpactResolver.FailingOpenIsNotMonotone`); `ImpactResolver.MoreChangesRunMore` says exactly
  when a larger change loses a build or a stage. Dependency roots miss suffixless files, globs whose star
  is inside a component, top-level directories written without a slash and everything below hidden
  directories; `DependencyRoots.NeverMissedExactlyWhen` says exactly which references can miss a rebuild.

## Model

| member | source | states |
|---|---|---|
| `ByteStore.Writes` | src/blobfuse-launcher/encryptor/encryptor.go:260 | A positioned write stores the data at its offset, keeps every other byte of the file and fills a gap with zeros. |
| `ByteStore.ReadSame` | src/blobfuse-launcher/encryptor/encryptor.go:307-311 | A positioned read of the window that was written returns the data. |
| `ByteStore.ReadDisjoint` | src/blobfuse-launcher/encryptor/encryptor.go:260 | A read of a disjoint window returns what was there before the write. |
| `ByteStore.Int64RoundTrip` | src/blobfuse-launcher/encryptor/utils.go:108-130 | Every int64, negative ones included, survives the big-endian uint64 trailer. |
| `Aead.SoundCipherExists` | src/blobfuse-launcher/encryptor/aes_encryptor.go:42-87 | The seal and open contract the theorems assume can be met. |
| `ChunkedFile.SpanIsProduct` | src/blobfuse-launcher/encryptor/encryptor.go:257 | The added-up chunk and block offsets are the products the code computes. |
| `ChunkedFile.BlockAtIsQuotient` | src/blobfuse-launcher/encryptor/encryptor.go:303 | Counting the blocks before an offset is the division the code computes. |
| `ChunkedFile.WriteChunkFraming` | src/blobfuse-launcher/encryptor/encryptor.go:244-260 | Staging block i makes block i decrypt to the padded data, leaves the decryption of every other stored block unchanged, and ends the file no earlier than the chunk. |
| `ChunkedFile.CommitFraming` | src/blobfuse-launcher/encryptor/utils.go:25-38 | After a commit the length has quotient farthest+1 and remainder 8 by the chunk size, the trailer decodes to the padding, and the size recomputed from disk is the size reported from memory. |
| `ChunkedFile.CommitKeepsBlocks` | src/blobfuse-launcher/encryptor/utils.go:108-112 | The trailer overlaps no chunk up to the farthest. |
| `Encryption.Encryptor.constructor` | src/blobfuse-launcher/encryptor/encryptor.go:29-36 | A new component has no files, handles or records. |
| `Reopen.NotedIsFarthest` | src/blobfuse-launcher/encryptor/encryptor.go:266-271 | After any sequence of locked updates the record is the one it started from or that of the call that first reached the farthest block, and no call went farther. |
| `Encryption.EncryptedChunkOffset` | src/blobfuse-launcher/encryptor/encryptor.go:257 | The multiplied chunk address is where the chunks before it end. |
| `Encryption.Encryptor.CreateFile` | src/blobfuse-launcher/encryptor/encryptor.go:133-155 | The file exists with its old bytes, a handle and an empty record; no other file changes. |
| `Encryption.Encryptor.GetFileHandleAndLastChunkMeta` | src/blobfuse-launcher/encryptor/utils.go:41-106 | The record is the cached one or the one rebuilt from disk; each error path leaves exactly the handle and record the code leaves. |
| `Encryption.Encryptor.StageData` | src/blobfuse-launcher/encryptor/encryptor.go:237-275 | The call has the effect of `FileSession.Staged` on its file, in success and in every error, and none on other files. |
| `Encryption.Encryptor.WriteTrailer` | src/blobfuse-launcher/encryptor/utils.go:108-119 | The padding is stored in 8 bytes after the farthest chunk of that file only. |
| `Encryption.Encryptor.CommitData` | src/blobfuse-launcher/encryptor/encryptor.go:109-131 | The call has the effect of `FileSession.Committed` on its file and none on other files. |
| `Encryption.Encryptor.GetAttr` | src/blobfuse-launcher/encryptor/encryptor.go:191-232 | The size comes from the record while a handle is cached and from the stored bytes otherwise, with the code's errors. |
| `Encryption.Encryptor.CheckForActualFileSize` | src/blobfuse-launcher/encryptor/utils.go:25-39 | The size recomputed from the stored length and trailer, zero when there is no room for a trailer. |
| `Encryption.Encryptor.ReadInBuffer` | src/blobfuse-launcher/encryptor/encryptor.go:278-324 | The buffer ends up as `ChunkedFile.ReadInto` says, and untouched when the read fails. |
| `ConcurrentStaging.File.WriteKeepsShape` | src/blobfuse-launcher/encryptor/encryptor.go:257-260 | A chunk write by any call keeps every placed block placed and the record valid. |
| `ConcurrentStaging.File.WriteKeepsContents` | src/blobfuse-launcher/encryptor/encryptor.go:257-260 | A chunk write keeps every block decrypting to what its last writer staged. |
| `ConcurrentStaging.File.RecordKeepsInv` | src/blobfuse-launcher/encryptor/encryptor.go:266-271 | The locked update keeps the invariant. |
| `ConcurrentStaging.File.RunKeepsInv` | src/blobfuse-launcher/encryptor/encryptor.go:237-275 | Every state of every interleaving satisfies the invariant. |
| `ConcurrentStaging.File.FarthestBlockIsStored` | src/blobfuse-launcher/encryptor/encryptor.go:257-271 | In every reachable state the block the record names is completely stored, and the padding lies between 0 and the block size. |
| `ConcurrentStaging.File.InterleavingsAgree` | src/blobfuse-launcher/encryptor/encryptor.go:257-271 | All interleavings of calls to distinct blocks end with the same record, length and decrypted blocks. |
| `ConcurrentStaging.File.SizesAgree` | src/blobfuse-launcher/encryptor/encryptor.go:222-229 | Whatever was staged, the size in memory before the commit is the size on disk after it. |
| `ConcurrentStaging.File.FinishedFile` | src/blobfuse-launcher/encryptor/encryptor.go:237-275 | When all calls have finished every block is stored, the record is the last block with its padding, and the file ends with it. |
| `ConcurrentStaging.File.CommittedSize` | src/blobfuse-launcher/encryptor/encryptor.go:109-131 | Both sizes are the length of the staged plaintext. |
| `ConcurrentStaging.File.ReadReturnsSlice` | src/blobfuse-launcher/encryptor/encryptor.go:278-324 | Round trip: after any interleaving and the commit, a block-aligned read that reports at most one block returns exactly that slice of the plaintext, cut off at the end of the file. |
| `ConcurrentStaging.File.ReadCopiesBlock` | src/blobfuse-launcher/encryptor/encryptor.go:303-322 | Any non-empty read, at any offset in a block and with any buffer, reports what lies before the end of the file and copies that block from its first byte. |
| `FileRoundTrip.CallIsTwoSteps` | src/blobfuse-launcher/encryptor/encryptor.go:237-275 | A staging call that runs alone on an open file is its chunk write followed by its record update, and succeeds. |
| `FileRoundTrip.SequentialCallsAreARun` | src/blobfuse-launcher/encryptor/encryptor.go:237-275 | Calls made one after the other are one of the interleavings and refine the map from blocks to bytes. |
| `FileRoundTrip.CreateStageCommitSize` | src/blobfuse-launcher/encryptor/encryptor.go:109-233 | Create, stage, commit: the size attribute before and after the commit is the length of the reference plaintext. |
| `FileRoundTrip.CreateStageCommitRead` | src/blobfuse-launcher/encryptor/encryptor.go:133-324 | Create, stage, commit, read: a block-aligned read of at most one block returns the slice of the reference plaintext. |
| `AlignedReads.EveryPlaintextIsStaged` | src/blobfuse-launcher/encryptor/encryptor.go:237-275 | For every byte sequence there is a run of staging calls whose plaintext it is. |
| `AlignedReads.UnalignedReadFails` | src/blobfuse-launcher/encryptor/encryptor.go:303-320 | For every offset inside a block there is a plaintext for which a read there returns a wrong byte. |
| `AlignedReads.LongReadFails` | src/blobfuse-launcher/encryptor/encryptor.go:305-322 | For every read that reports more than a block there is a plaintext and a buffer for which it returns a wrong byte. |
| `AlignedReads.ReadsBackExactlyWhen` | src/blobfuse-launcher/encryptor/encryptor.go:278-324 | A read returns the plaintext asked for, whatever was staged and in whatever order, if and only if it is empty or starts at a block boundary and reports at most one block. |
| `Reopen.CommitMakesCommitted` | src/blobfuse-launcher/encryptor/utils.go:108-119 | A commit leaves an uncached file whose length and trailer encode the record. |
| `Reopen.ReopenIsOnePast` | src/blobfuse-launcher/encryptor/utils.go:63-87 | Reopening recovers the padding exactly and puts the farthest block one too far. |
| `Reopen.ReopenAndCommit` | src/blobfuse-launcher/encryptor/encryptor.go:109-131 | Reopening and committing with nothing staged grows the reported size by exactly one block and keeps every block readable. |
| `Reopen.StagedIntoReopened` | src/blobfuse-launcher/encryptor/utils.go:41-106 | After any number of calls into a reopened file the record is the calls noted on top of the block one past the old end. |
| `Reopen.ReopenStageCommit` | src/blobfuse-launcher/encryptor/encryptor.go:109-275 | A committed file is reopened, staged into by any calls of at most a block and committed: it is a committed file again, its size is that of this record, every staged block reads back as last staged and every other old block as before. |
| `Reopen.ReopenSizeExactlyWhen` | src/blobfuse-launcher/encryptor/utils.go:82-87 | That size is the one the same calls would have given before the commit if and only if they go more than one block past the old end, or end with the next block and the padding of the old last one. |
| `RacingOpens.Race.ExecKeepsInv` | src/blobfuse-launcher/encryptor/utils.go:49-103 | With the handle lookup, the handle store, the size, the trailer and the record store as separate steps, every interleaving of stage calls keeps sizes and records well formed. |
| `RacingOpens.Race.CoversExactlyWhen` | src/blobfuse-launcher/encryptor/utils.go:49-87 | In every interleaving of stage calls into an uncached file the record a commit uses reaches every block of a finished call, if and only if the calls stage only blocks the file has or all stage the same block. |
| `RacingOpens.Race.BlockIsLost` | src/blobfuse-launcher/encryptor/utils.go:49-87 | Otherwise some interleaving lets every call succeed, leaves a record that ends before one of their blocks, and the file reports size zero once it is committed. |
| `RacingOpens.Race.AllSucceedExactlyWhen` | src/blobfuse-launcher/encryptor/utils.go:90-98 | In every interleaving every call succeeds if and only if there is at most one: a second one can find the handle before the record. |
| `NaturalOrder.TokenOrdering` | src/ccf/ccf-provider/Utils.cs:72-79 | Token sequences with the same skeleton and short numbers compare as their number tuples. |
| `NaturalOrder.NaturalOrdering` | src/ccf/ccf-provider/Utils.cs:72-79 | Two names with the same skeleton and digit runs of at most nine digits compare, padded, as their number tuples. |
| `NaturalOrder.MixedLengths` | src/ccf/ccf-provider/Utils.cs:78 | A number of at most nine digits is placed before one of ten exactly when it is at most the longer one with its last digit dropped. |
| `NaturalOrder.BoundIsExact` | src/ccf/ccf-provider/Utils.cs:72-79 | Padding gives the natural order for all names with runs of at most k digits if and only if k is at most nine. |
| `NaturalOrder.SplitAtSymbol` | src/ccf/ccf-provider/Utils.cs:75-78 | A character that is not a digit splits a name into parts that are padded independently. |
| `NaturalOrder.LastByPaddedIsGreatest` | src/ccf/ccf-provider/CcfNetworkProvider.cs:252-254 | The last name in padded order is not before any other. |
| `NodeNames.CompareNames` | src/ccf/ccf-provider/CcfNetworkProvider.cs:252-254 | Whatever digits the network name contains, two nodes of it with ordinals below 10^10 are ordered by ordinal, except that one of at most nine digits comes before one of ten exactly when it is at most the longer one with its last digit dropped. |
| `NodeNames.StartOrdinalFreshExactlyWhen` | src/ccf/ccf-provider/CcfNetworkProvider.cs:252-254 | For every listing of nodes with 32-bit ordinals, the start ordinal exceeds every existing one exactly when no ordinal has ten digits, or no shorter one exceeds the largest with its last digit dropped and the largest is not the largest 32-bit integer. |
| `NodeNames.NodeNameInjective` | src/ccf/ccf-provider/CcfNetworkProvider.cs:2400 | Different ordinals give different names, negative ones included. |
| `NodeNames.NewNodeNames` | src/ccf/ccf-provider/CcfNetworkProvider.cs:2394-2435 | The creation loop, whose counter wraps around at the 32-bit limit, makes the names of a batch, each once. |
| `NodeNames.BatchReusesExactlyWhen` | src/ccf/ccf-provider/CcfNetworkProvider.cs:1282-1326 | A batch from the start ordinal has the requested size, and one of its names is in use exactly when the largest ordinal of at most nine digits exceeds the largest one with its last digit dropped and one of ten digits is at most the batch size past it. |
| `Snapshots.SnapshotOrder` | src/ccf/ccf-provider-common/AzFileShare.cs:241-243 | Snapshot names with numbers below 10^9 are ordered by snapshot number, then by evidence number. |
| `Snapshots.SeqNoOf` | src/ccf/ccf-provider-common/AzFileShare.cs:248 | The number parsed out of a snapshot name is the snapshot number if that is an int, and parsing fails otherwise. |
| `Snapshots.CollectCommitted` | src/ccf/ccf-provider-common/AzFileShare.cs:224-239 | The loop collects exactly the committed snapshot files, in order. |
| `Snapshots.LatestIsGreatest` | src/ccf/ccf-provider-common/AzFileShare.cs:312-313 | The snapshot picked on a share is lexicographically the greatest pair of numbers there. |
| `Snapshots.FindLatestSnapshot` | src/ccf/ccf-provider-common/AzFileShare.cs:296-324 | The path returned is that of the latest committed snapshot, or only the directory exactly when there is none. |
| `Snapshots.ScanFailsExactlyWhen` | src/ccf/ccf-provider-common/AzFileShare.cs:248 | The search over the shares fails exactly when the latest snapshot on some share of the network has no parsable number. |
| `Snapshots.ScanIsMaximum` | src/ccf/ccf-provider-common/AzFileShare.cs:241-262 | Whatever the files are called, the share found has as its latest a snapshot with the number found, which is positive and the maximum over the latest snapshots of all shares of the network. |
| `Snapshots.NumbersDecide` | src/ccf/ccf-provider-common/AzFileShare.cs:241-243 | Snapshot names with different numbers of at most ten digits are ordered by number, except that one of at most nine digits comes before one of ten exactly when it is less than the longer one with its last digit dropped. |
| `Snapshots.FoundIsNewest` | src/ccf/ccf-provider-common/AzFileShare.cs:204-279 | With well-formed names below 10^9 the search succeeds, no committed snapshot on any share of the network has a higher number than the one found, and no share is found exactly when no number is positive. |
| `Snapshots.FoundIsNewestExactlyWhen` | src/ccf/ccf-provider-common/AzFileShare.cs:204-279 | With numbers up to the 32-bit limit the search finds the newest number on the network if and only if some share that has it has no number of at most nine digits that reaches it with its last digit dropped. |
| `Snapshots.FindShareWithLatestSnapshot` | src/ccf/ccf-provider-common/AzFileShare.cs:204-279 | The loop computes the search the three lemmas are about, and stops at the first latest snapshot without a number. |
| `InitOnce.NextKeepsInv` | src/governance/sidecar/CcfClientManager.cs:38-58 | Every step of every caller keeps the invariant that ties each caller's position to the semaphore and the fields. |
| `InitOnce.InitialisedOnce` | src/governance/sidecar/CcfClientManager.cs:114-183 | In every run a field that is non-null keeps its object for ever, and an AuthMode once set stays set. |
| `InitOnce.SameResults` | src/governance/sidecar/CcfClientManager.cs:38-58 | All callers that succeed get the same configuration and the same client. |
| `InitOnce.SemaphoreSafety` | src/governance/sidecar/CcfClientManager.cs:43-54 | At most one caller is inside, it is the holder, and no caller waits for the semaphore it holds. |
| `InitOnce.IncompleteReturnExactlyWhen` | src/governance/sidecar/CcfClientManager.cs:116-182 | For every reachable state in which a call makes its unlocked test: some continuation has this call return a configuration without AuthMode if and only if the holder of the semaphore then stood between its two assignments; so never when the semaphore was free. |
| `InitOnce.LockedCallReturnsComplete` | src/governance/sidecar/CcfClientManager.cs:118-182 | A call that waits for the semaphore or has taken it never returns a configuration without AuthMode. |
| `InitOnce.ConfigCanEscapeEarly` | src/governance/sidecar/CcfClientManager.cs:116-164 | A reachable state in which a caller has returned a configuration whose AuthMode is not set. |
| `InitOnce.NoDeadlock` | src/governance/sidecar/CcfClientManager.cs:176-179 | While a caller is unfinished some caller can step, whatever the initialisers do. |
| `InitOnce.FailureIsOwn` | src/governance/sidecar/CcfClientManager.cs:118-179 | A caller fails only because an initialiser it started itself, or its own logging of the configuration, threw. |
| `StableSort.SortDescendingSpec` | src/ccf/ccf-provider/CcfNetworkProvider.cs:2182 | OrderByDescending gives a descending permutation. |
| `StableSort.EqualKeysInOrder` | src/ccf/ccf-provider/CcfNetworkProvider.cs:2182 | Elements with equal keys stand in the order they came in. |
| `RemovalChoice.TakeCandidates` | src/ccf/ccf-provider/CcfNetworkProvider.cs:2190-2217 | The loop returns exactly the longest eligible prefix up to the request, or aborts with the first primary in it; a request that is not positive takes everything. |
| `RemovalChoice.PickNodesToRemove` | src/ccf/ccf-provider/CcfNetworkProvider.cs:2130-2225 | Nodes are returned if and only if the primary has not shifted and none of those due is primary, and then they are exactly the eligible prefix of the priority order. |
| `RemovalChoice.TakenAreLive` | src/ccf/ccf-provider/CcfNetworkProvider.cs:2191-2197 | With distinct node ids the nodes returned are listed, not retired and pairwise distinct. |
| `RemovalChoice.UnhealthyFirst` | src/ccf/ccf-provider/CcfNetworkProvider.cs:2160-2170 | No healthy node is taken while a live unhealthy one is left. |
| `RemovalChoice.SlowestFirst` | src/ccf/ccf-provider/CcfNetworkProvider.cs:2180-2185 | A live healthy node that is passed over was heard from more recently than any healthy node taken, or equally recently and its acknowledgement is reported later. |
| `InstanceGuard.ExecKeepsInv` | src/ccf/ccf-provider/CcfNetworkProvider.cs:2227-2358 | Every run of removal and cleanup tasks, creations, teardowns, joins and retirements keeps the invariant. |
| `InstanceGuard.DeletionsAreGuarded` | src/ccf/ccf-provider/CcfNetworkProvider.cs:2318-2358 | A group is deleted only on behalf of a captured CCF entry that had become removable; with a recorded id it is the recorded group if and only if it was not created after the comparison. |
| `InstanceGuard.NoLiveInstanceDeleted` | src/ccf/caci-ccf-provider/CAciNodeProvider.cs:571-609 | In every run, for every deletion on behalf of an entry with a recorded id: every node that ever ran in the deleted group is the removable node itself if and only if the group was not created after the comparison. |
| `InstanceGuard.LateDeletionHappens` | src/ccf/caci-ccf-provider/CAciNodeProvider.cs:579-593 | A run in which a live node's group is deleted between comparison and deletion. |
| `InstanceGuard.UnrecordedDeletionHappens` | src/ccf/caci-ccf-provider/CAciNodeProvider.cs:602-608 | For every name, a run in which an entry of that name without a recorded id deletes a live node's group. |
| `InstanceGuard.OnlyOwnGroupExactlyWhenRecorded` | src/ccf/caci-ccf-provider/CAciNodeProvider.cs:585-608 | For every entry: in all runs its deletions outside the gap take only the group of its own node, if and only if it recorded an id. |
| `NetworkUpdate.Update.StepKeepsFlags` | src/ccf/ccf-provider/CcfNetworkProvider.cs:232-374 | Every step keeps each batch that was started recorded in a flag, or about to be. |
| `NetworkUpdate.Update.RefreshLosesNoChange` | src/ccf/ccf-provider/CcfNetworkProvider.cs:376-404 | A run that finishes has sent a server list exactly when it started a cleanup, add or remove batch with a task in it, so whenever it changed a group; the list is exactly the groups not reported as needing replacement. |
| `NetworkUpdate.Update.ReadyCount` | src/ccf/ccf-provider/CcfNetworkProvider.cs:283-288 | When a replacement is considered, the endpoints last listed are the groups there are, and nodeCount in number. |
| `NetworkUpdate.Update.StepCarriesOn` | src/ccf/ccf-provider/CcfNetworkProvider.cs:292-366 | Every step of a replacement, failed or not, keeps the groups between those at its start without the unhealthy ones and those at its start with the batch, and exactly as planned while nothing failed. |
| `Provisioning.NeverUnderProvisioned` | src/ccf/ccf-provider/CcfNetworkProvider.cs:288-366 | From the point the count equals nodeCount, when none of the next nodeCount names is in use, every later state of every run, failed or not, has at least nodeCount groups. |
| `Provisioning.UnderProvisionedExactlyWhen` | src/ccf/ccf-provider/CcfNetworkProvider.cs:346-366 | From that point some continuation has fewer than nodeCount groups if and only if one of the next nodeCount names is in use. |
| `Provisioning.ReusesNamesExactlyWhen` | src/ccf/ccf-provider/CcfNetworkProvider.cs:346-359 | With the code's start ordinal and groups named by 32-bit ordinals, one of the next nodeCount names is in use exactly when the ordinals overlap in that way. |
| `Provisioning.UnderProvisionedOrdinals` | src/ccf/ccf-provider/CcfNetworkProvider.cs:288-366 | So a network at the wanted count can lose a node in some continuation if and only if its ordinals overlap; networks with ordinals below 10^9 never do. |
| `Provisioning.OverlapLosesANode` | src/ccf/ccf-provider/CcfNetworkProvider.cs:346-366 | Every network of the wanted size whose ordinals overlap has a run that ends with fewer groups. |
| `Provisioning.BillionthNodeIsLost` | src/ccf/ccf-provider/CcfNetworkProvider.cs:346-366 | A run with nodeCount 2 and groups 10^9 - 1 and 10^9 can end with fewer than two groups. |
| `NetworkUpdate.Update.FinalCount` | src/ccf/ccf-provider/CcfNetworkProvider.cs:288-366 | For the answers a run decides with: when no group is unhealthy or one of them runs the primary it leaves the groups alone; otherwise, if it finishes, the groups are those there were, plus the batch, minus the unhealthy ones a listed node may delete, and so nodeCount plus the unhealthy ones no listed node could delete minus the new names that were in use. |
| `Recovery.KeepAndRest` | src/ccf/ccf-provider/CcfNetworkProvider.cs:483-485 | Sorting splits the candidates into one with the greatest number and all the others. |
| `Recovery.KeepsLongestLedger` | src/ccf/ccf-provider/CcfNetworkProvider.cs:438-514 | In whatever order candidates come up, the one kept has the greatest last signed sequence number and every other one is passed to deletion. |
| `Recovery.JoinsComeLast` | src/ccf/ccf-provider/CcfNetworkProvider.cs:500-537 | No join node starts before the deletion of every other candidate has completed. |
| `DependencyRoots.CoveredExactlyWhen` | scripts/resolve_pr_impacts.py:204-230 | For a file, directory or glob reference, after ./ or not, with a final slash or not: the root covers every file the reference stands for if and only if a stated condition on the reference holds, top-level references included. |
| `DependencyRoots.NeverMissedExactlyWhen` | scripts/resolve_pr_impacts.py:441-487 | No missed rebuild: for all tables, roots and changes, a changed file that a reference of a group stands for builds the group and runs its stages unless all changes are safe-skip files, if and only if the same condition holds. |
| `DependencyRoots.HiddenIsNeverCovered` | scripts/resolve_pr_impacts.py:211-212 | A reference whose first component is hidden is never covered by its root, however it is written. |
| `ImpactResolver.AnyHit` | scripts/resolve_pr_impacts.py:357 | True exactly when one of the groups was hit. |
| `ImpactResolver.ResolveFromGroups` | scripts/resolve_pr_impacts.py:348-378 | The enabled builds are the direct hits plus the shared group when a dependent group is hit, run-build says whether there are any, and a stage is enabled exactly when one of its groups is hit directly. |
| `ImpactResolver.ResolveStages` | scripts/resolve_pr_impacts.py:367-378 | The enabled stages are those with a required group among the direct hits. |
| `ImpactResolver.Resolve` | scripts/resolve_pr_impacts.py:431-487 | The outputs are those of the decision: manual, safe skip, broad, failing open or selective. |
| `ImpactResolver.OutputsAreClosed` | scripts/resolve_pr_impacts.py:355-378 | Builds are closed under the shared-group rule and every enabled stage has a required group built. |
| `ImpactResolver.MatchedGroupsRun` | scripts/resolve_pr_impacts.py:441-487 | Unless all changes are safe-skip files, a group whose root matches a change is built and every stage that requires it runs. |
| `ImpactResolver.MoreChangesRunMore` | scripts/resolve_pr_impacts.py:441-487 | Enlarging the changed set loses no build if and only if the smaller set did not fail open, or the larger one has a broad file, hits nothing, or hits every group up to the shared-group rule; likewise for stages. |
| `ImpactResolver.FailingOpenIsNotMonotone` | scripts/resolve_pr_impacts.py:478-485 | Next to a known file, an unknown file no longer runs every group. |
| `ImpactResolver.TablesAreWellFormed` | scripts/resolve_pr_impacts.py:48-187 | The tables in use name only known groups and every stage requires one. |

## Left out

- AES-GCM itself, keys and random nonces: nonces are parameters and the cipher is a pair of functions with a contract.
- Failures of the underlying file system, handle closing, DeleteFile, directories, times and modes; file lengths are unbounded integers, only the trailer is a 64-bit value.
- Failures of Stat and of the trailer read, and handles or records of an unexpected type.
- Re-creating a file over stored bytes: `Encryptor.CreateFile` models it, the theorems about whole files start from empty storage.
- Staging concurrent with a commit. Concurrent first calls into an uncached file are the subject of `RacingOpens`; chunk writes, map accesses and size queries are atomic there.
- Stages longer than a block: the calls model them, the theorems about whole files require at most one block.
- Cancellation of the wait for the semaphore in the client manager.
- HTTP, retries, proposals, attestation and certificates in the CCF code: they are steps that may succeed, fail or report anything.
- Concurrent creators and deleters during a network update: the groups change only through the run itself; `InstanceGuard` is about interference.
- `NetworkUpdate` treats names as their case-insensitive ids and takes the nodes picked for scaling down as given; `RemovalChoice` is about that choice.
- Recovery agents in the load balancer update, which follow the server list.
- Culture-specific string comparison: names are compared by character codes, and digits, spaces and letters are the ASCII ones.
- Signs and spaces accepted by int.Parse: only plain numerals parse.
- The contents of the workspace configuration beyond its identity and AuthMode.
- Wildcards other than the star in references, references that climb with `..`, and quotes and spaces around them, which are stripped before anything else.
- Reading build scripts and Dockerfiles, git and the output file in the resolver: references and changed paths are inputs.
- The cleanroom cluster providers, the recovery service and the remaining components.
