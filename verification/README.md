# Verified model of the drive, its checkpoints and its membership feed

This project models three parts of the repository and proves properties of them.

1. **The content-addressed file tree** (`clients/storage-formats`). A bucket is an
   append-only log of content identifiers (CIDs) and a store of blobs that only grows.
   The last leaf of the log is the root directory of a drive. A write reads the root,
   walks a chain of directories, edits one, encodes the chain bottom-up with each new CID
   put into its parent, uploads children first, and commits everything in one call with
   the root last.
2. **Checkpoint coordination** (`clients/storage/src/checkpoint.rs`): grouping what the
   providers answer, the floor of the on-chain snapshot, the consensus threshold, the
   background loop, and the incremental averages.
3. **The membership invalidation feed** (`provider-node`): decoding a block's events, the
   bounded broadcast queue, and the drain that tells the cache what to drop.

`dafny verify dfyconfig.toml` checks the whole project.

## How the file tree is proved

The proof has four layers, and each is connected to the next by a theorem about all inputs.

* `Trees.Tree` is a class over `Stores.MemoryStore`, with the loops, early returns and
  in-place edits of the source. Each of its methods is proved equal to a function of the
  blobs it can read (module `Plans`).
* `Plans` says, as functions, which directories are read and which blobs are uploaded.
* `Represents` relates blobs to drives. The relation is recursive on the abstract tree, so
  what is represented is finite and acyclic, every reference in it resolves, and a CID is
  good as a directory or as a manifest only where an entry says so. `Refinement` and
  `OperationRefinement` prove that plans follow the operations on drives: same errors,
  and the uploaded blobs represent the changed drive.
* `Drives` has the simple meaning of the operations: a drive is a finite map from names to
  files and directories, and an operation edits it at one path (`EditAt`). `DriveLaws`
  says what that means path by path, without mentioning how an edit recurses, and
  `Outcomes` when each operation and read succeeds and which error it gives otherwise, from
  what looking up paths tells.

Three modules tie the layers to plain data: `Layout` writes blobs out byte by byte, `ReadErrors`
says what a read answers for whatever bytes are stored, and `UploadOrder` that nothing is
uploaded before what it references.

`Writers` puts the same plans into a machine in which every store call is one step, any
number of writers interleave and stop anywhere, and the store may answer anything to a proof
read. `WriterLaws` says what follows for runs: what each commit is, why operations fail, which
leaf a writer goes by, and what a lone writer does.

## Hypotheses

Hashing, Merkle roots and MMR proofs are fields of a `Crypto` value with 32-byte results,
because `storage_primitives` is not part of this model. Nothing is assumed of them globally:
each hypothesis is about what one run has seen, which is finite.

* `NoCollision(k, seen)`: no two byte strings that were ever addressed in the run share a CID.
  The known way to break it, an internal Merkle node served as a 64-byte blob, is a documented
  limit (`clients/storage-formats/src/tree.rs:45-48`).
* `MmrSound(k, trail)`: no proof that the store answered in the run, whether its own or another
  one, proves a false leaf under a commitment to a leaf list of the run.
* `MmrComplete(k, trail)`: the proof that is made from a leaf list of the run verifies under a
  commitment to that list.

All of them hold together in some run that commits and then checks a proof
(`Witness.AssumptionsCanHold`). The methods of `Trees.Tree` have neither of the last two as a
precondition: their contracts say which clause needs which.

## Where the code and its documentation differ

`clients/storage-formats/src/tree.rs:13-14` describes a 6-byte header with a kind byte. The
code writes a 5-byte header without one (`clients/storage-formats/src/format.rs:190-207`).
The model follows the code, so a blob may decode both as a directory and as a manifest, and
nothing here depends on telling them apart.

## Properties that need a condition

Some properties hold only under a condition, which is stated exactly or with a counterexample.

* The submitted root is independent of the iteration order of the groups exactly when the
  threshold is at least 51 percent (`Checkpoint.ThresholdLaw`).
* "Failures at the maximum imply paused" holds in every state exactly when the maximum is
  at least 1 (`CheckpointLoops.MaximumMustBePositive`).
* Between two successes at most the maximum of submissions on ticks fail, exactly as long as at
  most 2^32 submissions fail in all, which is where the 32-bit count wraps
  (`CheckpointLoops.TickBoundLaw`); `CheckpointLoops.WrapAllowsMore` breaks it for every
  configuration with one failure more.
* A tick waits for the retry delay after a failure, exactly as long as fewer than 2^32
  submissions fail, unless the delay is 0 (`CheckpointLoops.BackoffLaw`).
* For up to 2^32 samples the stored average is near the mean exactly when no step goes past 64
  bits (`Averages.MeanLaw`); two samples of 2^63 have the average 0 (`Averages.WrappedAverage`).
* A round never reports that there are no providers: a bucket without providers is an error
  of an earlier step, and with providers each is counted (`Checkpoint.SomeProvider`).

## Model

| member | source | states |
|---|---|---|
| Format.DirectoryBlobLaw | clients/storage-formats/src/format.rs:200-224 | Both directions of the codec for directories: a blob decodes to a node exactly when the node is within its bounds and the blob is its encoding; so trailing bytes and non-canonical lengths are rejected |
| Format.ManifestBlobLaw | clients/storage-formats/src/format.rs:452-461 | The same for manifests |
| Layout.DirectoryLayoutLaw | clients/storage-formats/src/format.rs:200-238 | The bytes of a directory blob, written out: header, bucket, and each child with name, kind, CID, size and time in this order; no other bytes decode to it |
| Layout.ManifestLayoutLaw | clients/storage-formats/src/format.rs:336-364 | The same for a manifest, with its type, size, chunks and metadata |
| Octets.Utf8Meaning | clients/storage-formats/src/format.rs:540-556 | The well-formed names are exactly the UTF-8 encodings of sequences of characters |
| Octets.LessMeaning | clients/storage-formats/src/format.rs:280-285 | Names are compared byte by byte at the first place where they differ |
| Format.DirectoryMaxBlobLen | clients/storage-formats/src/format.rs:319-323 | 335,121 bytes bound every directory blob, and some bounded directory has that length |
| Format.ManifestMaxBlobLen | clients/storage-formats/src/format.rs:462-466 | 2,380,703 bytes bound every manifest blob, and some bounded manifest has that length |
| Scale.CompactRoundTrip | clients/storage-formats/src/format.rs:200-207 | SCALE compact lengths decode to what was encoded, whatever follows |
| Scale.CompactCanonical | clients/storage-formats/src/format.rs:755-776 | A compact length that decodes is the one encoding of its number |
| Scale.VectorLawful | clients/storage-formats/src/format.rs:231-238 | A bounded vector of a lawful item codec round-trips, is canonical, and has an attained maximum length |
| Directories.ValidateMeaning | clients/storage-formats/src/format.rs:286-306 | The checks accept exactly the directories with valid entries, strictly sorted by name |
| Directories.FoundIsLookup | clients/storage-formats/src/format.rs:266-270 | Searching a valid directory is looking up the map from names to entries |
| Directories.UpsertedIsUpdate | clients/storage-formats/src/format.rs:250-264 | Upserting is map update and keeps validity; it fails exactly when the name is new and there are 1024 children |
| Directories.RemovedIsRemoval | clients/storage-formats/src/format.rs:272-278 | Removing is map removal and keeps validity |
| Directories.DirectoryIsDetermined | clients/storage-formats/src/format.rs:226-238 | A bucket and a map have one directory node, and so one blob and one CID |
| Directories.DirectoryBuffer.Position | clients/storage-formats/src/format.rs:280-285 | Binary search over byte order: the index of the name, or where it belongs |
| Directories.DirectoryBuffer.FindChild | clients/storage-formats/src/format.rs:266-270 | Answers the entry bound to the name |
| Directories.DirectoryBuffer.UpsertChild | clients/storage-formats/src/format.rs:250-264 | Inserts or replaces in place, or fails when full and leaves the node as it was |
| Directories.DirectoryBuffer.RemoveChild | clients/storage-formats/src/format.rs:272-278 | Removes in place and answers the removed entry |
| Manifests.ForContentIsFaithful | clients/storage-formats/src/format.rs:370-407 | The manifest of content is valid, has its size and its root, lists the leaf hash of each 256 KiB piece under its number, keeps the metadata, and has no encryption parameters |
| Manifests.ForContentOutcome | clients/storage-formats/src/format.rs:370-407 | For which inputs it succeeds, and for which it reports a duplicate key, too much content or too much metadata |
| Manifests.DefaultMimeType | clients/storage-formats/src/format.rs:28-29 | The type of content without one is `application/octet-stream` |
| Manifests.ForContentIgnoresMetadataOrder | clients/storage-formats/src/format.rs:374-385 | Every permutation of the metadata gives the same manifest |
| Manifests.ValidateManifestMeaning | clients/storage-formats/src/format.rs:426-449 | The checks accept exactly the manifests whose chunks match the size, are numbered in order, and whose keys are sorted |
| Hashing.ChunkCount | clients/storage-formats/src/format.rs:526-538 | Content has one chunk for each started 256 KiB |
| Hashing.ChunkIsSlice | clients/storage-formats/src/format.rs:532-538 | Chunk number i is the data from byte 262,144 i to byte 262,144 (i + 1), or to the end |
| Hashing.ChunksJoin | clients/storage-formats/src/format.rs:532-538 | The chunks put together are the data |
| Hashing.CidMeaning | clients/storage-formats/src/format.rs:520-538 | The CID is the Merkle root over the leaf hashes of these pieces |
| Witness.AssumptionsCanHold | clients/storage-formats/src/tree.rs:658-674 | All that is assumed of hashes and proofs holds together in a run with a commit and an accepted proof of it |
| Paths.ParseIsInverseOfJoin | clients/storage-formats/src/tree.rs:220-238 | A path parses to names exactly when it is their join; so parsing is injective |
| Paths.JoinMeaning | clients/storage-formats/src/tree.rs:235-238 | The root is `/`, and one more name is appended after a `/` |
| Paths.ParseOutcome | clients/storage-formats/src/tree.rs:213-233 | Any other path is reported as invalid |
| Paths.NameMeaning | clients/storage-formats/src/format.rs:540-556 | A name is the UTF-8 of some text in 1 to 256 bytes, without `/`, and neither `.` nor `..` |
| DriveLaws.PutLaw | clients/storage-formats/src/tree.rs:388-435 | After a write the file is there, its ancestors are directories with the new time, and no other path changed |
| DriveLaws.MkdirLaw | clients/storage-formats/src/tree.rs:437-460 | The new directory was missing, is there and empty, and no other path changed |
| DriveLaws.DeleteLaw | clients/storage-formats/src/tree.rs:461-496 | What is deleted was a file or an empty directory, is gone, and no other path changed |
| DriveLaws.PruningDeleteLaw | clients/storage-formats/src/tree.rs:482-491 | A pruning delete removes a file and exactly the longest chain of ancestors that held nothing else; the other ancestors stay directories with the new time, and no other path changes |
| DriveLaws.RenameLaw | clients/storage-formats/src/tree.rs:496-543 | The whole subtree moves unchanged, nothing stays at the old place, the ancestors of both places are directories with the time of the last write that passed them, and no other path changes |
| DriveLaws.RunKeepsNoEmpty | clients/storage-formats/src/tree.rs:466-494 | In every run of writes and pruning deletes no directory below the root is empty |
| DriveLaws.ApplyErrors | clients/storage-formats/src/tree.rs:388-543 | On a drive an operation fails only for reasons of its path, the tree or a limit, never for the store |
| Outcomes.PutOutcome | clients/storage-formats/src/tree.rs:388-435 | Writing succeeds exactly if no parent is a file, no directory is at the path, and the last existing directory has the next name or room for it; otherwise which error |
| Outcomes.MkdirOutcome | clients/storage-formats/src/tree.rs:437-459 | The same for a new directory, where nothing may be at the path |
| Outcomes.DeleteOutcome | clients/storage-formats/src/tree.rs:461-494 | Deleting succeeds exactly if all parents are directories and a file, or without pruning an empty directory, is at the path; otherwise which error, and for which parent |
| Outcomes.RenameOutcome | clients/storage-formats/src/tree.rs:496-543 | Renaming succeeds exactly if the old place is there, nothing is at the new one, its way is free, and there is room once the entry is taken out; otherwise which error |
| Outcomes.OperationOutcome | clients/storage-formats/src/tree.rs:388-543 | The outcome of every operation on every drive, with invalid paths, the root and rejected content first |
| Outcomes.PlanOutcome | clients/storage-formats/src/tree.rs:388-543 | The same of the operation on blobs whose last leaf is a drive |
| Outcomes.ListOutcome | clients/storage-formats/src/tree.rs:319-327 | Listing succeeds exactly on directories, and otherwise names the file or the missing directory on the way |
| Outcomes.StatOutcome | clients/storage-formats/src/tree.rs:331-346 | The same for reading a file |
| Zippers.ZipEditIsEditAt | clients/storage-formats/src/tree.rs:544-619 | Walking a chain, editing its end and folding it back is the recursive edit |
| Zippers.ZipRenameIsSequential | clients/storage-formats/src/tree.rs:522-543 | Collapsing one branch to the common prefix and going on along the other is taking out and then adding |
| Represents.ReadDirMeaning | clients/storage-formats/src/tree.rs:678-706 | A directory read succeeds exactly with a valid directory whose blob is stored under its CID; the length limit never gets in the way |
| Represents.ReadManifestMeaning | clients/storage-formats/src/tree.rs:708-719 | The same for manifests |
| Represents.ReadRootMeaning | clients/storage-formats/src/tree.rs:276-316 | The same for roots, which must also be of this bucket |
| ReadErrors.ReadDirOutcome | clients/storage-formats/src/tree.rs:676-706 | For whatever is stored: missing, too long, another CID, another version, not a valid directory, or that directory |
| ReadErrors.ReadManifestOutcome | clients/storage-formats/src/tree.rs:708-719 | The same for manifests |
| ReadErrors.ReadRootOutcome | clients/storage-formats/src/tree.rs:276-316 | The same for roots, where anything but a directory of this bucket is not a drive |
| ReadErrors.ReadContentOutcome | clients/storage-formats/src/tree.rs:676-693 | The same for content of a known length |
| ReadErrors.DirectoryRules | clients/storage-formats/src/format.rs:286-306 | What makes a directory valid, down to the bytes of its names |
| ReadErrors.ManifestRules | clients/storage-formats/src/format.rs:426-449 | What makes a manifest valid |
| Represents.RepNodeGrows | clients/storage-formats/src/tree.rs:27-35 | What is represented stays represented as the store grows |
| Represents.DriveIsDetermined | clients/storage-formats/src/tree.rs:1-20 | A root in a store is one drive |
| Represents.RootIsDetermined | clients/storage-formats/src/tree.rs:1-20 | A drive has one root directory, in whatever stores, and so one root CID |
| OperationRefinement.PutRefines | clients/storage-formats/src/tree.rs:393-435 | The plan of a write fails as the write on the drive, or its blobs represent the written drive |
| OperationRefinement.MkdirRefines | clients/storage-formats/src/tree.rs:441-459 | The same for a new directory |
| OperationRefinement.DeleteRefines | clients/storage-formats/src/tree.rs:466-494 | The same for deleting, with and without pruning |
| OperationRefinement.RenameRefines | clients/storage-formats/src/tree.rs:502-543 | The same for renaming |
| OperationRefinement.UntouchedEntry | clients/storage-formats/src/tree.rs:522-533 | In the collapsed chain the next directory on the way to the new place is one that is already stored, never one rewritten and not uploaded |
| OperationRefinement.PlanRefinesApply | clients/storage-formats/src/tree.rs:388-644 | For every operation: where the last leaf is a drive, the plan has the outcome of the operation on it |
| Stores.CommitOrderLaw | clients/storage-formats/src/tree.rs:731-741 | A commit has each distinct CID once, by first occurrence, with the root last |
| Stores.MemoryStore.PutBlob | clients/storage-formats/src/testing.rs:63-67 | Stores the blob under its CID |
| Stores.MemoryStore.RawCommit | clients/storage-formats/src/testing.rs:39-43 | Stores a blob and commits it as one leaf |
| Stores.MemoryStore.Commit | clients/storage-formats/src/testing.rs:89-94 | Appends the leaves, which must be stored |
| Stores.MemoryStore.Commitment | clients/storage-formats/src/testing.rs:96-108 | Answers the commitment to the leaves so far, then lets a racing writer commit |
| Stores.MemoryStore.MmrProof | clients/storage-formats/src/testing.rs:110-116 | Unless the store is set to answer something else, the proof verifies under any commitment to the leaves now, where proofs are complete |
| Trees.Tree.ReadLastLeaf | clients/storage-formats/src/tree.rs:661-674 | Whatever the store answers for a proof, an accepted leaf was last before the call where accepted proofs are sound; with the store's own proofs it fails only if a commit came between its two reads |
| Trees.Tree.LastLeaf | clients/storage-formats/src/tree.rs:651-656 | With one more read, the same for the first or the second commitment read, and with the store's own proofs it fails only after two races |
| Trees.Tree.LoadRoot | clients/storage-formats/src/tree.rs:276-316 | The root directory of such a leaf, or an empty one, or the error of reading it |
| Trees.Tree.ReadRoot | clients/storage-formats/src/tree.rs:281-316 | Which of the errors a root that is not a directory of this bucket gives |
| Trees.Tree.ReadBlob | clients/storage-formats/src/tree.rs:676-693 | The blob, checked against its length and then its CID |
| Trees.Tree.ReadDir | clients/storage-formats/src/tree.rs:695-706 | The directory with this CID, or the error |
| Trees.Tree.ReadManifest | clients/storage-formats/src/tree.rs:708-719 | The manifest with this CID, or the error |
| Trees.Tree.ExtendChain | clients/storage-formats/src/tree.rs:560-577 | The loop computes the chain of directories along the names, or its first error |
| Trees.Tree.RewriteBelow | clients/storage-formats/src/tree.rs:593-619 | The loop encodes bottom-up and puts each CID into its parent |
| Trees.Tree.Rewrite | clients/storage-formats/src/tree.rs:579-591 | The blobs of a whole rewritten chain |
| Trees.Tree.Upload | clients/storage-formats/src/tree.rs:623-639 | Each distinct CID is uploaded once, at its first place in the order, and nothing else |
| Trees.Tree.Write | clients/storage-formats/src/tree.rs:621-645 | Exactly the plan's blobs are stored and one commit has their CIDs, each once, the root last |
| UploadOrder.UploadsInOrder | clients/storage-formats/src/tree.rs:27-35 | What an operation uploads references only what is stored or comes before it: content, manifest, then directories from the changed one to the root |
| UploadOrder.UploadsAreClosed | clients/storage-formats/src/tree.rs:621-639 | The same of what is really uploaded, after any number of uploads |
| Trees.Tree.List | clients/storage-formats/src/tree.rs:317-327 | The entries of the directory at a path, or the error, from a root that was last during the call; nothing is written |
| Trees.Tree.Stat | clients/storage-formats/src/tree.rs:328-346 | The same for the entry and manifest of a file |
| Trees.Tree.GetFile | clients/storage-formats/src/tree.rs:347-360 | The same for a file's content, checked against its size and root |
| Trees.Tree.EntriesUnder | clients/storage-formats/src/tree.rs:361-386 | Where each root it may find represents a drive, it ends and lists each proper descendant exactly once, with its relative path |
| Trees.Tree.ListAll | clients/storage-formats/src/tree.rs:364-386 | The loop over the stack of directories lists everything below |
| Trees.Tree.ListDir | clients/storage-formats/src/tree.rs:371-384 | The entries of one directory, and the directories still to list |
| Trees.Tree.PutFile | clients/storage-formats/src/tree.rs:388-435 | With other writers committing and any proofs answered during the root read: the write is performed on whatever drive the leaf it found was, or fails as it does there and changes nothing, or could not read the root twice |
| Trees.Tree.Mkdir | clients/storage-formats/src/tree.rs:437-460 | The same for a new directory |
| Trees.Tree.Delete | clients/storage-formats/src/tree.rs:461-496 | The same for deleting |
| Trees.Tree.DeleteFrom | clients/storage-formats/src/tree.rs:473-494 | The pruning loop keeps chain and names in step and drops the emptied ancestors |
| Trees.Tree.Rename | clients/storage-formats/src/tree.rs:496-543 | The same for renaming |
| Trees.Tree.TakeAndMove | clients/storage-formats/src/tree.rs:515-543 | Takes the entry out, collapses its branch, goes on along the new path |
| Effects.DoneIsPerformed | clients/storage-formats/src/tree.rs:621-645 | Doing a plan performs the operation: one commit of distinct leaves whose last is the root of the changed drive, or nothing at all |
| Reads.ListRefines | clients/storage-formats/src/tree.rs:319-327 | Listing a path answers sorted entries for exactly the drive's children there, or the first error of path, root or drive |
| Reads.StatRefines | clients/storage-formats/src/tree.rs:331-346 | Stat answers entry and manifest of the drive's file, or the first error |
| Reads.GetRefines | clients/storage-formats/src/tree.rs:351-360 | Reading answers the content of the drive's file, or the first error |
| Reads.ReadsAreAuthenticated | clients/storage-formats/src/tree.rs:276-360 | From any two stores with the same root CID, reads that succeed on both agree |
| Listings.ListedExactly | clients/storage-formats/src/tree.rs:361-386 | The listed entries are exactly the proper descendants, each under its own path, also when subtrees share CIDs |
| Listings.ListedOnce | clients/storage-formats/src/tree.rs:361-386 | No path is listed twice |
| Reachability.LeavesAreReached | clients/storage-formats/src/tree.rs:427-434 | Every leaf of a commit is the new root or reached from it by names |
| Reachability.WrittenIsReached | clients/storage-formats/src/tree.rs:621-645 | The same after any successful write |
| Reachability.RewriteReaches | clients/storage-formats/src/tree.rs:597-619 | Every directory that a rewrite encodes is reached from the one where it stops |
| Settling.PlanSettles | clients/storage-formats/src/tree.rs:388-619 | What an operation does with part of the store read is what it does with all of it, or it asks for one more blob that there is |
| Writers.RunsAreExplained | clients/storage-formats/src/tree.rs:27-35 | Under any interleaving with writers that stop anywhere and with any answers to proof reads, after every commit the last leaf is a whole drive and each commit is well formed |
| WriterLaws.LastLeafIsADrive | clients/storage-formats/src/tree.rs:14-24 | So after any run the bucket's last leaf denotes a complete drive |
| WriterLaws.CommitsAreOperations | clients/storage-formats/src/tree.rs:33-40 | After every commit of a run the bucket is one operation applied to the drive of an earlier commit, or to the empty one |
| WriterLaws.CommitsHangTogether | clients/storage-formats/src/tree.rs:427-434 | In every commit of a run all leaves are stored, each is there once, and each is reached by names from the last |
| WriterLaws.FailuresAreExplained | clients/storage-formats/src/tree.rs:646-674 | In a run an operation fails for a reason on the tree, or because each of its two root reads lost a race or got a proof that is not the store's own; no read ever misses a blob |
| WriterLaws.RootDiscovery | clients/storage-formats/src/tree.rs:646-674 | Whatever proofs were answered, a writer that has read the root has the leaf that was last at the step of its own latest commitment read |
| Writers.AcceptedProof | clients/storage-formats/src/tree.rs:658-674 | Any proof that is accepted proves the last leaf at the commitment read |
| Writers.OwnProofFails | clients/storage-formats/src/tree.rs:646-656 | The store's own proof is rejected only if a commit came between the two calls |
| WriterLaws.OneWriterIsFold | clients/storage-formats/src/tree.rs:33-36 | With one writer a run is the fold on the empty drive of its operations that found a root |
| WriterLaws.OneHonestWriterFindsTheRoot | clients/storage-formats/src/tree.rs:646-656 | With one writer and the store's own proofs every operation finds the root |
| WriterLaws.TidyWriters | clients/storage-formats/src/tree.rs:200-214 | Any number of writers that only write and delete with pruning never leave an empty directory after any commit |
| WriterLaws.EventsWereBegun | clients/storage-formats/src/tree.rs:388-543 | What ends in a run was begun in it with the same arguments |
| WriterLaws.AnswersAreRoots | clients/storage-formats/src/tree.rs:621-645 | The operations that succeed answer the last leaves of the commits, each of its own |
| WriterLaws.EveryCallCounts | clients/storage-formats/src/tree.rs:646-674 | Each call of a writer ends its operation or brings it nearer to its end |
| Checkpoint.GroupAnswers | clients/storage/src/checkpoint.rs:1062-1086 | The loop puts each usable answer into the group of its root, in order, and every other provider among the unreachable |
| Checkpoint.Largest | clients/storage/src/checkpoint.rs:1088-1093 | The majority is a largest group |
| Checkpoint.ProvidersPartition | clients/storage/src/checkpoint.rs:1062-1126 | Agreeing, disagreeing and unreachable partition the providers that were asked, in any iteration order |
| Checkpoint.MajorityIsUnique | clients/storage/src/checkpoint.rs:1300-1332 | With at least 51 percent everything that is submitted is independent of the iteration order |
| Checkpoint.OrderCanMatter | clients/storage/src/checkpoint.rs:1300-1332 | With at most 50 percent two providers suffice for the order to decide |
| Checkpoint.ThresholdLaw | clients/storage/src/checkpoint.rs:1300-1332 | The order never matters exactly from 51 percent on |
| Checkpoint.SomeProvider | clients/storage/src/checkpoint.rs:1283-1303 | With providers, no round has the result that there are none |
| Consensus.FloorMeaning | clients/storage/src/checkpoint.rs:1153-1181 | A response takes part exactly if neither end of its range is behind the snapshot |
| Consensus.GroupMeaning | clients/storage/src/checkpoint.rs:1062-1086 | The group of a root are the providers that back it, in order |
| Consensus.RoundMeaning | clients/storage/src/checkpoint.rs:1283-1332 | The outcome of a round from the answers alone: who submits with which signatures and range, or how many agree and are required and who disagrees, or who is unreachable |
| Consensus.RequiredIsShare | clients/storage/src/checkpoint.rs:1304-1311 | The required number is the least that reaches the percentage |
| Consensus.ReportMeaning | clients/storage/src/checkpoint.rs:1283-1332 | Each outcome is reported as what it is |
| Checkpoint.RoundNotBehind | clients/storage/src/checkpoint.rs:1153-1181 | What a round submits is behind the snapshot at neither end |
| Checkpoint.RangeNeverMovesBack | clients/storage/src/checkpoint.rs:1144-1181 | Over any run neither the start nor the saturating end of the range ever decreases |
| CheckpointLoops.CheckpointLoop.ExecuteCheckpoint | clients/storage/src/checkpoint.rs:2170-2208 | What a submission does to the status |
| CheckpointLoops.CheckpointLoop.Run | clients/storage/src/checkpoint.rs:2076-2168 | The loop over commands and ticks goes through the specified states |
| CheckpointLoops.DirtyMeaning | clients/storage/src/checkpoint.rs:2106-2110 | The bucket is dirty exactly when it was marked since the last successful submission |
| CheckpointLoops.PausedMeaning | clients/storage/src/checkpoint.rs:2118-2161 | The loop is paused exactly if, since the last resume, it was paused or an iteration ended with the maximum of failures |
| CheckpointLoops.EndedMeaning | clients/storage/src/checkpoint.rs:2124-2168 | It has ended exactly after a stop, a closed channel, or a completed iteration with the flag cleared |
| CheckpointLoops.SubmissionMeaning | clients/storage/src/checkpoint.rs:2094-2155 | Which events submit, from the events before: commands to do so, and ticks on a marked bucket, or always if so configured, while not paused and without a delay, until it has ended |
| CheckpointLoops.NoTickWhilePaused | clients/storage/src/checkpoint.rs:2118-2136 | After a pause no tick submits before a resume |
| CheckpointLoops.NothingAfterEnd | clients/storage/src/checkpoint.rs:2124-2168 | After the loop has ended nothing submits |
| CheckpointLoops.NextFailures | clients/storage/src/checkpoint.rs:2182-2201 | A success clears the count of failures, a failure adds one, and nothing else changes it |
| CheckpointLoops.NextLast | clients/storage/src/checkpoint.rs:2179-2181 | The last attempt and its result are those of the last submission |
| CheckpointLoops.PausedAtMaximum | clients/storage/src/checkpoint.rs:2157-2161 | With a maximum of at least 1, as many failures imply paused |
| CheckpointLoops.MaximumMustBePositive | clients/storage/src/checkpoint.rs:2157-2161 | That holds in every state exactly when the maximum is at least 1 |
| CheckpointLoops.FewTickFailures | clients/storage/src/checkpoint.rs:2130-2161 | From a count of 0 and without success, at most the maximum of submissions on ticks fail as long as at most 2^32 fail in all, whatever commands come in between |
| CheckpointLoops.TickBoundLaw | clients/storage/src/checkpoint.rs:2130-2161 | For every positive maximum the bound holds in all such stretches with at most N failures exactly when N is at most 2^32 |
| CheckpointLoops.WrapAllowsMore | clients/storage/src/checkpoint.rs:2187-2201 | For every configuration there is a stretch with 2^32 + 1 failures, one more of them on ticks than the maximum |
| CheckpointLoops.RetriesRespectBackoff | clients/storage/src/checkpoint.rs:2138-2153 | After a failed submission a tick submits again only when the retry delay has passed, or when that failure wrapped the count |
| CheckpointLoops.WrapSkipsBackoff | clients/storage/src/checkpoint.rs:2138-2201 | For every configuration there is a run in which a tick submits right after the failure that wraps the count |
| CheckpointLoops.BackoffLaw | clients/storage/src/checkpoint.rs:2138-2201 | The delay is kept in all stretches with at most N failures exactly when N is below 2^32 or there is no delay |
| Averages.AverageLaw | clients/storage/src/checkpoint.rs:158-161 | The stored average lies between smallest and largest sample, never above the mean, and below it by at most (n - 1) / 2 |
| Averages.BoundIsReached | clients/storage/src/checkpoint.rs:158-161 | That bound is attained for every n |
| Averages.MeanLaw | clients/storage/src/checkpoint.rs:158-161 | The average is below the mean by at most (n - 1) / 2 exactly when no step so far went past 64 bits |
| Averages.WrapsStayLost | clients/storage/src/checkpoint.rs:158-161 | The average is never above the mean, and after a step past 64 bits the n-fold average stays 2^64 short of the sum for good |
| Averages.WrappedAverage | clients/storage/src/checkpoint.rs:158-161 | Two samples of 2^63 have the average 0 |
| Averages.SmallSumsNeverWrap | clients/storage/src/checkpoint.rs:158-161 | Samples that add up to less than 2^64 never do |
| Averages.HealthHistory.RecordSuccess | clients/storage/src/checkpoint.rs:150-164 | Counts one success and keeps the average of all response times |
| Averages.HealthHistory.RecordFailure | clients/storage/src/checkpoint.rs:166-175 | Counts one failure and leaves the average |
| Averages.CheckpointMetrics.RecordAttempt | clients/storage/src/checkpoint.rs:474-503 | Counts one attempt under its outcome and keeps the average of all submission times |
| Averages.AttemptsPartition | clients/storage/src/checkpoint.rs:474-503 | Every attempt is counted under exactly one outcome |
| Averages.KindMeaning | clients/storage/src/checkpoint.rs:474-503 | Which result is counted where |
| EventDecoding.FilterIsExact | provider-node/src/event_decoding.rs:20-44 | The filter by name passes exactly the events that are mapped to something |
| EventDecoding.DecodeBlockContents | provider-node/src/event_decoding.rs:46-92 | The loop with its filter gives what mapping every event gives, each once, in order |
| EventDecoding.BlockIsTold | provider-node/src/event_decoding.rs:46-170 | What is told is exactly what the events of the block say, each kind as its own with its fields, once and in order |
| EventDecoding.LifecycleIsTold | provider-node/src/event_decoding.rs:94-110 | The same for the accounts of the lifecycle events |
| EventDecoding.MembershipIsTold | provider-node/src/event_decoding.rs:46-92 | Every iterable membership event is told by its bucket, or as one of unknown scope if it does not decode |
| EventDecoding.OnlyWhatHappened | provider-node/src/event_decoding.rs:112-170 | Nothing is told that no event of the block says |
| Invalidations.Feed.Send | crates/providers/events/src/lib.rs:14-24 | A full queue loses its oldest entry and its receiver will be told so |
| Invalidations.BlockEventInvalidations.Drain | provider-node/src/membership.rs:167-218 | The loop, with sends racing between its reads, ends with the queue read empty and the collected result |
| Invalidations.NextDrainCovers | provider-node/src/membership.rs:167-218 | Whatever sends, overwrites and drains come in between, the first drain that ends after a send covers the event |
| Invalidations.DrainedBucketsWereSent | provider-node/src/membership.rs:172-184 | A drain names only buckets for which an event was sent |
| Invalidations.StaleIsBroadcast | crates/providers/coordinator/src/lib.rs:230-268 | Every event of a finalized block that makes a bucket stale, membership change or replica agreement, is broadcast as something that covers it, also when the block could not be read |
| Invalidations.RevocationReachesTheCache | provider-node/src/membership.rs:167-218 | From the block to the cache: once the follower has sent all it had to after a membership change or replica agreement, the first drain that ends, if not one before, drops the bucket or everything |
| Invalidations.ReconnectDropsAll | crates/providers/coordinator/src/lib.rs:230-237 | After a new connection the same drain drops everything |
| Invalidations.DrainMeaning | provider-node/src/membership.rs:167-218 | Exactly what a drain answers: everything if something was lost or distrusts all, otherwise the buckets of what was sent since the last drain, in order |
| Invalidations.QueueIsNewest | crates/providers/events/src/lib.rs:14-24 | The queue holds the newest events in order; only reads, and sends to a full queue, take one away |

## Left out

- Writers.RunsAreExplained: a writer of the machine keeps each blob it has read and does not read it twice, where the code may read one CID again; without collisions the answers are the same.
- Checkpoint.RangeNeverMovesBack: the chain's snapshot becomes what was submitted and accepted; the pallet that decides is not part of this model.
- Checkpoint.MajorityIsUnique: the required number is the exact ceiling of total times percent over 100; rounding of 64-bit floating point is not modelled.
- Invalidations.NextDrainCovers: the queue has any positive capacity, of which 256 is one; that a closed feed falls back to expiry by time is outside the model.
- Manifests.ForContentIsFaithful: `for_content` sorts its metadata in place with the library's sort; here the sort is a function on values.
- Provider-initiated prefix deletes, which break the growing store, and commits by other programs than these clients: documented limits of the tree.
- The `tampered` and `reads` fields of the in-memory store: reads of arbitrary stores are covered by ReadsAreAuthenticated.
- The check that an upload is answered with the expected CID: the modelled store always answers it.
- The `bucket_id` of a commitment response, which the code does not compare; duplicate accounts and what providers sign.
- Health statuses, success rates, confidences and challenge scoring; retries, timeouts and HTTP of one provider query.
- 64-bit counters of attempts and requests, other than in the averages, are unbounded numbers.
- Callbacks, logging, persistence, provider discovery, RPC, encryption, command line and user interfaces.
- The order in which `entries_under` lists: only which entries, and how often.
