# FileSec: a verified model

FileSec keeps files in encrypted vaults on disk and sends vaults to contacts over the
network. This project models the parts of it whose correctness is not evident from any
one function, and proves what they are for. Cryptography is ideal and symbolic: a sealed
message is its plaintext followed by sixteen tag symbols that name key, nonce, associated
data and plaintext, so exactly the honest seals open and every length is the real one;
hashes, signatures and key agreement are injective terms. Randomness is a freshness
hypothesis. The environment (short reads, failed writes, failed directory syncs, crashes, an active
network, an adversary who restores old files) is nondeterministic; where a theorem says exactly
when an operation succeeds, what the environment does is an argument of it.

What is proved, by part:

- **The v2 vault engine** (`Paths`, `VaultTree`, `Manifest`, `Batch`, `VaultBatches`,
  `Validation`, `Limits`, `VaultWorld`, `Reclamation`, `VaultReader`). A vault is a manifest
  vector, a path index and a directory of blobs. Every batch of edits is a program on a plain
  map from paths to nodes, or nothing at all, blobs included; over every run of batches,
  reclamation, garbage collection, crashes and reopenings the vault refines that map, no
  manifest a crash may leave behind ever misses a blob, and no blob is forgotten.
- **Rollback anchors and store transactions** (`StateChain`, `AnchorStore`,
  `StoreTransactions`). Accepted states form one hash chain whatever files are restored
  and wherever the program dies; the anchored content is the fold of exactly the edits that
  were reported as done, and of interrupted ones a load adopted, in order; a deleted vault
  stays deleted. A transaction succeeds exactly when its reader is current, its edits apply and
  the environment lets it write.
- **Vaults under anchors** (`VaultStore`). The two together: commits through clones of a
  reader, anchors that fail, stale readers, crashes that bring back older manifests. No
  manifest that may survive ever misses a blob as long as a reader whose commit was not
  anchored is opened again before it is used.
- **Vault lifecycle** (`Lifecycle`, `Outcomes`, `Reconcile`). How creations and deletions end,
  whatever goes wrong at each of their steps; interrupted anywhere, their registry saves done
  by halves included, they are repaired by the cleanup on the next unlock, which can itself
  fail and be resumed at any step.
- **STREAM framing** (`Aead`, `Stream`, `StreamReader`, `RandomAccess`). Decryption
  accepts exactly the honest stream and never releases anything but a prefix of the truth;
  the pull reader and the random-access readers agree with it.
- **The v1 container** (`Container`, `Segments`, `ContainerEdits`, `ContainerAppend`,
  `TamperedEdits`, `Export`, `ExportReader`). Layout validation, the one-pass streaming
  edits, of changed containers too, and the round trip from a v2 vault through a container
  to a v2 vault.
- **The transfer protocol** (`Handshake`, `Records`, `Transfer`, `TransferCode`,
  `Admission`). Agreement of the two ends against an active network and completion between
  compatible ends without one, ordered records, a received file equal to the sent one and
  exactly when there is one, the spelling of the transfer code, and admission of one transfer
  at a time among many threads.
- **The keystore** (`KeystoreFile`). One data key behind every unlock method through any
  history of enrolments, removals and identity continuations.

`Base` holds shared types and byte encodings.

Some promises hold only under a condition. The code is modelled as it is; each entry names
the member that states the exact condition and the one that exhibits the failing run or
input:

- An accepted edit leaves a manifest that opens again if and only if the resource limits
  still hold, which a caller can check beforehand (`Limits.EditReopensIff`): `rename` checks
  length and depth on its target only, and commits check neither the entry count nor the
  total size. A directory of 64 nested ones, renamed one level deeper, is enough
  (`Limits.DeepRename`). A blob of 2^32 chunks can be written but not reopened.
- A vault survives a crash if and only if the blobs of the surviving manifest were durable
  (`VaultWorld.CrashSafeIff`); the blob-directory sync before a commit is best effort, and
  one commit after a failed sync is enough to lose a file (`VaultWorld.UnsyncedCommitCanLose`).
- The store checks a reader against the anchor. When a commit was written but its anchor could
  not be recorded, the reader it started from still passes that check, although blobs its
  manifest names may be unlinked already. An edit the store admits keeps every blob
  if and only if its reader still finds all of its own (`VaultStore.AdmittedEditIff`), which
  after a failed commit is so if and only if the commit was not known to be durable or
  superseded nothing that could be unlinked (`VaultStore.FailedCommitIff`); when the anchored
  state is that of the manifest in place it always is (`VaultStore.AdmittedIsCurrent`).
  `VaultStore.FailedAnchorLosesFile` is a run that loses a file, and
  `VaultStore.LossIsReachable` reaches its start from a new vault. What averts it is that
  callers open the vault again after a mutation (crates/filesec-gui/src/store.rs:1653-1655).
- A manifest whose rename was not known to be durable but whose anchor was recorded opens after a
  crash if and only if it is the one that survived; an older one is taken for a rollback and
  quarantined (`VaultStore.SurvivorOpensIff`).
- A deletion reported as failed keeps the vault if and only if its directory was put back, or no
  registry was written and the one in place lists the vault (`Lifecycle.FailedDeletionIff`).
  A registry replaced without its anchor, and no chance to put the directory back, lose it on
  the next unlock (`Lifecycle.FailedDeletionLosesVault`), although the message promises that
  it will be restored.
- `append_files` reports success for results nobody can import: a path beneath an existing file
  (`ContainerAppend.AppendUnderFile`), or one the container already has under another
  spelling, such as a leading dot (`ContainerAppend.AppendOtherSpelling`,
  `ContainerAppend.DottedFile`). `ContainerAppend.AppendValid` gives the exact condition.
- A consumer that reads on after a chunk failed to open would accept an extended stream
  (`StreamReader.ExtensionAccepted`), if and only if the honest one is a prefix without a short
  last chunk (`StreamReader.RetryIntegrity`). No caller does.
- If recording the anchor of a new vault fails and wiping its directory is then
  interrupted, the directory stays: late, it is never listed; early, it is listed although
  its files are gone (`Lifecycle.RollbackInterrupted`). Otherwise the registry lists exactly
  the directories.
- A passkey removal with the wrong identity fails, but the slot is gone from the keystore in
  memory; such a keystore cannot be written, yet the next successful change signs the
  removal along with it (`KeystoreFile.FailedRemovalLingers`).
- A zero-length read of a `ChainReader` skips every source that is left
  (`Segments.ChainReader.Read`); no caller makes one.

Check everything with `dafny verify dfyconfig.toml`.

## Model

| member | source | states |
|---|---|---|
| `Base.BigEndianInjective` | crates/filesec-core/src/transport.rs:290-304 | big-endian encodings of in-range numbers are equal only for equal numbers, which is what makes counters in nonces and associated data distinct |
| `Aead.OpenIffSealed` | crates/filesec-core/src/aead.rs:142-203 | opening returns a message if and only if the ciphertext is the seal of exactly that message under that key, nonce and associated data |
| `Aead.OpenedCarriesTag` | crates/filesec-core/src/aead.rs:149-203 | whatever opens carries the tag of the message it opens to |
| `Stream.NonceInjective` | crates/filesec-core/src/aead.rs:440-462 | chunk index and last-chunk flag are determined by the chunk nonce |
| `Stream.NumChunksDivCeil` | crates/filesec-core/src/format_v2.rs:246-252 | the number of chunks is rounded-up division, and one for an empty file |
| `Stream.CiphertextLength` | crates/filesec-core/src/format.rs:447-454 | the declared ciphertext length, plaintext plus one tag per chunk, is the real length of the stream |
| `Stream.SuffixAtChunk` | crates/filesec-core/src/format.rs:1538-1597 | chunk j of the stream starts at j·(chunk+16) in the ciphertext and j·chunk in the plaintext |
| `Stream.ReadChunk` | crates/filesec-core/src/aead.rs:206-219 | fills the buffer from any pattern of short reads; a short buffer means the source ended |
| `Stream.EncryptStream` | crates/filesec-core/src/aead.rs:308-349 | the read-ahead encryptor writes exactly the stream of the whole input, and fails if and only if the parameters are bad or the counter runs out |
| `Stream.DecryptStream` | crates/filesec-core/src/aead.rs:351-389 | the read-ahead decryptor emits and accepts exactly what sequential decryption of the whole input does |
| `Stream.DecryptInvertsEncrypt` | crates/filesec-core/src/aead.rs:308-389 | decrypting an encrypted stream gives the plaintext back |
| `Stream.OpenedChunkIsHonest` | crates/filesec-core/src/aead.rs:440-462 | a chunk that opens at index j, wherever its bytes came from, is the true j-th chunk |
| `Stream.StreamIntegrity` | crates/filesec-core/src/aead.rs:351-389 | a ciphertext built from honest tags is accepted if and only if it is the honest stream, so truncation, extension, reordering and duplication fail; before failing only a prefix of the true plaintext is emitted |
| `StreamReader.StreamDecryptReader.constructor` | crates/filesec-core/src/aead.rs:507-538 | a new pull reader has the whole sequential decryption ahead of it, for a consumer that stops at an error and for one that reads on |
| `StreamReader.StreamDecryptReader.Refill` | crates/filesec-core/src/aead.rs:560-588 | refilling changes nothing in what remains to be delivered, and fails only where sequential decryption fails; a failure loses at most one chunk of the source |
| `StreamReader.StreamDecryptReader.Read` | crates/filesec-core/src/aead.rs:590-607 | a read delivers the next true bytes; none means the authenticated end; an error hands out nothing and leaves what reading on will give |
| `StreamReader.Pull` | crates/filesec-core/src/aead.rs:590-607 | for every sequence of read sizes the bytes are those of sequential decryption |
| `StreamReader.PullOn` | crates/filesec-core/src/aead.rs:560-607 | a consumer that reads on after errors gets what the retrying specification says: a chunk that failed stays in place while the source runs out behind it, and is then tried as the last |
| `StreamReader.RetryIff` | crates/filesec-core/src/aead.rs:560-588 | reading on accepts a plaintext if and only if some number of first chunks decrypts to it sequentially |
| `StreamReader.RetryIntegrity` | crates/filesec-core/src/aead.rs:560-588 | of the ciphertexts made of honest tags it accepts exactly the honest stream and, when that has no short chunk, its extensions; the plaintext is the true one in every case |
| `StreamReader.ExtensionAccepted` | crates/filesec-core/src/aead.rs:560-588 | an extended stream that sequential decryption refuses and reading on accepts |
| `RandomAccess.ChunkAtSound` | crates/filesec-core/src/aead.rs:440-462 | a chunk read at any offset of a tampered file is the true one if it opens |
| `RandomAccess.ReadChunkSpec` | crates/filesec-core/src/format.rs:1538-1597 | on an intact file, the chunk arithmetic finds every chunk, the short last one included |
| `RandomAccess.DecryptEntry` | crates/filesec-core/src/format.rs:1538-1597 | reading the covering chunks of an entry gives exactly plaintext[offset..offset+size] for every admitted offset and size; on tampered data either that or an error |
| `RandomAccess.ReadBlob` | crates/filesec-core/src/format_v2.rs:545-655 | reading a blob chunk by chunk gives its content if its length and digest are the manifest's, and otherwise an error |
| `Paths.SplitConcat` | crates/filesec-core/src/vault.rs:226-293 | a separator splits a path exactly where it stands |
| `Paths.SplitJoin` | crates/filesec-core/src/vault.rs:226-293 | joining components and splitting the result gives the components back |
| `Paths.SubtreeTest` | crates/filesec-core/src/format_v2.rs:1537-1546 | "equal, or starts with p and a slash" is the component-wise subtree relation, for all strings |
| `Paths.RenameRewrite` | crates/filesec-core/src/format_v2.rs:1565-1582 | rewriting a string prefix is rewriting the leading components |
| `Paths.KeepComponents` | crates/filesec-core/src/vault.rs:226-293 | one pass keeps exactly the components that are not skipped, or refuses |
| `Paths.NormalizeStoredPath` | crates/filesec-core/src/vault.rs:226-293 | the normaliser computes its declarative specification |
| `Paths.NormalizedIsCanonical` | crates/filesec-core/src/vault.rs:210-293 | everything it returns is one to 64 legal components within the length limit |
| `Paths.LegalNormalizes` | crates/filesec-core/src/vault.rs:210-293 | a path of legal components normalises to itself unless it breaks a limit |
| `Paths.NormalizationImage` | crates/filesec-core/src/vault.rs:210-293 | normalisation is idempotent and its image is exactly the canonical paths |
| `Paths.SafeNames` | crates/filesec-core/src/vault.rs:217-293 | no component of a normalised path climbs, holds a separator or a character special on some system, ends in a dot or blank, or is a device name in any case and with any extension |
| `VaultTree.RenamePoints` | crates/filesec-core/src/format_v2.rs:1556-1586 | a renamed subtree keeps every node under its new path and displaces none |
| `VaultTree.RenameClosed` | crates/filesec-core/src/format_v2.rs:1556-1586 | after a rename every ancestor is still a directory |
| `VaultTree.AbsentMeansEmpty` | crates/filesec-core/src/format_v2.rs:1377-1399 | with every ancestor present, nothing lies beneath an absent path |
| `Manifest.IndexIsLinearSearch` | crates/filesec-core/src/format_v2.rs:1609-1616 | with unique paths the hash index answers as a linear search does |
| `Manifest.EnsureDirsRefines` | crates/filesec-core/src/format_v2.rs:1377-1399 | adding missing ancestors is all or nothing, and adds exactly those |
| `Manifest.RemoveRefines` | crates/filesec-core/src/format_v2.rs:1532-1553 | removal drops exactly the subtree, keeps the tree invariant, and lists exactly the dropped blobs |
| `Manifest.RenameNoCollision` | crates/filesec-core/src/format_v2.rs:1556-1586 | a renamed subtree never meets an existing path |
| `Manifest.RenameRefines` | crates/filesec-core/src/format_v2.rs:1556-1586 | renaming the vector is renaming the tree, blobs untouched |
| `Batch.PutRefines` | crates/filesec-core/src/format_v2.rs:1446-1478 | a put succeeds if and only if the tree admits it and its blob could be written, and then the tree has the file; otherwise the manifest is unchanged |
| `Batch.MkdirRefines` | crates/filesec-core/src/format_v2.rs:1480-1511 | the same for making a directory |
| `Batch.RemoveOpRefines` | crates/filesec-core/src/format_v2.rs:1532-1553 | the same for removal |
| `Batch.RenameOpRefines` | crates/filesec-core/src/format_v2.rs:1556-1586 | the same for rename |
| `Batch.SetAttrRefines` | crates/filesec-core/src/format_v2.rs:1589-1606 | the same for attributes |
| `Batch.ApplyRefines` | crates/filesec-core/src/format_v2.rs:1377-1606 | every edit keeps unique paths, closed ancestors, distinct live blobs and the blob ledger, and refines the tree operation |
| `Batch.ChangesIff` | crates/filesec-core/src/format_v2.rs:1446-1606 | an accepted edit marks the batch as changed unless it makes a directory that is there, removes what is not, or renames a path to itself |
| `VaultBatches.BlobDir.RemoveAll` | crates/filesec-core/src/format_v2.rs:852-859 | unlinks exactly the given blobs, except those that cannot be unlinked |
| `VaultBatches.VaultBatch.EnsureDirs` | crates/filesec-core/src/format_v2.rs:1377-1399 | the loop over ancestors, with its index, computes the specified vector |
| `VaultBatches.VaultBatch.Place` | crates/filesec-core/src/format_v2.rs:1401-1436 | places an entry and books the staged and superseded blob as specified |
| `VaultBatches.VaultBatch.Put` | crates/filesec-core/src/format_v2.rs:1446-1478 | the in-place put, index included, is the specified one |
| `VaultBatches.VaultBatch.Mkdir` | crates/filesec-core/src/format_v2.rs:1480-1511 | likewise |
| `VaultBatches.VaultBatch.Remove` | crates/filesec-core/src/format_v2.rs:1532-1553 | likewise, with its filtering loop and reindexing |
| `VaultBatches.VaultBatch.Rename` | crates/filesec-core/src/format_v2.rs:1556-1586 | likewise, with its rewriting loop and reindexing |
| `VaultBatches.VaultBatch.SetAttr` | crates/filesec-core/src/format_v2.rs:1589-1606 | likewise |
| `VaultBatches.VaultBatch.Edit` | crates/filesec-core/src/format_v2.rs:1325-1606 | every edit of the object is the specified one and keeps the index equal to the vector's |
| `Validation.ValidIffLimits` | crates/filesec-core/src/format_v2.rs:111-152 | a committed manifest passes open-time validation if and only if the resource limits hold |
| `Validation.CheckTreeShape` | crates/filesec-core/src/vault.rs:298-314 | succeeds if and only if no file is a proper ancestor of another entry |
| `Validation.FileAbove` | crates/filesec-core/src/vault.rs:298-314 | the walk up a path finds a file exactly when one of its proper ancestors is one |
| `Validation.ValidateManifest` | crates/filesec-core/src/format_v2.rs:111-152 | the checking loop decides the declarative validity predicate |
| `Validation.ValidatedManifest` | crates/filesec-core/src/format_v2.rs:111-152 | what a reader may rely on once a manifest passed, whoever made it: one entry for each path, admissible blob parameters and countable chunks, no file above another entry |
| `Limits.EditReopensIff` | crates/filesec-core/src/format_v2.rs:1325-1606 | from a manifest that opens, an accepted edit gives one that opens if and only if the entries it adds fit the count, a put fits total size and chunk count, and every path a rename moves stays within depth and length |
| `Limits.DirsGrow` | crates/filesec-core/src/format_v2.rs:1377-1399 | the missing ancestors add one entry each, all within the limits |
| `Limits.DeepRename` | crates/filesec-core/src/format_v2.rs:1556-1586 | two accepted edits of an empty vault after which it does not open: 64 nested directories, the top one renamed one level deeper |
| `StateChain.NextAccepted` | crates/filesec-core/src/state.rs:75-113 | what `next` builds verifies and is the successor its anchor accepts |
| `StateChain.LengthPrefixedInjective` | crates/filesec-core/src/state.rs:124-156 | the length-prefixed bytes that are hashed and signed determine every field |
| `VaultWorld.ScriptRefines` | crates/filesec-core/src/format_v2.rs:809-846 | a whole batch performs its edits on the tree, or is refused |
| `VaultWorld.RefusedKeeps` | crates/filesec-core/src/format_v2.rs:809-846 | a batch refused at any edit or at the write leaves manifest, state and every readable content alone and removes the blobs it staged |
| `VaultWorld.CommitBlobs` | crates/filesec-core/src/format_v2.rs:809-859 | what a commit leaves in the blob directory: a refused batch leaves nothing new and everything old; a durable one unlinks exactly what this manifest or an earlier one gave up; any other loses nothing and queues it |
| `VaultWorld.CommitReports` | crates/filesec-core/src/format_v2.rs:809-846 | what a commit reports, by the simple model: refused if an edit that must succeed does not, unchanged if nothing changed, otherwise as the write went |
| `VaultWorld.CommitRefines` | crates/filesec-core/src/format_v2.rs:739-846 | a commit keeps the invariant of the disk, reports success exactly when it should, and on success the tree is the script's result |
| `VaultWorld.CollectKeeps` | crates/filesec-core/src/format_v2.rs:870-897 | garbage collection never unlinks a blob a possibly surviving manifest needs, and a complete one leaves every blob durable |
| `VaultWorld.RestartKeeps` | crates/filesec-core/src/format_v2.rs:739-766 | after a crash, whichever manifest survived opens on a sound blob directory, if its blobs were durable |
| `VaultWorld.CrashSafeIff` | crates/filesec-core/src/format_v2.rs:739-766 | a manifest survives every crash with all its blobs if and only if those blobs are durable |
| `VaultWorld.UnsyncedCommitCanLose` | crates/filesec-core/src/format_v2.rs:739-766 | a commit after a failed blob-directory sync can lose the new file |
| `VaultWorld.ExecRefines` | crates/filesec-core/src/format_v2.rs:739-897 | every event of a vault's life keeps the invariant, is a step of the simple model, and does to the blobs only what it may |
| `VaultWorld.RunRefines` | crates/filesec-core/src/format_v2.rs:739-897 | over every run the vault, the reader and every reopened state equal the simple model, and the blob directory changes only as each event may change it |
| `Reclamation.CommitTidy` | crates/filesec-core/src/format_v2.rs:792-859 | a commit leaves every blob on disk referenced, queued or impossible to unlink, however it ends |
| `Reclamation.CollectTidy` | crates/filesec-core/src/format_v2.rs:870-897 | a complete collection makes any vault so and empties the queue |
| `Reclamation.RunTidy` | crates/filesec-core/src/format_v2.rs:792-897 | the same over every run of commits and collections |
| `VaultStore.AdmittedIsCurrent` | crates/filesec-gui/src/store.rs:917-937 | while the anchored state is that of the manifest in place, a reader the store admits is that manifest |
| `VaultStore.MutateKeeps` | crates/filesec-gui/src/store.rs:941-983 | a mutation through a clone of any reader, stale or not, in any number of batches that may each fail or miss their anchor, leaves a sound vault |
| `VaultStore.EventKeeps` | crates/filesec-gui/src/store.rs:917-1084 | so does opening, which records or refuses what it finds, and a crash with any survivor |
| `VaultStore.RunKeeps` | crates/filesec-gui/src/store.rs:917-1084 | over every run in which a reader whose commit was not anchored is opened again first, no manifest that may survive a crash misses a blob |
| `VaultStore.MutateIff` | crates/filesec-gui/src/store.rs:941-983 | a mutation is done if and only if its reader is the manifest in place, every batch gets through, and what it changes can be written and anchored |
| `VaultStore.OpenIff` | crates/filesec-gui/src/store.rs:1462-1486 | a vault opens if and only if it is not quarantined, its manifest is within the limits, and its state is anchored or can be |
| `VaultStore.OpensIff` | crates/filesec-core/src/state.rs:193-218 | an open takes a manifest if and only if it is the anchored one or its direct successor |
| `VaultStore.SurvivorOpensIff` | crates/filesec-gui/src/store.rs:1462-1486 | after a crash following an anchored commit the vault opens if and only if the manifest last put in place survived; otherwise it is quarantined |
| `VaultStore.AdmittedEditIff` | crates/filesec-gui/src/store.rs:917-955 | every edit through a reader the store admits keeps every blob if and only if that reader finds all its blobs |
| `VaultStore.FailedCommitIff` | crates/filesec-gui/src/store.rs:1061-1084 | after a commit whose anchor failed the old reader is still admitted, and finds its blobs if and only if the commit was not known to be durable or superseded none that could be unlinked |
| `VaultStore.FailedAnchorLosesFile` | crates/filesec-gui/src/store.rs:917-955 | the run that loses a file: removed with a failed anchor, then edited through the old reader |
| `VaultStore.LossIsReachable` | crates/filesec-gui/src/store.rs:941-955 | its start is reached from a new vault by one put and one open |
| `VaultReader.VaultReaderV2.Reclaim` | crates/filesec-core/src/format_v2.rs:852-859 | superseded blobs are unlinked after a durable commit and queued otherwise |
| `VaultReader.VaultReaderV2.CommitWith` | crates/filesec-core/src/format_v2.rs:809-846 | the method on the reader object is the specified commit |
| `VaultReader.VaultReaderV2.CollectGarbage` | crates/filesec-core/src/format_v2.rs:870-897 | the method on the reader object is the specified collection |
| `VaultReader.VaultReaderV2.ReadEntry` | crates/filesec-core/src/format_v2.rs:564-655 | reading a path gives exactly the content the tree has there, or an error if there is no file |
| `VaultReader.ListingIsTree` | crates/filesec-core/src/format_v2.rs:809-846 | the listing shown to callers is the tree: one row for each path, with its kind, attributes, length and digest |
| `AnchorStore.ExecKeeps` | crates/filesec-gui/src/store.rs:866-1066 | every step of every thread, crash, deletion or restored file keeps one hash chain of anchors |
| `AnchorStore.RunKeeps` | crates/filesec-gui/src/store.rs:866-1066 | so does every run, and anchors are only ever appended |
| `AnchorStore.EveryRun` | crates/filesec-gui/src/store.rs:866-1066 | every run from a new object keeps the chain and the ledger |
| `AnchorStore.EpochNeverDecreases` | crates/filesec-core/src/state.rs:193-218 | over every run the anchored epoch never decreases |
| `AnchorStore.NoForks` | crates/filesec-core/src/state.rs:193-218 | of all files ever accepted, at any two points of any run, no two of one epoch differ |
| `AnchorStore.InterruptedCommitLoads` | crates/filesec-gui/src/store.rs:1216-1246 | a commit interrupted between file and anchor, by a crash or by a failing anchor, is accepted by the next load |
| `AnchorStore.DeletedStaysDeleted` | crates/filesec-gui/src/store.rs:347-356 | after the terminal anchor no state of the vault is ever accepted again |
| `AnchorStore.DeletionIsFinal` | crates/filesec-gui/src/store.rs:1874-1889 | recording the terminal anchor is enough for that, and failing to record it changes nothing |
| `AnchorStore.CurrentIff` | crates/filesec-gui/src/store.rs:917-937 | a reader passes the check if and only if nothing, or its very state, is anchored |
| `AnchorStore.NoLostUpdates` | crates/filesec-gui/src/store.rs:917-983 | in every interleaving the anchored payload is the fold of a ledger that is only appended to, a transaction was begun on the anchored payload and has added exactly its first edits, it reports success only with all of them, and whatever ends it adds nothing |
| `AnchorStore.LedgerStep` | crates/filesec-gui/src/store.rs:962-1066 | the ledger of edits grows only by one that is reported as committed, or by that of an interrupted commit whose file a load adopts, and a step that ends a transaction adds nothing |
| `AnchorStore.AdoptedFolds` | crates/filesec-gui/src/store.rs:1004-1025 | adopting the file in place is applying the edit it was made by |
| `AnchorStore.RunContent` | crates/filesec-gui/src/store.rs:917-1066 | over every interleaving the anchored payload is the fold of the ledger |
| `AnchorStore.SameTransaction` | crates/filesec-gui/src/store.rs:866-983 | while a transaction holds the lock no other thread changes its edits or what it builds on |
| `AnchorStore.TransactionEffect` | crates/filesec-gui/src/store.rs:941-983 | a mutation begins on the anchored payload and ends having made of it what exactly its first edits make of it, all of them if it reported success |
| `StoreTransactions.ObjectStore.AcceptState` | crates/filesec-gui/src/store.rs:1004-1025 | the anchored state passes, and its single valid successor or the first state if it can be recorded, and nothing else |
| `StoreTransactions.ObjectStore.Load` | crates/filesec-gui/src/store.rs:1462-1486 | loading accepts exactly those files and quarantines every other |
| `StoreTransactions.ObjectStore.SaveProtectedBlob` | crates/filesec-gui/src/store.rs:1216-1246 | a save succeeds if and only if an epoch is left and both writes go well, and is then anchored; what it leaves in place otherwise |
| `StoreTransactions.ObjectStore.WriteBatch` | crates/filesec-core/src/format_v2.rs:792-846 | a batch writes the new manifest, nothing when nothing changed, or fails exactly when its edit does, no epoch is left or the write fails |
| `StoreTransactions.ObjectStore.AnchorBatch` | crates/filesec-gui/src/store.rs:1061-1084 | the batch is anchored and in the ledger if and only if its state is acceptable and can be recorded |
| `StoreTransactions.ObjectStore.CommitBatch` | crates/filesec-gui/src/store.rs:973-978 | a batch goes if and only if its edit applies to what the ones before made of the payload, and what it changes has an epoch left and can be written and anchored |
| `StoreTransactions.ObjectStore.MutateInBatches` | crates/filesec-gui/src/store.rs:962-983 | a batched mutation is done if and only if its reader is current and every batch goes; the first that does not is where it stops, and exactly the ones before are anchored, in order, on the payload the reader had |
| `Lifecycle.RunKeeps` | crates/filesec-gui/src/store.rs:1410-1446 | every run of creations, deletions, saves done by halves, crashes and cleanups keeps data and registry consistent and never forgets a reported deletion |
| `Lifecycle.RunRecords` | crates/filesec-gui/src/store.rs:1410-1889 | over every run a vault stays on disk until its creation was rolled back or its end recorded, and reported deletions stay reported |
| `Lifecycle.ReconcileAgrees` | crates/filesec-gui/src/store.rs:1904-1957 | from every reachable state, cleanup leaves no tombstone or partial directory, lists exactly the directories that open, keeps every listed vault's data, and equals the set of directories if and only if none is broken |
| `Lifecycle.ReconcileIdempotent` | crates/filesec-gui/src/store.rs:1904-1957 | reconciling twice is reconciling once |
| `Lifecycle.ReconcileResumes` | crates/filesec-gui/src/store.rs:1904-1957 | a reconcile interrupted after any of its steps, in any order, ends in the same state when run again |
| `Lifecycle.EveryRunRecovers` | crates/filesec-gui/src/store.rs:1623-1640 | whatever happened before the power failed, the next unlock brings registry and directories into agreement, keeps the latest content of everything the registry file listed, and nothing whose deletion was reported |
| `Lifecycle.DeletionAtomic` | crates/filesec-gui/src/store.rs:1817-1889 | after any run and crash a vault is there with its latest content if no deletion of it was reported or left half done, gone for good if one was reported, and otherwise there exactly if its directory is live or still listed |
| `Lifecycle.KeptIff` | crates/filesec-gui/src/store.rs:1904-1957 | the next unlock keeps a vault if and only if its directory is live or the registry file still lists its tombstone |
| `Lifecycle.OnlySaveReports` | crates/filesec-gui/src/store.rs:1817-1845 | a complete registry save is the only step that reports a deletion, a half-done one the only step that fails one for good |
| `Lifecycle.FailedDeletionIff` | crates/filesec-gui/src/store.rs:1828-1843 | a deletion reported as failed keeps the vault, over a crash or not, if and only if it was put back, or nothing was written and the registry file lists it |
| `Lifecycle.FailedDeletionLosesVault` | crates/filesec-gui/src/store.rs:1828-1843 | a run from nothing in which a deletion reported as failed destroys the vault on the next unlock |
| `Lifecycle.RollbackInterrupted` | crates/filesec-gui/src/store.rs:1438-1443 | the two ways an interrupted rollback of a creation escapes the cleanup |
| `Outcomes.DeletionEnds` | crates/filesec-gui/src/store.rs:1817-1889 | every way a deletion can end, step by step: a complete one is reported, has its terminal anchor and leaves the vault nowhere; without the anchor its data is untouched; no other vault is touched |
| `Outcomes.RetirementEnds` | crates/filesec-gui/src/store.rs:1874-1889 | from a committed deletion, the anchor marks the vault for good and the wipe removes its tombstone, as far as it goes |
| `Outcomes.MarkedIsGone` | crates/filesec-gui/src/store.rs:1874-1889 | over every run a terminal anchor is never taken back, and its vault never live or listed again |
| `Outcomes.CreationEnds` | crates/filesec-gui/src/store.rs:1410-1446 | every way a creation can end: a complete one has its content live and listed, one that could not be built, renamed or anchored is not listed and leaves nothing unless its rollback stops half way |
| `Outcomes.EditEnds` | crates/filesec-gui/src/store.rs:941-955 | an edit is the latest content of its vault, and of no other |
| `Outcomes.SaveListEnds` | crates/filesec-gui/src/store.rs:1357-1366 | a save of the list puts the session's list in place, complete or half-done, or changes nothing |
| `Reconcile.Store.CleanPartialDirs` | crates/filesec-gui/src/store.rs:1623-1640 | removes exactly the partial directories that can be removed |
| `Reconcile.Store.ReconcileVaults` | crates/filesec-gui/src/store.rs:1904-1957 | succeeds if and only if every tombstone can be resolved and the list, if it changes, saved, and has then reached the reconciled state up to wipes that stopped; an error leaves a state from which the next unlock reaches it |
| `Reconcile.Store.RetireTombstone` | crates/filesec-gui/src/store.rs:1874-1889 | succeeds if and only if the terminal anchor is recorded; only then the wipe, which may stop half way |
| `Reconcile.StepResumes` | crates/filesec-gui/src/store.rs:1904-1957 | every step of the cleanup keeps the invariant and the state the cleanup ends in |
| `Reconcile.Store.RestoreTombstone` | crates/filesec-gui/src/store.rs:1860-1871 | puts a directory back exactly if the rename works |
| `Reconcile.Store.ResolveTombstones` | crates/filesec-gui/src/store.rs:1904-1935 | the loop succeeds if and only if every listed tombstone can be renamed back and every other anchored; left are then those whose wipe stopped |
| `Reconcile.Store.ListUnlisted` | crates/filesec-gui/src/store.rs:1936-1957 | directories that open and are not listed are listed again in one save; fails exactly if that is needed and not complete |
| `Container.RowFits` | crates/filesec-core/src/format.rs:872-916 | in a contiguous layout every file lies within the data stream |
| `Container.ScanRows` | crates/filesec-core/src/format.rs:884-899 | the loop accepts exactly the layouts with unique normalised paths, contiguous offsets and a total in range |
| `Container.ValidateLayout` | crates/filesec-core/src/format.rs:872-916 | accepts a manifest if and only if it is a valid layout for the declared ciphertext length |
| `Container.ValidatedLayout` | crates/filesec-core/src/format.rs:872-916 | what a reader may rely on once a layout passed: files one after the other within a stream of exactly their bytes, and no path twice |
| `Container.DataLenInjective` | crates/filesec-core/src/format.rs:447-454 | equal ciphertext lengths mean equal plaintext lengths |
| `Container.Reconstruct` | crates/filesec-core/src/format.rs:928-970 | reading the stream file by file succeeds if and only if it is exactly the files with their digests, and then gives every file its slice |
| `Container.WrittenData` | crates/filesec-core/src/format.rs:597-656 | what is written has the declared length, holds exactly the declared bytes and decrypts to them |
| `Segments.SelectSnoc` | crates/filesec-core/src/format.rs:340-382 | selecting segments distributes over the concatenation of streams |
| `Segments.SelectReader.Read` | crates/filesec-core/src/format.rs:340-382 | for every read size and pattern of short reads the reader delivers exactly the kept segments |
| `Segments.ReadKept` | crates/filesec-core/src/format.rs:340-382 | read to its end, the reader gives exactly the kept bytes, or fails if the source is shorter than all its segments together |
| `Segments.ChainReader.Read` | crates/filesec-core/src/format.rs:300-313 | for every non-zero read size the reader delivers exactly the concatenation of its sources |
| `ContainerEdits.SelectKeeps` | crates/filesec-core/src/format.rs:1329-1359 | one pass of select equals filter-then-concatenate: the new layout is contiguous and every kept file's slice is its old content |
| `ContainerEdits.SurvivorsPaths` | crates/filesec-core/src/format.rs:1310-1363 | dropping rows keeps the remaining paths valid |
| `ContainerEdits.Resegment` | crates/filesec-core/src/format.rs:1329-1352 | the loop computes the surviving rows with new offsets, the segments and the length |
| `ContainerEdits.KeepFlags` | crates/filesec-core/src/format.rs:1319-1327 | the string matchers keep exactly the rows under none of the removed paths |
| `ContainerEdits.RemovePaths` | crates/filesec-core/src/format.rs:1310-1363 | the whole removal, invalid names refused |
| `ContainerEdits.RemovePreserves` | crates/filesec-core/src/format.rs:1310-1363 | the container after a removal imports to exactly the surviving items; only its chunk count can still be refused |
| `ContainerEdits.ReplaceFile` | crates/filesec-core/src/format.rs:1395-1485 | succeeds if and only if the path names a file and the sizes fit, and then gives the specified layout |
| `ContainerEdits.ReplacePreserves` | crates/filesec-core/src/format.rs:1395-1485 | every other item is unchanged and the new content last; a source that changes length is refused at the write, one that changes content at import |
| `ContainerEdits.WriteIff` | crates/filesec-core/src/format.rs:609-656 | a write succeeds if and only if the stream has the declared length |
| `TamperedEdits.AllOrLess` | crates/filesec-core/src/aead.rs:560-588 | of a changed non-empty data section at least one byte is never delivered |
| `TamperedEdits.EditOfTampered` | crates/filesec-core/src/format.rs:1310-1485 | a removal or replacement writes what it would write of the intact container if the data section is intact or empty, and fails otherwise |
| `TamperedEdits.AppendOfTampered` | crates/filesec-core/src/format.rs:1218-1284 | the same for appending, which reads to the authenticated end |
| `ContainerAppend.PushAncestorDirs` | crates/filesec-core/src/format.rs:433-443 | the loop pushes the missing ancestors and skips whatever is there |
| `ContainerAppend.AppendFiles` | crates/filesec-core/src/format.rs:1218-1260 | the loops compute the specified layout, or refuse a bad name, a collision or an overflow |
| `ContainerAppend.RowsGenuine` | crates/filesec-core/src/format.rs:1218-1284 | the new stream is genuine if and only if the sources still hold the bytes that were hashed |
| `ContainerAppend.RowsTree` | crates/filesec-core/src/format.rs:1218-1284 | the new container's tree is the old one with missing ancestors and the files put in |
| `ContainerAppend.AppendValid` | crates/filesec-core/src/format.rs:1218-1284 | for every container a reader accepts, the result's names are valid if and only if no added path or directory above one is an old row spelt otherwise, no old or added file lies above an old or added path, and the rows are not too many |
| `ContainerAppend.AppendPreserves` | crates/filesec-core/src/format.rs:1218-1284 | the whole edit: when it is written, when it is genuine, what it holds, and exactly when it can be imported |
| `ContainerAppend.AppendUnderFile` | crates/filesec-core/src/format.rs:417-443 | appending beneath an existing file reports success, the write included, and gives a container no reader accepts |
| `ContainerAppend.AppendOtherSpelling` | crates/filesec-core/src/format.rs:1218-1260 | so does appending a path the container has under another spelling |
| `ContainerAppend.DottedFile` | crates/filesec-core/src/format.rs:872-916 | such a container is valid: one file whose stored name has a leading dot |
| `Export.TrashedIsSubtree` | crates/filesec-core/src/format_v2.rs:66-68 | the trash test is "the first component is .trash" |
| `Export.ExportPlan` | crates/filesec-core/src/format_v2.rs:1229-1290 | the loop computes the exported rows, the files to stream and the total |
| `Export.ExportGenuine` | crates/filesec-core/src/format_v2.rs:1229-1290 | the exported layout is contiguous and its stream holds each file with its digest |
| `Export.ExportPaths` | crates/filesec-core/src/format_v2.rs:1229-1290 | with strict names the exported manifest passes the path checks up to its length |
| `Export.ImportRows` | crates/filesec-core/src/format_v2.rs:1028-1055 | the loop cuts the files off the stream and passes its own checks if and only if the offsets are contiguous, every file is there and nothing follows the last |
| `Export.ImportTree` | crates/filesec-core/src/format_v2.rs:1010-1057 | importing succeeds if and only if the stream is the files back to back, each with its digest, and nothing more, and sizes fit; it gives exactly what the container holds, in any order of its rows |
| `Export.ExportTree` | crates/filesec-core/src/format_v2.rs:1229-1290 | an export holds exactly the tree outside the trash, directories without attributes |
| `Export.RoundTrip` | crates/filesec-core/src/format_v2.rs:1010-1290 | exporting and importing gives exactly the tree outside the trash, through a container whose data section has the declared length and whose layout validation accepts |
| `Export.ImportedVault` | crates/filesec-core/src/format_v2.rs:1010-1057 | the import of an export passes its own checks, and the vault it commits has that tree |
| `ExportReader.ContentsAreExport` | crates/filesec-core/src/format_v2.rs:1229-1290 | the listed files, in order, hold exactly the export's data stream |
| `ExportReader.OpenFile` | crates/filesec-core/src/format_v2.rs:1801-1826 | an intact blob opens with its whole content ahead |
| `ExportReader.V2PlaintextReader.Read` | crates/filesec-core/src/format_v2.rs:1829-1858 | at its end exactly the contents the manifest names were delivered, whatever the blobs held; it fails only if some blob is not what its entry says |
| `Handshake.HelloReplayCache.Admit` | crates/filesec-core/src/transport.rs:622-637 | admits a proof once, up to the capacity |
| `Handshake.ResponderSide.ReadHelloWriteAuth` | crates/filesec-core/src/transport.rs:689-745 | an Auth comes out if and only if the Hello proves the secret, is new, and the agreement is contributory |
| `Handshake.RunKeeps` | crates/filesec-core/src/transport.rs:505-787 | over every run against an active network, honest signatures and proofs exist only where an honest party made them |
| `Handshake.ResponderAgreement` | crates/filesec-core/src/transport.rs:748-787 | a responder that finishes with an honest signing key shares transcript, both session keys and both parties' signing and agreement keys with exactly one initiator run of that party, and no other responder has them |
| `Handshake.InitiatorAgreement` | crates/filesec-core/src/transport.rs:505-564 | symmetrically for an initiator |
| `Handshake.CompletesIff` | crates/filesec-core/src/transport.rs:505-787 | an undisturbed handshake completes if and only if the two ends share the secret, expect each other and have contributory ephemerals, and then both hold the same session and the right identities |
| `Handshake.NetworkCompletes` | crates/filesec-core/src/transport.rs:505-787 | whatever went on before, two new compatible honest ends have a legal run in which both finish, unless the replay cache is full or has seen the proof |
| `Handshake.SecretGate` | crates/filesec-core/src/transport.rs:622-745 | no Auth without the secret proof of someone who has it, and no proof answered twice |
| `Records.RecordSession.Seal` | crates/filesec-core/src/transport.rs:394-407 | seals with the next counter, or emits nothing and changes nothing, as specified |
| `Records.RecordSession.Open` | crates/filesec-core/src/transport.rs:412-426 | opens only at the next counter and leaves the session alone otherwise |
| `Records.RecordNonceInjective` | crates/filesec-core/src/transport.rs:290-295 | direction and counter are determined by the record nonce |
| `Records.OnlyNextOpens` | crates/filesec-core/src/transport.rs:412-426 | whatever the network sends, the one record that opens is the peer's next one |
| `Records.NextFrameOpens` | crates/filesec-core/src/transport.rs:394-426 | a frame delivered in order opens to the record that was sealed |
| `Records.SealedOpens` | crates/filesec-core/src/transport.rs:394-426 | a record is sealed if and only if a counter is left, and the peer that is in step opens it |
| `Records.AllSaidArrives` | crates/filesec-core/src/transport.rs:394-426 | on a network that does not interfere, everything either end says arrives in order, as long as the counters last |
| `Records.OpenedInStep` | crates/filesec-core/src/transport.rs:371-426 | so does every conversation over a session as its handshake opens it |
| `Records.RecordsInOrder` | crates/filesec-core/src/transport.rs:394-426 | over every run with drops, repeats, reordering, reflection and injection, accepted records are a prefix of the peer's and no two ciphertexts share key and nonce |
| `Transfer.PiecesOf` | crates/filesec-gui/src/net/sender.rs:265-287 | framing loses nothing, no record is empty, and all but the last are exactly CHUNK long |
| `Transfer.RecordWriter.Write` | crates/filesec-gui/src/net/sender.rs:230-287 | whatever the write sizes, full chunks are sent and the rest waits; it fails if and only if the user cancels, the socket fails or the counter runs out, and reports the cancellation exactly if that comes first |
| `Transfer.RecordWriter.WriteSome` | crates/filesec-gui/src/net/sender.rs:264-287 | one round of a write: a whole chunk from the caller, or what still fits the buffer |
| `Transfer.RecordWriter.Finish` | crates/filesec-gui/src/net/sender.rs:251-261 | the tail and then Done are sent, under the same condition |
| `Transfer.SendContainer` | crates/filesec-gui/src/net/sender.rs:161-167 | the records sent depend only on the container's bytes, not on how it was cut into writes, and so does whether it succeeds |
| `Transfer.ReceiveInto` | crates/filesec-gui/src/net/listener.rs:542-605 | the receive loop, broken off after any number of rounds, computes its specification on the frames until then |
| `Transfer.ReceivedLog` | crates/filesec-gui/src/net/listener.rs:542-605 | a successful reception accepted non-empty Data records that concatenate to the file, then Done, and the size is the declared one |
| `Transfer.ReceiveIsRun` | crates/filesec-gui/src/net/listener.rs:542-605 | a reception is a run of deliveries |
| `Transfer.EndToEnd` | crates/filesec-gui/src/net/listener.rs:542-605 | over every run of the network, a successful reception yields exactly the bytes given to the writer |
| `Transfer.ContainerReceived` | crates/filesec-gui/src/net/sender.rs:230-287 | of a container's frames, received in order until something breaks it off, the receiver makes the container if and only if all arrived and the declared size is right |
| `TransferCode.BitsTruncated` | crates/filesec-gui/src/net/mod.rs:321-339 | the bits a u32 buffer drops lie above every bit still pending |
| `TransferCode.CodeUnique` | crates/filesec-gui/src/net/mod.rs:321-339 | each secret has one canonical code and each code one secret |
| `TransferCode.SymbolTable` | crates/filesec-gui/src/net/mod.rs:311-311 | the symbols are Crockford's alphabet |
| `TransferCode.Encode` | crates/filesec-gui/src/net/mod.rs:321-339 | the code is the 26 base-32 digits of the 128 bits and two zero bits, grouped as section 6 of RFC 4648 describes, with zero padding as in its section 3.5 |
| `TransferCode.DecodeSymbol` | crates/filesec-gui/src/net/mod.rs:361-371 | a character is a symbol exactly when its folding is in the alphabet |
| `TransferCode.SpeltIff` | crates/filesec-gui/src/net/mod.rs:361-371 | folding recovers exactly a code typed in either case, with O for zero and I or L for one, and separators anywhere |
| `TransferCode.Decode` | crates/filesec-gui/src/net/mod.rs:380-407 | a secret comes out if and only if the input is its canonical code as a user may type it |
| `TransferCode.GroupCode` | crates/filesec-gui/src/net/mod.rs:343-352 | the code in groups with a dash between two, which changes nothing that is read back |
| `TransferCode.DisplayAndDecode` | crates/filesec-gui/src/net/mod.rs:355-407 | the displayed string is the secret's code in groups, and decodes to the secret |
| `KeystoreFile.AdvanceSigns` | crates/filesec-core/src/keystore.rs:749-766 | a change is signed as the one successor the old state's anchor accepts, or state and signature stay as they were |
| `KeystoreFile.VerifiesIffSigned` | crates/filesec-core/src/keystore.rs:725-747 | a keystore verifies if and only if its body is the one that was signed |
| `KeystoreFile.ApplyHolds` | crates/filesec-core/src/keystore.rs:931-1103 | every edit succeeds exactly when it should, and every method then opens with exactly its secret to the same data key and identity; enrolment leaves the bundle alone |
| `KeystoreFile.HistoryHolds` | crates/filesec-core/src/keystore.rs:931-1103 | so does every history of edits, failed ones included |
| `KeystoreFile.CreatedHolds` | crates/filesec-core/src/keystore.rs:580-604 | a new keystore verifies and opens with its passphrase alone |
| `KeystoreFile.RemovedIsGone` | crates/filesec-core/src/keystore.rs:964-978 | a removed passkey opens no slot |
| `KeystoreFile.FailedRemovalLingers` | crates/filesec-core/src/keystore.rs:964-978 | a removal with the wrong identity fails and cannot be written, but the next signed change includes it |
| `KeystoreFile.KeystoreV3.EnrolPasskey` | crates/filesec-core/src/keystore.rs:931-957 | the method on the object is the specified enrolment |
| `KeystoreFile.KeystoreV3.ForgetPasskey` | crates/filesec-core/src/keystore.rs:964-978 | likewise for removal |
| `KeystoreFile.KeystoreV3.SetDeviceToken` | crates/filesec-core/src/keystore.rs:1009-1021 | likewise for the device slot |
| `KeystoreFile.KeystoreV3.RemoveDeviceToken` | crates/filesec-core/src/keystore.rs:1028-1038 | likewise, a no-op without a slot |
| `Admission.HeldMove` | crates/filesec-gui/src/net/concurrency.rs:36-74 | how one thread's step changes the number of permits held |
| `Admission.ExecKeeps` | crates/filesec-gui/src/net/listener.rs:336-361 | every atomic step of every thread keeps permits, the single transfer and the channel |
| `Admission.Admissions` | crates/filesec-gui/src/net/listener.rs:336-507 | in every interleaving available plus held permits equal the capacity, at most one connection is between admission and guard drop, the registered channel is absent or its own, and commands reach only admitted connections |
| `Admission.ChannelIsOwn` | crates/filesec-gui/src/net/listener.rs:336-507 | whoever registers finds no channel in place, and its drop leaves none |
| `Admission.PoolAdmits` | crates/filesec-gui/src/net/concurrency.rs:36-74 | a connection that meets no other thread gets a permit if and only if one is free |
| `Admission.ExchangeRetries` | crates/filesec-gui/src/net/concurrency.rs:36-56 | a compare-exchange that loses takes no permit and tries again with what it saw; only an empty pool refuses |
| `Admission.ClaimAdmits` | crates/filesec-gui/src/net/listener.rs:336-361 | a connection that has shaken hands is admitted if and only if no transfer is under way |
| `Admission.CommandReaches` | crates/filesec-gui/src/net/listener.rs:336-507 | a forwarded command reaches the registered connection and no other |
| `Admission.VisitServed` | crates/filesec-gui/src/net/listener.rs:336-507 | an idle listener serves the next connection, passes it the command, and is then as free as before |

## Left out

- Real cryptography, key derivation, CBOR and base64: replaced by ideal terms and datatypes.
- The byte size of a sealed manifest and header, hence the size limits on them: only counts and data lengths are modelled.
- Environment errors while reading a source, and read errors of a directory listing during garbage collection: a source only reads short.
- Temporary files, permissions, symbolic links, secure wiping, free-space checks and lock files: operating-system effects.
- Extraction to disk and portable collision keys; upper-casing beyond ASCII in the reserved-name rule: library tables.
- The in-memory `Vault` and its whole-vault export: the streaming edits and the v2 engine cover the same laws.
- Suite re-keying, the `.old` directories it leaves, legacy recovery, the v1 and v2 keystore formats and the post-quantum migration.
- The choice of anchor backend, the degraded file backend and the anchor-layout upgrade.
- Sockets, timeouts, NAT mapping, rate limiting, progress reports, the contact gate and the offer's contents: transfers are lists of frames.
- Mutex poisoning and panics in the listener.
- Transfer.RecordWriter.Write: nothing is promised after a failed write, which has dropped its chunk; the sender stops there.
- Stream.StreamIntegrity: keys, nonces and associated data are one stream's; tags of other streams differ in key or nonce prefix.
- VaultWorld.RunRefines: the tree invariant is that of vaults built by these operations; a manifest made elsewhere may lack ancestor entries, which open-time validation admits.
- VaultStore.RunKeeps: a reader whose commit was not anchored is taken to be opened again before it is used, which the program's callers do and the store does not enforce.
- VaultStore.SurvivorOpensIff: assumes durable blobs and a manifest within the limits; the other survivors are those of VaultWorld.CrashSafeIff and Limits.EditReopensIff.
- Export.RoundTrip: of the container's declared length only the data section is compared; preamble, header, manifest and signature trailer are added to it as they are.
- TamperedEdits.EditOfTampered: the header and the manifest are those that were verified when the container was opened.
- Lifecycle.EveryRunRecovers: renames and registry saves are durable once they succeed, and new ids are unused.
- Handshake.RunKeeps: the classical suite; long-term keys of honest parties are not compromised.
