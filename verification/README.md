# BackupShield in Dafny

A verification model of BackupShield, a deduplicating backup engine: the Reed-Solomon codec that
repairs lost chunks, the content-addressed store with its pack files and chunk index, the
content-defined chunker, the snapshot tree, retention and deletion, compaction, scrub and repair,
and the path of a file from backup to restore.

Where the program updates state in place, the model is a class (`Matrix`, `ReedSolomon`, `Buzhash`,
`Chunker`, `Disk`, `PackWriter`, `Repository`, `ParityManager`, `Builder`, `Editor`) whose methods are
proved against functions on values; the theorems are about those functions.  `dafny verify
dfyconfig.toml` checks the whole project.

| layer | files |
|---|---|
| bytes and digests | `Wrappers`, `Bytes`, `Digest` |
| field, matrices, codec | `GaloisField`, `Gf256Tables`, `LinearAlgebra`, `GfMatrix`, `ErasureCode`, `ReedSolomonCodec`, `Recovery`, `BurstRecovery`, `CodecTheorems`, `ParityRepair`, `ParityGroups` |
| chunker | `RollingHash`, `ContentChunker` |
| packs and store | `PackFormat`, `ByteLayouts`, `ChunkStore`, `StoreSteps`, `IndexSoundness`, `TrueSizes`, `Repositories` |
| snapshots | `SnapshotTree`, `TreeEditor`, `Retention`, `Deletion` |
| compaction, crashes, repair | `Compaction`, `CompactionSafety`, `CompactionTotals`, `CrashRuns`, `RefCounts`, `SizeRuns`, `Sessions`, `GroupRepair`, `Scrub`, `LossPatterns`, `RepairOrder`, `SharedGroups` |
| backup and restore | `Framing`, `BackupRestore`, `BackupRecords`, `BackupParity`, `TreeBuilder`, `LossRepair` |

## What is proved

**Codec.** Doubling modulo 0x11D has order 255 on alpha, the tables are exact logarithms, and table
multiplication is carry-less multiplication, a field.  Gauss-Jordan elimination in place decides
invertibility in both directions.  Reconstruction is sound for every loss pattern, and succeeds
exactly when the sub-matrix it picks is injective.  The comments of the codec promise recovery from
any `data_shards` survivors; that is false for this construction.  With 64 + 8 shards, losing data
shards 0 and 51 and parity shards 65 to 68 leaves a singular choice (`AnySixtyFourAreNotEnough`).
The exact condition is proved instead for parity rows in arithmetic progression (`RecoverableIff`) and
for lost columns in arithmetic progression (`ColumnsRecoverableIff`); every other loss is reduced to the
block of used rows and lost columns (`BlockIff`).  This gives guaranteed recovery from consecutive
rows, of every burst of consecutive data shards and of every single loss, and the exact rule for two
losses.  Recovery is not monotone: the loss above becomes recoverable when data shard 1 is lost as well
(`LosingMoreCanHelp`).

**Chunker.** The table holds the low halves of 256 states of a xorshift generator whose first state,
shifts and first outputs are fixed by value (`InitTable`, `GeneratorIs`).  The rolling update is the hash of the last
32 bytes, each chunk ends at the first length that may end it, and two inputs that cut before a common
suffix agree from there.

**Store.** Any interleaving of stores, automatic flushes and explicit flushes is insertion into a map
from names to contents.  A truthful index (every entry is a place where that chunk was really
written) is kept by every operation.  `ByteLayouts` fixes pack files and framed chunks byte by byte, in
numbers, and says exactly which bytes each reader accepts; `StoreSteps` fixes when a pack is written and every field of
an index entry.

**Crashes.** `CrashRuns` is a state machine over disk and memory: full backups, deletions,
compactions, repairs, and a crash between any two writes.  Every state of every run is sound: each
stored snapshot finds all its chunks, reference counts cover all uses, and no pack is ever written
over.  The classes are tied to it: `Disk` records its state after every write, and the methods that
finish a backup, delete distinct snapshots, prune and compact ensure that *every* recorded state is sound, so their order
of writes cannot be changed without breaking their contracts.  Writing the snapshot first, as the
system-backup command does, is harmless exactly when the saved index already carries the snapshot
(`SnapshotFirstIff`); from an empty repository any chunk is lost that way (`SnapshotFirstLosesChunk`).  In
runs without crashes and compactions reference counts are exact: deleting every snapshot leaves exactly
the parity chunks in the index.  The size in an index entry is the length of what is read under the
name, in every state of every run, unless a compaction or a repair on the way replaced those contents by
others of the same name (`SizesAreTrue`).

**Retention.** A snapshot stays exactly when fewer than the limit stand before it in its day, week or month, in
terms of the cardinality of these sets (`SelectKept`, `PruneSnapshots`, `StaysIff`); with distinct timestamps those
before it are the newer ones (`EarlierIsNewer`).

**Compaction.** The books balance (`CompactionBooks`): no old pack is left, and name by name the new packs list what the old
ones listed without the names that no stored snapshot uses; entries, stored bytes and packs agree with the
answer.  Each new pack is closed as soon as its file reaches the target size (`NewPacksAre`).  At
every crash point live chunks read back.  For packs damaged in any way, a live readable chunk survives
exactly when some listing names it; a pack whose listing stops early loses chunks that were readable
(`CompactionLosesUnlisted`).

**Repair.** `ScrubAndRepair` never writes contents under a wrong name and never makes a readable chunk
unreadable, at no crash point either, whatever the damage and whatever the parity records say.  Every
bad chunk of a robust group that is recorded with its true size is readable afterwards, in whatever order the
groups are taken, unless contents found for a member collide with it.  A group's turn reads by the index of the start, so packs that other turns have written since can make it collect more
members, namely those that lie in a missing newest pack and are looked for in another group's turn; and
with more members the codec may pick dependent rows.  A group is robust when the codec succeeds on every
set of members that its turn may come to collect: so it is, with enough members left, when no parity shard
is lost or at most one data shard is, when no newest pack is missing and the codec succeeds on what is there,
and in the other cases of `RobustCases`.  At the turn's own state the condition is exact (`TurnRestoresIff`).  The order does matter
otherwise: in a truthful repository of two groups that share a chunk, after a loss of packs, both groups come
back if the second one is taken first, and of the second one everything but that chunk stays lost if the
first one is (`FirstThenSecond`, `SecondThenFirst`); `SharedGroups` gives such groups.  A full backup leaves
what repair needs: its groups cover the stored chunks in order up to fewer than `data_shards`, every member
is in the saved index at a true place, every size is true that was true before or is new, and so any later
loss in a robust group is undone (`BackupLossScrub`).

**Backup and restore.** From any later state of any run in which the snapshot is still stored, restoring
gives for every file exactly what its stored chunks show, unless the digest collides on one of them.  A
chunk over 256 MiB shows its framed bytes instead of itself.  With smaller chunks the restored tree is the
source if and only if every file that the backup *reused* had the contents of the record it took over.  A
file is reused on equal name, size and modification time; it is looked up by its bare name, so only in a
previous snapshot of one single file.  There the old contents can come back in place of the new ones
(`ReuseRestoresOldContents`); after a snapshot of a directory nothing is reused and the tree always comes back.

In numbers: with chunks of at most 256 MiB, no collision and no file that keeps the name, length and time of the
previous root but not its contents, the restored tree is the source (`TreeComesBack`, `BackupAndRestore`).
`BackupRecords` says for every place of the source what the snapshot has there, when a file is reused and when
its own chunks are stored, and that an edited file comes back with its new contents (`FileIsReusedIff`,
`EditRestoresNewContents`).  What does not decrypt or cannot be read is skipped, never restored as data
(`RefusedIsSkipped`, `UnreadIsSkipped`).

## How the environment appears

SHA-256 is an arbitrary function to 32 bytes.  Where contents matter, a theorem names the particular
pair of contents that must not collide; global injectivity is never assumed.  zstd and AES-256-GCM are
arbitrary functions for which decoding undoes encoding.  Nonces, times and snapshot ids are parameters.
A write to disk replaces one pack, the index or one snapshot as a whole.  One session is open at a time.

The hypotheses of the theorems are produced by the modelled program itself: `RunBackup` ensures the
predicate `Represents`, a sound disk, and recorded groups whose members are in the saved index;
`BackupLeavesRecord` turns each snapshot into the record that the next backup may reuse; and `InitSound`
gives the first sound state.

## Model

| member | source | states |
|---|---|---|
| GaloisField.OrderOfAlpha | crates/ecc/src/reed_solomon.rs:37-60 | alpha has order 255: alpha^m is 1 only for multiples of 255, through the prime factors 3, 5 and 17 |
| GaloisField.PowEqual | crates/ecc/src/reed_solomon.rs:37-60 | two powers of alpha are equal exactly when the exponents agree modulo 255 |
| GaloisField.EveryByteIsPower | crates/ecc/src/reed_solomon.rs:37-60 | every non-zero byte is a power of alpha, so the logarithm table is total |
| GaloisField.MulComm | crates/ecc/src/reed_solomon.rs:64-71 | multiplication modulo 0x11D is commutative |
| GaloisField.MulAssoc | crates/ecc/src/reed_solomon.rs:64-71 | multiplication modulo 0x11D is associative |
| GaloisField.Distributive | crates/ecc/src/reed_solomon.rs:64-71 | multiplication distributes over XOR |
| GaloisField.TimesAlpha | crates/ecc/src/reed_solomon.rs:37-60 | times alpha is a shift by one place, and the bit that leaves on the left comes back as 0x1D |
| GaloisField.NoZeroDivisors | crates/ecc/src/reed_solomon.rs:64-71 | a product is zero only when a factor is |
| Gf256Tables.Gf256.GeneratorLoop | crates/ecc/src/reed_solomon.rs:37-53 | the generator loop fills exp with the powers of alpha and log with their exponents |
| Gf256Tables.Gf256.GfMul | crates/ecc/src/reed_solomon.rs:64-71 | adding logarithms computes the carry-less product modulo 0x11D |
| Gf256Tables.Gf256.GfDiv | crates/ecc/src/reed_solomon.rs:75-86 | fails exactly on a zero divisor; otherwise quotient times divisor is the dividend |
| Gf256Tables.Gf256.GfInv | crates/ecc/src/reed_solomon.rs:91-96 | fails exactly on zero; otherwise the unique inverse |
| Gf256Tables.Gf256.GfPow | crates/ecc/src/reed_solomon.rs:100-109 | agrees with repeated multiplication exactly when the 64-bit product of logarithm and exponent wraps a multiple of 255 times, zero base included |
| GfMatrix.Matrix.Multiply | crates/ecc/src/reed_solomon.rs:165-183 | the triple loop computes the matrix product |
| GfMatrix.Matrix.Invert | crates/ecc/src/reed_solomon.rs:187-259 | Ok only with a two-sided inverse; Err for a square matrix only when some non-zero vector is mapped to zero |
| LinearAlgebra.EliminationGivesInverse | crates/ecc/src/reed_solomon.rs:187-259 | the reduced augmented matrix holds the inverse on both sides, from equality of kernels |
| LinearAlgebra.InverseProduct | crates/ecc/src/reed_solomon.rs:187-259 | in matrix form: the product with what `Invert` returns is the identity (the relation is symmetric, so on both sides) |
| LinearAlgebra.NoPivotMeansSingular | crates/ecc/src/reed_solomon.rs:203-213 | a column without pivot yields a kernel vector of the original matrix |
| ReedSolomonCodec.Vandermonde | crates/ecc/src/reed_solomon.rs:271-286 | entry (i, j) is alpha^(i*j) |
| ReedSolomonCodec.BuildEncodingMatrix | crates/ecc/src/reed_solomon.rs:294-315 | identity rows over the Vandermonde rows of the same index |
| ReedSolomonCodec.ReedSolomon.New | crates/ecc/src/reed_solomon.rs:346-370 | each rejected geometry with its error; every other one is accepted |
| ReedSolomonCodec.ReedSolomon.Encode | crates/ecc/src/reed_solomon.rs:380-420 | the parity shards of the codeword, for any shard length, and each error case |
| ReedSolomonCodec.ReedSolomon.Reconstruct | crates/ecc/src/reed_solomon.rs:445-583 | Ok exactly when the chosen sub-matrix is injective, with the missing shards of an explaining codeword; every Err leaves the shards unchanged |
| Recovery.VandermondeNonSingular | crates/ecc/src/reed_solomon.rs:271-286 | weighted power sums over distinct points vanish only for zero weights |
| Recovery.RecoverableIff | crates/ecc/src/reed_solomon.rs:523-537 | parity rows in arithmetic progression: invertible iff no two lost columns are confused by the step modulo 255 |
| Recovery.ConsecutiveRowsRecover | crates/ecc/src/reed_solomon.rs:523-537 | consecutive parity rows recover any loss the codec can count |
| Recovery.OneLossRecovers | crates/ecc/src/reed_solomon.rs:523-537 | one lost data shard is recoverable from any one parity shard |
| Recovery.TwoLossesRecoverIff | crates/ecc/src/reed_solomon.rs:523-537 | two lost data shards are recovered iff (r' - r)(j - i) is not a multiple of 255 |
| BurstRecovery.BlockIff | crates/ecc/src/reed_solomon.rs:523-537 | for any loss: the sub-matrix is invertible iff the block of used parity rows and lost columns is |
| BurstRecovery.RootsForceZero | crates/ecc/src/reed_solomon.rs:271-286 | a polynomial with as many different roots as coefficients is zero |
| BurstRecovery.ColumnsRecoverableIff | crates/ecc/src/reed_solomon.rs:523-537 | lost columns in arithmetic progression and any surviving rows: invertible iff no two used rows are confused by the step modulo 255 |
| BurstRecovery.BurstRecovers | crates/ecc/src/reed_solomon.rs:523-537 | in every accepted geometry a burst of consecutive data shards is recovered whenever enough shards survive |
| CodecTheorems.ReconstructIsSound | crates/ecc/src/reed_solomon.rs:445-583 | after any loss from a codeword, Ok gives the whole codeword and Err changes nothing |
| CodecTheorems.ReconstructSucceedsIff | crates/ecc/src/reed_solomon.rs:445-583 | from survivors of a codeword, success exactly when the sub-matrix is injective |
| CodecTheorems.GuaranteedRecovery | crates/ecc/src/reed_solomon.rs:445-583 | every accepted geometry, shard length and loss: consecutive parity rows in use give back the original shards |
| CodecTheorems.NoParityLost | crates/ecc/src/reed_solomon.rs:523-537 | with no parity shard lost the rows in use are consecutive |
| CodecTheorems.AnySixtyFourAreNotEnough | crates/ecc/src/reed_solomon.rs:323-325 | the promise of recovery from any data_shards survivors fails in the default geometry |
| CodecTheorems.LosingMoreCanHelp | crates/ecc/src/reed_solomon.rs:523-537 | the same loss with one more data shard lost is recoverable, because another parity row is then used |
| ParityRepair.ParityManager.ComputeParity | crates/ecc/src/repair.rs:149-192 | parity of the chunks padded with zeros to the longest |
| ParityRepair.ParityManager.RepairChunks | crates/ecc/src/repair.rs:196-240 | errors for a wrong total and for a stray index, otherwise the reconstruction of the placed chunks |
| ParityRepair.RepairRoundTrip | crates/ecc/src/repair.rs:196-240 | Ok exactly when enough rows are present and independent; then each data chunk followed by zeros, so cutting to its length is exact |
| ParityGroups.CreateParityGroup | crates/ecc/src/repair.rs:246-272 | the record names every data and parity chunk by its hash, in order |
| ParityGroups.FindGroupByHash | crates/ecc/src/repair.rs:102-107 | the first group that has the chunk among data or parity members |
| RollingHash.Buzhash.InitTable | crates/core/src/chunker.rs:40-50 | 256 words; there are 257 generator states, the first 0x0123456789ABCDEF, each made from the one before, and word i is the low half of state i + 1 |
| RollingHash.GeneratorIs | crates/core/src/chunker.rs:40-50 | one step of the generator is the shift-xors by 13, 7 and 17; the first four words of the table by value |
| RollingHash.Buzhash.Update | crates/core/src/chunker.rs:62-73 | after any bytes the state is the direct window hash of what was fed |
| RollingHash.RollingStep | crates/core/src/chunker.rs:62-73 | rotating out the oldest byte and in the new one is the window hash of the longer input |
| RollingHash.RollingStepIs | crates/core/src/chunker.rs:62-73 | the same step with the program's own operators: rotate the oldest word by 31, xor, rotate by 1, xor the new word |
| RollingHash.EmptyHashIsZero | crates/core/src/chunker.rs:52-58 | the real table entry 0 has even parity, so starting at 0 leaves no constant offset |
| ContentChunker.MaskFor | crates/core/src/chunker.rs:133-134 | the largest power of two strictly below the target, not "at most" as the comment says |
| ContentChunker.Chunker.New | crates/core/src/chunker.rs:113-142 | which sizes are rejected, in order; the mask of an accepted target: the power of two up to 2^32, then 0 up to 2^63, then 1 |
| ContentChunker.Chunker.ChunkData | crates/core/src/chunker.rs:150-194 | the one-pass loop computes the greedy partition |
| ContentChunker.ChunksRestoreData | crates/core/src/chunker.rs:150-194 | the chunks concatenate to the input |
| ContentChunker.ChunkBounds | crates/core/src/chunker.rs:150-194 | chunks are non-empty and at most the maximum, all but the last at least the minimum |
| ContentChunker.ChunkEndsFirst | crates/core/src/chunker.rs:164-184 | every chunk but the last ends where it may: at the maximum, or from the minimum on where the hash modulo the mask is the mask less one; and no shorter start of any chunk may end |
| ContentChunker.Resynchronise | crates/core/src/chunker.rs:150-194 | two inputs that both cut before a common suffix agree on every chunk from there |
| ContentChunker.HashIsLocal | crates/core/src/chunker.rs:62-73 | only the last 32 bytes decide the hash |
| PackFormat.ReadBack | crates/core/src/pack.rs:290-351 | every chunk reads back at the offset that the flush reported |
| PackFormat.ListRoundTrip | crates/core/src/pack.rs:395-451 | listing a written pack gives exactly the reported locations |
| PackFormat.ListChunks | crates/core/src/pack.rs:395-451 | the offset loop equals the recursive listing, error cases included |
| PackFormat.VerifyRoundTrip | crates/core/src/pack.rs:356-388 | every written pack verifies |
| PackFormat.VerifyDetects | crates/core/src/pack.rs:356-388 | a file of any length damaged in its body or in its checksum passes iff its body is another one with the same digest and an intact magic |
| ByteLayouts.PackIs | crates/core/src/pack.rs:143-239 | a written pack byte by byte: "BKSP", version 1, id, chunks, zero byte, digest; its length is the writer's estimate |
| ByteLayouts.ReadsIff | crates/core/src/pack.rs:290-351 | exactly which bytes at an offset make the reader give a chunk: marker 1, name, length, contents, digest |
| ByteLayouts.ListsIff | crates/core/src/pack.rs:395-451 | exactly which files list as these entries: entry after entry without a gap, then a zero byte |
| ByteLayouts.HexIs | crates/core/src/repository.rs:302-306 | names are lower-case hexadecimal, high half of each byte first |
| ChunkStore.StoreKeepsInv | crates/core/src/repository.rs:318-387 | storing keeps: pack id 0 in the index exactly for buffered chunks; one new name |
| ChunkStore.StoreReads | crates/core/src/repository.rs:318-433 | a new chunk reads back, every readable chunk reads the same |
| ChunkStore.FlushKeepsReads | crates/core/src/repository.rs:522-535 | a flush changes the result of no successful read |
| ChunkStore.StoreRefinesMap | crates/core/src/repository.rs:318-387 | storing is insertion of a new name into a map |
| ChunkStore.InterleavingsRefineMap | crates/core/src/repository.rs:318-433 | any interleaving of stores and flushes is the map that its operations mean |
| ChunkStore.StoredChunksRead | crates/core/src/repository.rs:318-433 | after any interleaving every stored chunk reads back unless a rival has its name |
| ChunkStore.ReadIsNamed | crates/core/src/repository.rs:394-433 | whatever a read returns has the name that was asked for |
| ChunkStore.StoreRefs | crates/core/src/repository.rs:318-387 | storing adds one reference to its chunk and to no other |
| StoreSteps.NewChunkIs | crates/core/src/repository.rs:318-387 | a new chunk is buffered, and the buffer is written as the next pack exactly when the file reaches the target; every field of its entry |
| StoreSteps.KnownChunkIs | crates/core/src/repository.rs:318-340 | a known chunk gets one more reference and nothing else happens |
| StoreSteps.FlushedIs | crates/core/src/repository.rs:522-535 | a flush moves the entries of the buffered chunks to their offsets in the new pack, and changes no other field |
| IndexSoundness.StoreIsSound | crates/core/src/repository.rs:318-387 | storing keeps the index truthful and every pack intact |
| IndexSoundness.FlushIsSound | crates/core/src/repository.rs:522-535 | after a flush every index entry is a real entry of a pack on disk |
| TrueSizes.StoreKeepsSize | crates/core/src/repository.rs:318-387 | storing, with or without a flush, keeps each recorded size the length of what is read under the name; a new chunk gets its own |
| TrueSizes.FlushKeepsSize | crates/core/src/repository.rs:522-535 | flushing keeps them too |
| IndexSoundness.LocatedIsListed | crates/core/src/pack.rs:395-451 | a truthful entry appears in the listing of its pack |
| Repositories.PackWriter.WritePack | crates/core/src/pack.rs:143-239 | the entry loop writes the pack format and returns its locations |
| Repositories.PackWriter.Flush | crates/core/src/pack.rs:143-239 | one write under the next id, or nothing for an empty buffer |
| Repositories.Repository.Open | crates/core/src/repository.rs:254-297 | saved index, empty buffer, next id above every pack on disk |
| Repositories.Repository.StoreChunk | crates/core/src/repository.rs:318-387 | the mutable store step equals the value step; at most one write to disk |
| Repositories.Repository.ReadChunk | crates/core/src/repository.rs:394-433 | buffer first, then the pack that the index names, with each error |
| Repositories.Repository.FlushPending | crates/core/src/repository.rs:522-535 | the mutable flush equals the value flush |
| SnapshotTree.MergeLaws | crates/core/src/watcher.rs:183-262 | merging any node: succeeds iff the way is free; then lookups at and below the path are those of the node; all other lookups unchanged; sibling names stay unique iff it succeeds or the root is no directory |
| SnapshotTree.DirectoriesAfterMerge | crates/core/src/watcher.rs:210-262 | a directory on the way keeps its attributes if it existed, and has mode 755 and the time of the merge if not; the merged node is the last child |
| SnapshotTree.RemoveLaws | crates/core/src/watcher.rs:268-313 | removal makes the path absent and changes no other lookup; the flag says that a node was there, and equally that the tree has changed |
| SnapshotTree.RemoveUndoesMerge | crates/core/src/watcher.rs:183-313 | removing what was merged at an absent path under existing parents gives the old tree |
| TreeEditor.Editor.MergeFile | crates/core/src/watcher.rs:183-262 | the step-by-step merge equals the merge function, also in what it leaves behind on failure |
| TreeEditor.Editor.RemoveFile | crates/core/src/watcher.rs:268-313 | the step-by-step removal equals the removal function |
| Retention.SelectKept | crates/core/src/snapshot.rs:541-585 | the counting loop keeps a snapshot iff fewer than `daily` before it share its day, or fewer than `weekly` its week, or fewer than `monthly` its month |
| Retention.StaysIff | crates/core/src/snapshot.rs:541-585 | the same of the policy as a value, by which prunes are compared |
| Retention.EarlierIsNewer | crates/core/src/snapshot.rs:541-585 | with distinct timestamps, those before a snapshot that share its day, week or month are the newer ones that do |
| Retention.RankCountsNewer | crates/core/src/snapshot.rs:541-585 | with distinct timestamps the rank is the number of newer snapshots in the bucket |
| Retention.LargerLimitsKeepMore | crates/core/src/snapshot.rs:541-585 | larger limits keep a superset |
| Retention.KeptAgain | crates/core/src/snapshot.rs:541-585 | among kept snapshots each is kept again, in whatever order equal timestamps are listed |
| Deletion.DecrementAllExact | crates/core/src/repository.rs:100-112 | which entries survive a list of decrements, and with what count |
| Deletion.DoomedPlusRemaining | crates/core/src/snapshot.rs:637-662 | for distinct ids, decrements plus remaining uses are the uses before |
| Deletion.DeletionIsSafe | crates/core/src/snapshot.rs:627-667 | counts still cover the remaining uses and every used chunk stays where it was |
| Deletion.DeletionKeepsIff | crates/core/src/snapshot.rs:637-662 | for any list of ids, exactly which chunks stay in the index |
| Deletion.RepeatedIdLosesChunk | crates/core/src/snapshot.rs:637-662 | naming a snapshot twice drops a chunk that another snapshot uses |
| Deletion.DeleteSnapshots | crates/core/src/snapshot.rs:627-667 | what is removed, what is left, the saved index, and every recorded state in between |
| Deletion.PruneSnapshots | crates/core/src/snapshot.rs:530-621 | a snapshot is left iff fewer than `daily` before it share its day, or fewer than `weekly` its week, or fewer than `monthly` its month; with the same records, and every recorded state in between |
| Deletion.SecondPruneRemovesNothing | crates/core/src/snapshot.rs:530-621 | a second prune with the same policy rejects nothing of what the first has left on disk, however it is listed |
| Compaction.CompactPacks | crates/core/src/pack.rs:513-668 | result, packs and index after compaction; new packs, then index, then deletions, as recorded by every write |
| CompactionSafety.CompactionConserves | crates/core/src/pack.rs:559-650 | kept plus discarded is all entries, freed is the discarded bytes, only new packs are left |
| CompactionTotals.NewPacksAre | crates/core/src/pack.rs:579-606 | the new packs have consecutive ids and hold the chunks in order; each is closed when its file first reaches the target, only the last may be smaller |
| CompactionTotals.CompactionBooks | crates/core/src/pack.rs:513-668 | after Ok no old pack is left; the new packs list, name by name, what the old ones listed of live names; entries, stored bytes and packs add up with the answer |
| CompactionSafety.CompactedEntry | crates/core/src/pack.rs:608-637 | the new index has exactly the live entries; a listed one points to a new pack, an unlisted one where it did, and no other field changes |
| CompactionSafety.CrashWhileWriting | crates/core/src/pack.rs:579-606 | while new packs are written every read through the old index is unchanged |
| CompactionSafety.CrashWhileDeleting | crates/core/src/pack.rs:608-650 | after the index was saved every listed live chunk reads, however many old packs are gone |
| CompactionSafety.StillReadableIff | crates/core/src/pack.rs:559-650 | packs damaged in any way: a live readable chunk survives iff a listing names it |
| CompactionSafety.CompactionKeepsSound | crates/core/src/pack.rs:608-650 | a truthful index stays truthful, with the same counts for live chunks |
| CompactionSafety.SameBytes | crates/core/src/pack.rs:290-351 | two successful reads of a name, before and after, agree unless these contents collide |
| CompactionSafety.CompactionLosesUnlisted | crates/core/src/pack.rs:564-577 | a damaged first marker makes a successful compaction lose a readable live chunk |
| CrashRuns.StepKeepsSound | crates/cli/src/main.rs:1676-1693 | every step of every session, crash included, keeps the repository sound |
| CrashRuns.RunsAreSound | crates/cli/src/main.rs:1676-1693 | every state of every run from an empty repository is sound |
| SizeRuns.StepKeepsSize | crates/core/src/repository.rs:463-493 | each step keeps the size of a chunk true; a compaction's new index and a repaired chunk do unless the contents before and after collide |
| SizeRuns.SizesAreTrue | crates/core/src/repository.rs:318-535 | every state of every run from the empty repository: the recorded size is true unless one of those two steps met such a pair |
| CrashRuns.SnapshotsAreReadable | crates/core/src/repository.rs:394-433 | in a sound state each stored snapshot finds every chunk in an existing pack with contents of its name |
| CrashRuns.ReopenedReads | crates/core/src/repository.rs:254-297 | a repository opened after any run reads every chunk of every snapshot |
| CrashRuns.ContentsAreStable | crates/core/src/repository.rs:394-433 | a chunk reads the same at any two points of a run unless its contents collide |
| CrashRuns.PacksAreNeverOverwritten | crates/core/src/repository.rs:254-297 | no step reuses the id of a pack that is still on disk |
| CrashRuns.SnapshotFirstIff | crates/cli/src/main.rs:3072-3085 | a snapshot saved before the index, then a crash: its chunks read iff the saved index knows them all; the disk is sound iff the saved references cover the new uses too |
| CrashRuns.SnapshotFirstLosesChunk | crates/cli/src/main.rs:3072-3085 | a run from an empty repository in which that loses the chunk, for every chunk |
| CrashRuns.LiveSetMustCover | crates/cli/src/main.rs:2442-2473 | compaction with a given live set keeps the counts sufficient iff every used chunk is in it |
| RefCounts.RefsAreExact | crates/core/src/repository.rs:318-387 | in every state of a run without crash and compaction: references are uses in snapshots, plus those of the session, plus parity stores |
| RefCounts.IndexedIff | crates/core/src/repository.rs:100-112 | between sessions of such a run a chunk is in the index iff a snapshot uses it or it was stored as parity |
| RefCounts.OnlyParityStays | crates/core/src/snapshot.rs:627-667 | once every snapshot is deleted exactly the parity chunks remain, one reference for each time they were stored |
| Sessions.FinishBackup | crates/cli/src/main.rs:1676-1693 | flush, index, snapshot: every recorded state is sound |
| Sessions.RunCompaction | crates/cli/src/main.rs:2439-2474 | the answer, packs and index are those of a compaction of the packs found, with the chunks of the stored snapshots as live set; every recorded state is sound; counts of live chunks are unchanged |
| BackupRecords.LiveIff | crates/cli/src/main.rs:2457-2466 | the live set is exactly the chunks that some file of some stored snapshot lists |
| Sessions.RunDeletion | crates/core/src/snapshot.rs:627-667 | any list of ids: every write before the last is harmless; the last is iff the saved counts stand up to all decrements, as for distinct ids |
| Sessions.RunPrune | crates/core/src/snapshot.rs:530-621 | the same snapshots are left, and every state recorded on the way is sound |
| Framing.DecompressIff | crates/compression/src/compressor.rs:119-172 | the size header round trip succeeds exactly up to 268435456 bytes, for chunks of every size |
| Framing.SerialisedParsesIff | crates/crypto/src/encryption.rs:33-86 | parsing undoes serialising exactly for 12-byte nonces and non-empty ciphertexts |
| Framing.ParsedSerialises | crates/crypto/src/encryption.rs:46-86 | serialising undoes parsing |
| Framing.RestoredChunkIff | crates/cli/src/main.rs:2128-2160 | exactly when a restored chunk is the original, with the limit of 268435456 bytes, and what comes back otherwise |
| ByteLayouts.CompressedIs | crates/compression/src/compressor.rs:119-138 | a compressed chunk is its length in four bytes, then the output of zstd |
| ByteLayouts.DecompressesIff | crates/compression/src/compressor.rs:146-172 | decompression succeeds exactly with a header of at most 268435456 and when zstd accepts the rest |
| ByteLayouts.EncryptedIs | crates/crypto/src/encryption.rs:33-44 | an encrypted chunk is the number 12 in four bytes, the nonce, the sealed text |
| ByteLayouts.DecryptsIff | crates/crypto/src/encryption.rs:129-182 | decryption succeeds exactly with a 12-byte nonce, something after it, and when the cipher opens it; a refusal is an error |
| ByteLayouts.UnprocessedIs | crates/cli/src/main.rs:2128-2160 | reading back: decrypt when there is a key, a failure being final; then decompress, a failure leaving the bytes as they are |
| BackupRestore.RestoreFile | crates/cli/src/main.rs:2126-2190 | the read loop: all chunks concatenated, or the first failure |
| BackupRestore.FileComesBack | crates/cli/src/main.rs:2126-2190 | a file's chunks give what they show, concatenated; with chunks up to 256 MiB their contents |
| BackupRestore.DirectoryRootsAreNotReused | crates/cli/src/main.rs:3840-3872 | files are looked up by bare name, so nothing is reused from a snapshot whose root is a directory |
| BackupRestore.BackupLeavesRecord | crates/cli/src/main.rs:3840-3872 | the snapshot of a single file records the chunks it was stored from, reused ones included |
| BackupRestore.SnapshotComesBack | crates/cli/src/main.rs:2042-2201 | on a sound disk a snapshot restores to what its chunks show; with chunks up to 256 MiB that is the source iff every reused file has the contents of its record |
| BackupRestore.BackupThenRestore | crates/cli/src/main.rs:2042-2201 | the same in every state of every run in which the snapshot is stored |
| BackupRecords.FileHashIs | crates/cli/src/main.rs:4682-4688 | the hash of a file is the hexadecimal digest of the names of its chunks, one after the other |
| BackupRecords.FileIsRecorded | crates/cli/src/main.rs:3840-4001 | a file at any place of the source: name, size, time, mode and hash in the snapshot at the same place |
| BackupRecords.OthersAreRecorded | crates/cli/src/main.rs:3737-3822 | directories and links at any place keep name, attributes, target and number of children |
| BackupRecords.FileIsReusedIff | crates/cli/src/main.rs:3840-3872 | the old chunks are taken over exactly when the root of the previous snapshot is a file of the same name, size and time; otherwise its own chunks are stored and the old version is recorded |
| BackupRecords.TreeComesBack | crates/cli/src/main.rs:2042-2201 | chunks of at most 268435456 bytes, no collision, and no file with name, size and time of the previous root but other contents: the restored tree is the source |
| BackupRecords.TreeComesBackLater | crates/cli/src/main.rs:2042-2201 | the same in every state of every run in which the snapshot is stored |
| BackupRecords.EditedFileComesBack | crates/cli/src/main.rs:3840-3872 | a single file whose name, size or time differs from the previous root comes back with its own contents |
| BackupRecords.OutcomesAre | crates/cli/src/main.rs:2042-2201 | the outcomes of a restore are exactly those of the files of the tree, each under the names on the way to it |
| BackupRecords.RefusedIsSkipped | crates/cli/src/main.rs:2128-2160 | a file with a chunk that does not authenticate is skipped, and nothing of it is restored |
| BackupRecords.UnreadIsSkipped | crates/cli/src/main.rs:2126-2190 | so is a file with a chunk that cannot be read |
| BackupParity.TrackedGroup | crates/cli/src/main.rs:4084-4143 | a full buffer with stored parity becomes the next group: numbers, sizes and members in the index stay as promised |
| BackupParity.BothAssigned | crates/cli/src/main.rs:4121-4131 | after the two loops every data and parity member in the index carries the number of the group |
| BackupParity.NothingReusedStoresAll | crates/cli/src/main.rs:3898-3954 | with no single file to reuse from, the stored chunks are all chunks of the tree, in order |
| TreeBuilder.Builder.FlushParityGroup | crates/cli/src/main.rs:4084-4143 | the full buffer becomes one recorded group, its parity is in the index, every member carries its number, the buffer is empty |
| TreeBuilder.Builder.AddChunk | crates/cli/src/main.rs:3918-3954 | one round of the chunk loop: stored under the hash of the processed chunk, appended to the chunks that groups and buffer hold |
| TreeBuilder.Builder.BuildTree | crates/cli/src/main.rs:3716-4001 | the tree built represents the source, uses exactly the counted references, and its new chunks are those that went to parity |
| TreeBuilder.RunBackup | crates/cli/src/main.rs:845-1005 | a full backup stores a snapshot of the given time that represents the source, an edited or new single file by its own chunks; its groups record codewords, cover the stored chunks and have all members in the saved index; every recorded state is sound; a size that was true before, or is new, is true |
| TreeBuilder.RunRestore | crates/cli/src/main.rs:1899-1990 | one outcome for every file of the snapshot, read through the reopened repository |
| TreeBuilder.ReuseRestoresOldContents | crates/cli/src/main.rs:3840-3872 | two backups of a single file with equal name, size and time: the first contents are restored from the second snapshot |
| TreeBuilder.BackupAndRestore | crates/cli/src/main.rs:845-1990 | a backup into any sound repository and a restore: every file of the source comes back |
| TreeBuilder.EditRestoresNewContents | crates/cli/src/main.rs:3840-3872 | two backups of a single file whose size or time has changed: the second contents are restored |
| ByteLayouts.IntactIff | crates/verify/src/scrub.rs:234-258 | which chunks the scrub leaves alone: the entry names a pack on disk that has, at its offset, marker, name, and as many bytes as the length field says, with that digest |
| GroupRepair.GroupComesBack | crates/verify/src/scrub.rs:303-355 | the members collected in a turn repair the group iff they are enough and their rows independent; every position starts with its chunk |
| Scrub.WriteRepairedChunk | crates/core/src/repository.rs:463-493 | refuses a wrong hash without effect; otherwise new pack, repointed entry, saved index, in that order |
| Scrub.WrittenIs | crates/core/src/repository.rs:463-493 | a repaired chunk is at byte 14 of a new pack with the largest id; its entry keeps size, references and group; nothing else changes |
| Scrub.WroteProgress | crates/core/src/repository.rs:463-493 | the written chunk is readable, no other becomes unreadable, packs are only added |
| Scrub.RepairGroup | crates/verify/src/scrub.rs:288-388 | the whole outcome of a turn: nothing without enough members or when the codec refuses, otherwise each rebuilt chunk of the right name in a new pack, in member order; safe at every write |
| Scrub.TurnRestoresIff | crates/verify/src/scrub.rs:303-388 | an unreadable wanted member is readable after the turn iff the members collected in it are enough and their rows independent |
| Scrub.TurnIsBetween | crates/verify/src/scrub.rs:268-330 | a turn collects what was readable before the scrub and at most those others whose place is a missing newest pack and that another turn looks for |
| Scrub.ScrubAndRepair | crates/verify/src/scrub.rs:208-411 | finds exactly the unreadable chunks, loses nothing at any recorded state, repairs every one with a true size in a robust group, in any order of the groups |
| LossPatterns.RobustCases | crates/verify/src/scrub.rs:268-330 | robust: solvable and undisturbed; consecutive parity rows and undisturbed parity; consecutive lost data and undisturbed data; at most one data shard lost |
| LossPatterns.AllParityIsRobust | crates/verify/src/scrub.rs:268-330 | with all parity shards readable and enough members, a group is restored in every order |
| LossPatterns.SteadyCases | crates/verify/src/scrub.rs:268-283 | no turn disturbs a group when no place of the index is a missing newest pack, or when no member belongs to an earlier group |
| RepairOrder.FirstTurn | crates/verify/src/scrub.rs:288-395 | the first group, which misses only the shared chunk, comes back and writes exactly that chunk as the next pack |
| RepairOrder.FirstThenSecond | crates/verify/src/scrub.rs:288-395 | after that turn the second group's turn collects one member more, writes nothing, and its lost members stay lost |
| RepairOrder.SecondThenFirst | crates/verify/src/scrub.rs:288-395 | in the other order every member of both groups is readable at the end |
| RepairOrder.SharingIsNotRobust | crates/verify/src/scrub.rs:268-330 | the second group is solvable before the scrub and not robust; the first one is robust |
| RepairOrder.NewestLostExists | crates/verify/src/scrub.rs:288-395 | for any two groups that share just that chunk there is a truthful, fully readable repository from which losing packs gives that state |
| SharedGroups.SharingExists | crates/ecc/src/repair.rs:24-51 | there are two such groups, of chunks of three bytes, all of whose other members have different names |
| Scrub.ProgressKeepsReads | crates/verify/src/scrub.rs:208-411 | a chunk that was readable before the scrub reads the same bytes after it |
| LossRepair.LostIsRepairable | crates/verify/src/scrub.rs:208-411 | after a backup, a lost chunk of a robust group meets every premise of repair, its true size included, unless what the backup left under the name collides with the member |
| LossRepair.BackupLossScrub | crates/cli/src/main.rs:845-1005 | backup, any change to the packs, scrub with the groups of that backup: every such chunk is readable again |

## Left out

- SHA-256, zstd, AES-256-GCM and Argon2 internals; JSON and TOML; fsync; I/O error returns; lock files.
- Incremental backup, the watch daemon and the system-backup command: incremental backup clones a tree without raising reference counts, and the order of writes of system-backup is only characterised.
- The storage crate, APFS, VSS, Windows attributes, scheduling, recovery bundles, symlink targets and permissions on restore, file filters, dry runs and progress output.
- The snapshot tree is edited as an owned value that is written back, as Rust's exclusive references allow; aliasing between nodes cannot arise and is not modelled.
- Repositories.Repository.StoreChunk: requires chunks below 2^32 bytes, because sizes are stored in 32 bits and the cast is not range-checked by the source.
- ContentChunker.Chunker.New: arithmetic as in a release build, where a next power of two of 2^64 becomes 0; a build with overflow checks stops there.  Chunking itself requires the mask to be positive.
- TreeBuilder.RunBackup: requires that processed chunks stay below 2^32 bytes.  The parity index file is written by every backup that made a group and replaces the one before it; the model returns the groups.
- Sessions.RunCompaction: live chunks are collected and compacted in one session; the program releases its lock in between, and `CrashRuns.LiveSetMustCover` says what an outdated live set does.
- Scrub.ScrubAndRepair: repair is promised for robust groups, whatever the order of turns; for the others it depends on the order, and `Scrub.TurnRestoresIff` decides each turn.  `repaired_count` counts writes.
- CrashRuns.RunsAreSound: packs damaged behind the program's back are the subject of `Scrub`, `LossRepair` and `CompactionSafety`, not of these runs; deletions in a run have distinct ids (`Sessions.RunDeletion` has any); the parity index file is not part of the disk state.
- PackFormat.ListChunks: the source also rejects a stored name that is not UTF-8; names here are 64 arbitrary bytes.
- Recovery.RecoverableIff: for used rows not in progression the exact condition is that of `BurstRecovery.BlockIff`, the invertibility of a smaller matrix, and arithmetic only when the lost columns are in progression.
- TreeBuilder.Builder.BuildTree: source entries are read without I/O errors, so none is skipped, and exclusion patterns are not applied.
- TreeBuilder.RunRestore: no file filter, overwrite check or write to disk; directories and symlinks have no outcome of their own.
- BackupRestore.RestoreFile: the read loop only; the hash checks of the verify option add messages and change no result.
- RefCounts.RefsAreExact: after a crash counts can be too high, and compaction drops parity chunks, so such runs have only the bounds of `CrashRuns`.
- Chunks of older file versions and parity chunks are not protected by compaction in the source, so no theorem claims it.
- Switching encryption on after a first backup: older chunks then fail to decrypt; the pipeline settings are the same for backup and restore here.
- Calendar keys are arbitrary functions of the timestamp (the source pairs the calendar year with the ISO week); listing order is a parameter.
- Hash map iteration order: loops over maps pick elements in any order.
- Counters `u32`/`u64` for groups and packs are unbounded.
