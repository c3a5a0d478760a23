/**
 Whole runs of the program over one repository: full backups ending in `finish_backup`,
 deletions, compactions, repairs, and crashes between any two writes to disk.  One session is
 open at a time, as the repository lock enforces.
 */
module CrashRuns {
  import opened Wrappers
  import opened Bytes
  import opened Digest
  import opened PackFormat
  import opened ChunkStore
  import opened Repositories
  import opened Deletion
  import opened IndexSoundness
  import opened Compaction
  import opened CompactionSafety

  // ── States ───────────────────────────────────────────────────────────────

  datatype BackupPhase = Building | Flushed | IndexSaved

  /** A compaction after its collection succeeded. */
  datatype Job = Job(packs: Packs, live: set<Hash>, ids: seq<nat>, c: Collected, first: nat, target: nat)

  /** What is in memory; a crash loses it. */
  datatype Session =
    | Idle
    | Backup(store: Store, used: seq<Hash>, phase: BackupPhase)
    | Deleting(index: Index, listed: Snapshots, ids: seq<string>, k: nat)
    | Copying(job: Job, n: nat)
    | Copied(job: Job)
    | Dropping(job: Job, n: nat)
    | Repairing(index: Index)

  datatype State = State(packs: Packs, index: Option<Index>, snapshots: Snapshots, session: Session)

  datatype Action =
    | Crash
    | OpenBackup(nextId: nat, target: nat)
    | StoreData(data: Bytes, inTree: bool)
    | Reuse(h: Hash)
    | SetGroup(h: Hash, group: nat)
    | Flush
    | SaveIndex
    | SaveSnapshot(snapshot: Snapshot)
    | OpenDelete(ids: seq<string>)
    | DeleteNext
    | SaveDeletion
    | OpenCompact(packIds: seq<nat>, target: nat)
    | CopyNext
    | FinishCopy
    | SaveCompacted
    | DropNext
    | CloseCompact
    | OpenRepair
    | WriteRepaired(nextId: nat, h: Hash, data: Bytes)
    | SaveRepaired
    | CloseRepair

  function Init(): State {
    State(map[], None, map[], Idle)
  }

  // ── Pieces of the transitions ────────────────────────────────────────────

  /** One more than the largest id on disk. */
  predicate IsNextId(packs: Packs, nextId: nat) {
    && nextId > 0
    && (forall id :: id in packs ==> id < nextId)
    && (nextId == 1 || nextId - 1 in packs)
  }

  /** The chunks that stored snapshots use. */
  function LiveHashes(snapshots: Snapshots): set<Hash> {
    set id, k | id in snapshots && 0 <= k < |ChunksOf(snapshots[id])| :: ChunksOf(snapshots[id])[k]
  }

  function Increment(index: Index, h: Hash): Index {
    if h in index then index[h := index[h].(refs := index[h].refs + 1)] else index
  }

  function InGroup(index: Index, h: Hash, group: nat): Index {
    if h in index then index[h := index[h].(parityGroup := group)] else index
  }

  function CopiedSoFar(sha: Sha, job: Job, n: nat): Output
    requires n <= |job.c.chunks|
  {
    WriteLive(sha, Output(job.packs, [], job.first, [], []), job.c.chunks, job.target, n)
  }

  function AllCopied(sha: Sha, job: Job): Output {
    Rewritten(sha, job.packs, job.c.chunks, job.first, job.target)
  }

  /** Point the entry of a repaired chunk at the only chunk of pack `id`. */
  function Repointed(index: Index, id: nat, h: Hash, data: Bytes): Index {
    if h in index then index[h := index[h].(packId := id, packOffset := HEADER_SIZE, compressedSize := |data|)] else index
  }

  // ── Transitions ──────────────────────────────────────────────────────────

  predicate OfBackup(a: Action) {
    a.OpenBackup? || a.StoreData? || a.Reuse? || a.SetGroup? || a.Flush? || a.SaveIndex? || a.SaveSnapshot?
  }

  predicate OfDeletion(a: Action) {
    a.OpenDelete? || a.DeleteNext? || a.SaveDeletion?
  }

  predicate OfCompaction(a: Action) {
    a.OpenCompact? || a.CopyNext? || a.FinishCopy? || a.SaveCompacted? || a.DropNext? || a.CloseCompact?
  }

  ghost predicate Enabled(sha: Sha, s: State, a: Action) {
    if a.Crash? then true
    else if OfBackup(a) then BackupEnabled(s, a)
    else if OfDeletion(a) then DeletionEnabled(s, a)
    else if OfCompaction(a) then CompactionEnabled(s, a)
    else RepairEnabled(sha, s, a)
  }

  ghost function Apply(sha: Sha, s: State, a: Action): State
    requires Enabled(sha, s, a)
  {
    if a.Crash? then s.(session := Idle)
    else if OfBackup(a) then ApplyBackup(sha, s, a)
    else if OfDeletion(a) then ApplyDeletion(s, a)
    else if OfCompaction(a) then ApplyCompaction(sha, s, a)
    else ApplyRepair(sha, s, a)
  }

  ghost predicate BackupEnabled(s: State, a: Action)
    requires OfBackup(a)
  {
    match a
    case OpenBackup(nextId, _) => s.session.Idle? && IsNextId(s.packs, nextId)
    case StoreData(data, _) => s.session.Backup? && s.session.phase.Building? && |data| < MAX_STORED
    case Reuse(h) => s.session.Backup? && s.session.phase.Building? && Occurrences(s.snapshots, h) > 0
    case SetGroup(_, _) => s.session.Backup? && s.session.phase.Building?
    case Flush => s.session.Backup? && s.session.phase.Building?
    case SaveIndex => s.session.Backup? && s.session.phase.Flushed?
    case SaveSnapshot(snapshot) =>
      && s.session.Backup? && s.session.phase.IndexSaved? && snapshot.id !in s.snapshots
      && forall h :: Uses(snapshot, h) <= Count(s.session.used, h, |s.session.used|)
  }

  ghost function ApplyBackup(sha: Sha, s: State, a: Action): State
    requires OfBackup(a) && BackupEnabled(s, a)
  {
    match a
    case OpenBackup(nextId, target) =>
      s.(session := Backup(Store(s.packs, SavedIndex(s.index), [], nextId, target), [], Building))
    case StoreData(data, inTree) => Stored(sha, s, data, inTree)
    case Reuse(h) =>
      var store := s.session.store;
      s.(session := Backup(store.(index := Increment(store.index, h)), s.session.used + [h], Building))
    case SetGroup(h, group) =>
      var store := s.session.store;
      s.(session := Backup(store.(index := InGroup(store.index, h, group)), s.session.used, Building))
    case Flush =>
      var store := FlushPending(sha, s.session.store);
      s.(packs := store.packs, session := Backup(store, s.session.used, Flushed))
    case SaveIndex =>
      s.(index := Some(s.session.store.index), session := s.session.(phase := IndexSaved))
    case SaveSnapshot(snapshot) =>
      s.(snapshots := s.snapshots[snapshot.id := snapshot], session := Idle)
  }

  predicate DeletionEnabled(s: State, a: Action)
    requires OfDeletion(a)
  {
    match a
    case OpenDelete(ids) => s.session.Idle? && DistinctIdList(ids, |ids|)
    case DeleteNext => s.session.Deleting? && s.session.k < |s.session.ids|
    case SaveDeletion => s.session.Deleting? && s.session.k == |s.session.ids|
  }

  ghost function ApplyDeletion(s: State, a: Action): State
    requires OfDeletion(a) && DeletionEnabled(s, a)
  {
    match a
    case OpenDelete(ids) =>
      if ids == [] then s else s.(session := Deleting(SavedIndex(s.index), s.snapshots, ids, 0))
    case DeleteNext => DeletedOne(s)
    case SaveDeletion => s.(index := Some(s.session.index), session := Idle)
  }

  ghost predicate CompactionEnabled(s: State, a: Action)
    requires OfCompaction(a)
  {
    match a
    case OpenCompact(ids, _) => s.session.Idle? && IsPackList(ids, s.packs)
    case CopyNext => s.session.Copying? && s.session.n < |s.session.job.c.chunks|
    case FinishCopy => s.session.Copying? && s.session.n == |s.session.job.c.chunks|
    case SaveCompacted => s.session.Copied?
    case DropNext => s.session.Dropping? && s.session.n < |s.session.job.ids|
    case CloseCompact => s.session.Dropping? && s.session.n == |s.session.job.ids|
  }

  ghost function ApplyCompaction(sha: Sha, s: State, a: Action): State
    requires OfCompaction(a) && CompactionEnabled(s, a)
  {
    match a
    case OpenCompact(ids, target) => StartedCompaction(sha, s, ids, target)
    case CopyNext =>
      var n := s.session.n + 1;
      s.(packs := CopiedSoFar(sha, s.session.job, n).packs, session := Copying(s.session.job, n))
    case FinishCopy => s.(packs := AllCopied(sha, s.session.job).packs, session := Copied(s.session.job))
    case SaveCompacted =>
      s.(index := Some(CompactedIndex(SavedIndex(s.index), AllCopied(sha, s.session.job).moved, s.session.job.live)),
         session := Dropping(s.session.job, 0))
    case DropNext =>
      s.(packs := s.packs - {s.session.job.ids[s.session.n]}, session := Dropping(s.session.job, s.session.n + 1))
    case CloseCompact => s.(session := Idle)
  }

  ghost predicate RepairEnabled(sha: Sha, s: State, a: Action)
    requires !a.Crash? && !OfBackup(a) && !OfDeletion(a) && !OfCompaction(a)
  {
    match a
    case OpenRepair => s.session.Idle?
    case WriteRepaired(nextId, h, data) =>
      s.session.Repairing? && IsNextId(s.packs, nextId) && HashOfChunk(sha, data) == h && |data| < MAX_STORED
    case SaveRepaired => s.session.Repairing?
    case CloseRepair => s.session.Repairing? && s.index == Some(s.session.index)
  }

  ghost function ApplyRepair(sha: Sha, s: State, a: Action): State
    requires !a.Crash? && !OfBackup(a) && !OfDeletion(a) && !OfCompaction(a) && RepairEnabled(sha, s, a)
  {
    match a
    case OpenRepair => s.(session := Repairing(SavedIndex(s.index)))
    case WriteRepaired(nextId, h, data) =>
      s.(packs := s.packs[nextId := PackFile(sha, nextId, [Entry(h, data)])],
         session := Repairing(Repointed(s.session.index, nextId, h, data)))
    case SaveRepaired => s.(index := Some(s.session.index))
    case CloseRepair => s.(session := Idle)
  }

  /** Store a file chunk or a parity chunk; only the former is recorded in the tree. */
  ghost function Stored(sha: Sha, s: State, data: Bytes, inTree: bool): State
    requires s.session.Backup?
  {
    var store := StoreChunk(sha, s.session.store, data);
    var used := if inTree then s.session.used + [HashOfChunk(sha, data)] else s.session.used;
    s.(packs := store.packs, session := Backup(store, used, Building))
  }

  /** Decrement the next listed snapshot in memory and remove its file; unknown ids are skipped. */
  ghost function DeletedOne(s: State): State
    requires s.session.Deleting? && s.session.k < |s.session.ids|
  {
    var d := s.session;
    var id := d.ids[d.k];
    if id in d.listed then
      var hashes := ChunksOf(d.listed[id]);
      s.(snapshots := Drop(s.snapshots, id), session := d.(index := DecrementAll(d.index, hashes, |hashes|), k := d.k + 1))
    else
      s.(session := d.(k := d.k + 1))
  }

  /** The index is saved once before; nothing else happens without packs or when a pack cannot be read. */
  ghost function StartedCompaction(sha: Sha, s: State, ids: seq<nat>, target: nat): State
    requires IsPackList(ids, s.packs)
  {
    var saved := s.(index := Some(SavedIndex(s.index)));
    if |ids| == 0 then saved
    else
      match CollectAll(sha, s.packs, LiveHashes(s.snapshots), ids, |ids|)
      case Err(_) => saved
      case Ok(c) => saved.(session := Copying(Job(s.packs, LiveHashes(s.snapshots), ids, c, ids[|ids| - 1] + 1, target), 0))
  }

  // ── The invariant ────────────────────────────────────────────────────────

  /** What every crash leaves: a truthful index with enough references for all stored snapshots. */
  ghost predicate DiskSound(sha: Sha, packs: Packs, index: Index, snapshots: Snapshots) {
    && PositiveIds(packs)
    && IndexSound(sha, packs, index)
    && RefsCover(index, snapshots)
  }

  /** References of the chunks used so far, on top of those of the stored snapshots. */
  ghost predicate Covered(index: Index, snapshots: Snapshots, used: seq<Hash>) {
    forall h :: Occurrences(snapshots, h) + Count(used, h, |used|) <= Refs(index, h)
  }

  ghost predicate BackupSound(sha: Sha, s: State)
    requires s.session.Backup?
  {
    var store := s.session.store;
    && Inv(sha, store) && StoreSound(sha, store) && store.packs == s.packs
    && Covered(store.index, s.snapshots, s.session.used)
    && (!s.session.phase.Building? ==> store.buffer == [] && IndexSound(sha, s.packs, store.index))
    && (s.session.phase.IndexSaved? ==> s.index == Some(store.index))
  }

  ghost predicate DeletionSound(s: State)
    requires s.session.Deleting?
  {
    var d := s.session;
    && d.k <= |d.ids| && DistinctIdList(d.ids, |d.ids|)
    && RefsCover(SavedIndex(s.index), d.listed)
    && s.snapshots == Remaining(d.listed, d.ids, d.k)
    && var doomed := DoomedChunks(d.listed, d.ids, d.k);
       d.index == DecrementAll(SavedIndex(s.index), doomed, |doomed|)
  }

  ghost predicate JobSound(sha: Sha, job: Job, snapshots: Snapshots) {
    && Compacting(sha, job.packs, job.live, job.ids, job.c, job.first)
    && PositiveIds(job.packs)
    && job.live == LiveHashes(snapshots)
  }

  ghost predicate SessionSound(sha: Sha, s: State) {
    match s.session
    case Idle => true
    case Backup(_, _, _) => BackupSound(sha, s)
    case Deleting(_, _, _, _) => DeletionSound(s)
    case Copying(job, n) =>
      && JobSound(sha, job, s.snapshots) && n <= |job.c.chunks|
      && s.packs == CopiedSoFar(sha, job, n).packs
      && IndexSound(sha, job.packs, SavedIndex(s.index))
    case Copied(job) =>
      && JobSound(sha, job, s.snapshots)
      && s.packs == AllCopied(sha, job).packs
      && IndexSound(sha, job.packs, SavedIndex(s.index))
    case Dropping(job, n) =>
      && JobSound(sha, job, s.snapshots) && n <= |job.ids|
      && s.packs == WithoutPacks(AllCopied(sha, job).packs, job.ids, n)
      && DropSound(sha, job, SavedIndex(s.index))
    case Repairing(index) =>
      && IndexSound(sha, s.packs, index)
      && RefsCover(index, s.snapshots)
  }

  /** From the saved index on, the disk is sound however many old packs are gone. */
  ghost predicate DropSound(sha: Sha, job: Job, index: Index) {
    forall n :: 0 <= n <= |job.ids| ==> IndexSound(sha, WithoutPacks(AllCopied(sha, job).packs, job.ids, n), index)
  }

  ghost predicate Sound(sha: Sha, s: State) {
    && DiskSound(sha, s.packs, SavedIndex(s.index), s.snapshots)
    && SessionSound(sha, s)
  }

  // ── Backups ──────────────────────────────────────────────────────────────

  /** A truthful index names no chunk as still buffered. */
  lemma SoundIsFlushed(sha: Sha, packs: Packs, index: Index)
    requires PositiveIds(packs) && IndexSound(sha, packs, index)
    ensures NothingPending(index)
  {
    hide Located;
    forall h | h in index
      ensures index[h].packId != 0
    {
      assert EntrySound(sha, packs, index, h);
      LocatedInPack(sha, packs, index[h].packId, index[h].packOffset, h);
    }
  }

  lemma OpenBackupSound(sha: Sha, s: State, nextId: nat, target: nat)
    requires Sound(sha, s) && s.session.Idle? && IsNextId(s.packs, nextId)
    ensures Sound(sha, Apply(sha, s, OpenBackup(nextId, target)))
  {
    hide IndexSound, RefsCover, Inv, NothingPending, StoreSound, Covered, PositiveIds;
    var index := SavedIndex(s.index);
    var store := Store(s.packs, index, [], nextId, target);
    SoundIsFlushed(sha, s.packs, index);
    OpenedInv(sha, store);
    SoundWithoutBuffer(sha, store);
    NothingUsed(index, s.snapshots);
  }

  lemma NothingUsed(index: Index, snapshots: Snapshots)
    requires RefsCover(index, snapshots)
    ensures Covered(index, snapshots, [])
  {
    hide Occurrences;
    forall h
      ensures Occurrences(snapshots, h) + Count([], h, 0) <= Refs(index, h)
    {
      assert Occurrences(snapshots, h) <= Refs(index, h);
    }
  }

  /** The disk stays sound when packs are only added. */
  lemma DiskExtends(sha: Sha, before: Packs, after: Packs, index: Index, snapshots: Snapshots)
    requires DiskSound(sha, before, index, snapshots) && Extends(after, before) && PositiveIds(after)
    ensures DiskSound(sha, after, index, snapshots)
  {
    hide IndexSound, RefsCover;
    SoundExtends(sha, before, after, index);
  }

  lemma InvPositive(sha: Sha, s: Store)
    requires Inv(sha, s)
    ensures PositiveIds(s.packs)
  {
  }

  lemma CountOneMore(used: seq<Hash>, x: Hash, h: Hash)
    ensures Count(used + [x], h, |used + [x]|) == Count(used, h, |used|) + if x == h then 1 else 0
  {
    CountAppend(used, [x], h, 1);
    assert Count([x], h, 0) == 0;
  }

  /** One more reference for one more use. */
  lemma StoredCovered(sha: Sha, store: Store, data: Bytes, snapshots: Snapshots, used: seq<Hash>, inTree: bool)
    requires Inv(sha, store) && |data| < MAX_STORED && Covered(store.index, snapshots, used)
    ensures var used' := if inTree then used + [HashOfChunk(sha, data)] else used;
            Covered(StoreChunk(sha, store, data).index, snapshots, used')
  {
    hide Inv, StoreChunk, HashOfChunk, Occurrences, Refs, Count;
    var used' := if inTree then used + [HashOfChunk(sha, data)] else used;
    forall h
      ensures Occurrences(snapshots, h) + Count(used', h, |used'|) <= Refs(StoreChunk(sha, store, data).index, h)
    {
      StoreRefs(sha, store, data, h);
      CountOneMore(used, HashOfChunk(sha, data), h);
    }
  }

  lemma StoreDataSound(sha: Sha, s: State, data: Bytes, inTree: bool)
    requires Sound(sha, s) && Enabled(sha, s, StoreData(data, inTree))
    ensures Sound(sha, Stored(sha, s, data, inTree))
  {
    hide Inv, StoreChunk, HashOfChunk, StoreSound, Covered, DiskSound, Extends, IndexSound, PositiveIds;
    var store := s.session.store;
    StoreKeepsInv(sha, store, data);
    StoreIsSound(sha, store, data);
    StoredCovered(sha, store, data, s.snapshots, s.session.used, inTree);
    InvPositive(sha, StoreChunk(sha, store, data));
    DiskExtends(sha, s.packs, StoreChunk(sha, store, data).packs, SavedIndex(s.index), s.snapshots);
  }

  /** The same entries at the same places, with the same sizes. */
  ghost predicate SamePlaces(a: Index, b: Index) {
    && a.Keys == b.Keys
    && forall h :: h in a ==> a[h].packId == b[h].packId && a[h].packOffset == b[h].packOffset && a[h].size == b[h].size
  }

  /** Changing counts or groups moves no chunk. */
  lemma SamePlacesSound(sha: Sha, store: Store, t: Store)
    requires Inv(sha, store) && StoreSound(sha, store)
    requires t == store.(index := t.index) && SamePlaces(t.index, store.index)
    ensures Inv(sha, t) && StoreSound(sha, t)
  {
    SamePlacesInv(sha, store, t);
    hide Located, Inv;
    forall x | x in t.index && t.index[x].packId != 0
      ensures EntrySound(sha, t.packs, t.index, x)
    {
      assert EntrySound(sha, store.packs, store.index, x);
    }
  }

  lemma SamePlacesInv(sha: Sha, store: Store, t: Store)
    requires Inv(sha, store) && t == store.(index := t.index) && SamePlaces(t.index, store.index)
    ensures Inv(sha, t)
  {
    hide HashOfChunk;
  }

  lemma IncrementCovered(index: Index, h: Hash, snapshots: Snapshots, used: seq<Hash>)
    requires Covered(index, snapshots, used) && h in index
    ensures Covered(Increment(index, h), snapshots, used + [h]) && SamePlaces(Increment(index, h), index)
  {
    hide Occurrences, Count;
    var used' := used + [h];
    forall x
      ensures Occurrences(snapshots, x) + Count(used', x, |used'|) <= Refs(Increment(index, h), x)
    {
      CountOneMore(used, h, x);
      assert Occurrences(snapshots, x) + Count(used, x, |used|) <= Refs(index, x);
    }
  }

  /** A chunk of a stored snapshot is in the index, since the snapshot holds a reference to it. */
  lemma UsedIsIndexed(index: Index, snapshots: Snapshots, used: seq<Hash>, h: Hash)
    requires Covered(index, snapshots, used) && Occurrences(snapshots, h) > 0
    ensures h in index
  {
    hide Occurrences, Count;
    assert Occurrences(snapshots, h) + Count(used, h, |used|) <= Refs(index, h);
  }

  lemma ReuseSound(sha: Sha, s: State, h: Hash)
    requires Sound(sha, s) && Enabled(sha, s, Reuse(h))
    ensures Sound(sha, Apply(sha, s, Reuse(h)))
  {
    hide Inv, StoreSound, DiskSound, Covered, Occurrences, IndexSound, Increment, SamePlaces;
    var store, used := s.session.store, s.session.used;
    UsedIsIndexed(store.index, s.snapshots, used, h);
    IncrementCovered(store.index, h, s.snapshots, used);
    SamePlacesSound(sha, store, store.(index := Increment(store.index, h)));
  }

  lemma GroupKeepsRefs(index: Index, h: Hash, group: nat, snapshots: Snapshots, used: seq<Hash>)
    requires Covered(index, snapshots, used)
    ensures Covered(InGroup(index, h, group), snapshots, used) && SamePlaces(InGroup(index, h, group), index)
  {
    hide Occurrences, Count;
    forall x
      ensures Occurrences(snapshots, x) + Count(used, x, |used|) <= Refs(InGroup(index, h, group), x)
    {
      assert Occurrences(snapshots, x) + Count(used, x, |used|) <= Refs(index, x);
    }
  }

  lemma SetGroupSound(sha: Sha, s: State, h: Hash, group: nat)
    requires Sound(sha, s) && Enabled(sha, s, SetGroup(h, group))
    ensures Sound(sha, Apply(sha, s, SetGroup(h, group)))
  {
    hide Inv, StoreSound, DiskSound, Covered, IndexSound, InGroup, SamePlaces;
    var store, used := s.session.store, s.session.used;
    GroupKeepsRefs(store.index, h, group, s.snapshots, used);
    SamePlacesSound(sha, store, store.(index := InGroup(store.index, h, group)));
  }

  lemma FlushedCovered(sha: Sha, store: Store, snapshots: Snapshots, used: seq<Hash>)
    requires Covered(store.index, snapshots, used)
    ensures Covered(FlushPending(sha, store).index, snapshots, used)
  {
    hide FlushPending, Occurrences, Refs, Count;
    forall h
      ensures Occurrences(snapshots, h) + Count(used, h, |used|) <= Refs(FlushPending(sha, store).index, h)
    {
      FlushRefs(sha, store, h);
    }
  }

  lemma FlushSound(sha: Sha, s: State)
    requires Sound(sha, s) && Enabled(sha, s, Flush)
    ensures Sound(sha, Apply(sha, s, Flush))
  {
    hide Inv, FlushPending, StoreSound, Covered, DiskSound, Extends, IndexSound, PositiveIds;
    var store := s.session.store;
    FlushKeepsInv(sha, store);
    FlushIsSound(sha, store);
    FlushExtends(sha, store);
    SoundWithoutBuffer(sha, FlushPending(sha, store));
    FlushedCovered(sha, store, s.snapshots, s.session.used);
    InvPositive(sha, FlushPending(sha, store));
    DiskExtends(sha, s.packs, FlushPending(sha, store).packs, SavedIndex(s.index), s.snapshots);
  }

  lemma CoveredCovers(index: Index, snapshots: Snapshots, used: seq<Hash>)
    requires Covered(index, snapshots, used)
    ensures RefsCover(index, snapshots)
  {
    hide Occurrences, Refs, Count;
    forall h
      ensures Occurrences(snapshots, h) <= Refs(index, h)
    {
      assert Occurrences(snapshots, h) + Count(used, h, |used|) <= Refs(index, h);
    }
  }

  lemma SaveIndexSound(sha: Sha, s: State)
    requires Sound(sha, s) && Enabled(sha, s, SaveIndex)
    ensures Sound(sha, Apply(sha, s, SaveIndex))
  {
    hide Inv, StoreSound, Covered, IndexSound, PositiveIds, RefsCover;
    CoveredCovers(s.session.store.index, s.snapshots, s.session.used);
  }

  lemma SnapshotCovered(index: Index, snapshots: Snapshots, used: seq<Hash>, snapshot: Snapshot)
    requires Covered(index, snapshots, used) && snapshot.id !in snapshots
    requires forall h :: Uses(snapshot, h) <= Count(used, h, |used|)
    ensures RefsCover(index, snapshots[snapshot.id := snapshot])
  {
    hide Occurrences, Refs, Count, Uses;
    forall h
      ensures Occurrences(snapshots[snapshot.id := snapshot], h) <= Refs(index, h)
    {
      OccurrencesAdd(snapshots, snapshot.id, snapshot, h);
      assert Occurrences(snapshots, h) + Count(used, h, |used|) <= Refs(index, h);
      assert Uses(snapshot, h) <= Count(used, h, |used|);
    }
  }

  lemma SaveSnapshotSound(sha: Sha, s: State, snapshot: Snapshot)
    requires Sound(sha, s) && Enabled(sha, s, SaveSnapshot(snapshot))
    ensures Sound(sha, Apply(sha, s, SaveSnapshot(snapshot)))
  {
    hide Inv, StoreSound, Covered, IndexSound, PositiveIds, RefsCover, Uses, Count;
    SnapshotCovered(s.session.store.index, s.snapshots, s.session.used, snapshot);
  }

  // ── Deletions ────────────────────────────────────────────────────────────

  /** Removing snapshots, named once or more often, never adds a use. */
  lemma FewerOccurrences(snapshots: Snapshots, ids: seq<string>, n: nat, h: Hash)
    requires n <= |ids|
    ensures Occurrences(Remaining(snapshots, ids, n), h) <= Occurrences(snapshots, h)
  {
    hide *;
    NothingDoomed(snapshots, ids);
    for k := 0 to n
      invariant Occurrences(Remaining(snapshots, ids, k), h) <= Occurrences(snapshots, h)
    {
      OneFewer(snapshots, ids, k, h);
    }
  }

  lemma OneFewer(snapshots: Snapshots, ids: seq<string>, n: nat, h: Hash)
    requires n < |ids|
    ensures Occurrences(Remaining(snapshots, ids, n + 1), h) <= Occurrences(Remaining(snapshots, ids, n), h)
  {
    hide Occurrences, Uses;
    var before := Remaining(snapshots, ids, n);
    if ids[n] in before {
      OccurrencesSplit(before, ids[n], h);
    } else {
      assert Drop(before, ids[n]) == before;
    }
  }

  lemma RemainingCovered(index: Index, snapshots: Snapshots, ids: seq<string>, n: nat)
    requires n <= |ids| && RefsCover(index, snapshots)
    ensures RefsCover(index, Remaining(snapshots, ids, n))
  {
    hide Occurrences, Refs, Remaining;
    forall h
      ensures Occurrences(Remaining(snapshots, ids, n), h) <= Refs(index, h)
    {
      FewerOccurrences(snapshots, ids, n, h);
      assert Occurrences(snapshots, h) <= Refs(index, h);
    }
  }

  lemma OpenDeleteSound(sha: Sha, s: State, ids: seq<string>)
    requires Sound(sha, s) && Enabled(sha, s, OpenDelete(ids))
    ensures Sound(sha, Apply(sha, s, OpenDelete(ids)))
  {
    hide DiskSound, RefsCover, DistinctIdList;
    assert DiskSound(sha, s.packs, SavedIndex(s.index), s.snapshots);
    DiskCovers(sha, s);
    DecrementNone(SavedIndex(s.index), []);
  }

  lemma DiskCovers(sha: Sha, s: State)
    requires DiskSound(sha, s.packs, SavedIndex(s.index), s.snapshots)
    ensures RefsCover(SavedIndex(s.index), s.snapshots)
  {
  }

  /** What the next round of the delete loop does to the state. */
  lemma DeletedOneFacts(s: State)
    requires s.session.Deleting? && DeletionSound(s) && s.session.k < |s.session.ids|
    ensures DeletionSound(DeletedOne(s))
    ensures var d, t := s.session, DeletedOne(s);
            && t.session.Deleting? && t.packs == s.packs && t.index == s.index
            && t.snapshots == Remaining(d.listed, d.ids, d.k + 1)
  {
    hide RefsCover, DistinctIdList, ChunksOf, DecrementAll, Drop, SavedIndex;
    var d := s.session;
    if d.ids[d.k] in d.listed {
      var doomed, hashes := DoomedChunks(d.listed, d.ids, d.k), ChunksOf(d.listed[d.ids[d.k]]);
      DecrementAppend(SavedIndex(s.index), doomed, hashes, |hashes|);
    } else {
      NotThere(d.listed, d.ids, d.k);
    }
  }

  lemma DeletionCovered(s: State)
    requires s.session.Deleting? && DeletionSound(s)
    ensures RefsCover(SavedIndex(s.index), Remaining(s.session.listed, s.session.ids, s.session.k))
  {
    hide RefsCover, DecrementAll, DoomedChunks, Remaining;
    var d := s.session;
    RemainingCovered(SavedIndex(s.index), d.listed, d.ids, d.k);
  }

  lemma DeleteNextSound(sha: Sha, s: State)
    requires Sound(sha, s) && Enabled(sha, s, DeleteNext)
    ensures Sound(sha, DeletedOne(s))
  {
    hide RefsCover, IndexSound, PositiveIds, DeletedOne, DeletionSound, Remaining;
    DeletedOneFacts(s);
    var t := DeletedOne(s);
    DeletionCovered(t);
    RemainingIs(t);
  }

  lemma RemainingIs(s: State)
    requires s.session.Deleting? && DeletionSound(s)
    ensures s.snapshots == Remaining(s.session.listed, s.session.ids, s.session.k)
  {
    hide RefsCover, DecrementAll, DoomedChunks, Remaining;
  }

  /** Decrementing moves no chunk. */
  lemma DecrementedSound(sha: Sha, packs: Packs, index: Index, hashes: seq<Hash>)
    requires IndexSound(sha, packs, index)
    ensures IndexSound(sha, packs, DecrementAll(index, hashes, |hashes|))
  {
    hide Located, DecrementAll, Count;
    var r := DecrementAll(index, hashes, |hashes|);
    forall h | h in r
      ensures EntrySound(sha, packs, r, h)
    {
      DecrementAllExact(index, hashes, |hashes|, h);
      assert EntrySound(sha, packs, index, h);
    }
  }

  lemma SaveDeletionSound(sha: Sha, s: State)
    requires Sound(sha, s) && Enabled(sha, s, SaveDeletion)
    ensures Sound(sha, Apply(sha, s, SaveDeletion))
  {
    hide Remaining, DoomedChunks, DecrementAll, Occurrences, Refs, IndexSound, Count;
    var d := s.session;
    var doomed := DoomedChunks(d.listed, d.ids, d.k);
    DecrementedSound(sha, s.packs, SavedIndex(s.index), doomed);
    forall h
      ensures Occurrences(s.snapshots, h) <= Refs(d.index, h)
    {
      assert Occurrences(d.listed, h) <= Refs(SavedIndex(s.index), h);
      DeletionIsSafe(SavedIndex(s.index), d.listed, d.ids, h);
    }
  }

  // ── Compactions ──────────────────────────────────────────────────────────

  lemma {:induction false} UnusedElsewhere(snapshots: Snapshots, h: Hash)
    requires h !in LiveHashes(snapshots)
    ensures Occurrences(snapshots, h) == 0
    decreases |snapshots|
  {
    hide ChunksOf, Count;
    if |snapshots| > 0 {
      var id := AnyId(snapshots);
      DropFacts(snapshots, id, id);
      NotCounted(ChunksOf(snapshots[id]), h, |ChunksOf(snapshots[id])|);
      UnusedElsewhere(Drop(snapshots, id), h);
    }
  }

  lemma {:induction false} NotCounted(hashes: seq<Hash>, h: Hash, n: nat)
    requires n <= |hashes| && forall k :: 0 <= k < |hashes| ==> hashes[k] != h
    ensures Count(hashes, h, n) == 0
  {
    if n > 0 {
      NotCounted(hashes, h, n - 1);
    }
  }

  lemma OpenCompactSound(sha: Sha, s: State, ids: seq<nat>, target: nat)
    requires Sound(sha, s) && Enabled(sha, s, OpenCompact(ids, target))
    ensures Sound(sha, Apply(sha, s, OpenCompact(ids, target)))
  {
    hide RefsCover, IndexSound, CollectAll, LiveHashes, Occurrences;
    ListedInPacks(ids, s.packs);
  }

  lemma JobFacts(sha: Sha, job: Job, snapshots: Snapshots)
    requires JobSound(sha, job, snapshots)
    ensures Fresh(job.packs, job.first) && SizesFit(job.c.chunks) && HashesMatch(sha, job.c.chunks) && job.first > 0
  {
    hide CollectAll, SizesFit, HashesMatch;
    CompactingFacts(sha, job.packs, job.live, job.ids, job.c, job.first);
  }

  lemma CopyNextSound(sha: Sha, s: State)
    requires Sound(sha, s) && Enabled(sha, s, CopyNext)
    ensures Sound(sha, Apply(sha, s, CopyNext))
  {
    hide Compacting, RefsCover, SizesFit, HashesMatch, WriteLive, IndexSound, Accounted;
    var job, n := s.session.job, s.session.n + 1;
    JobFacts(sha, job, s.snapshots);
    WriteLiveWrote(sha, job.packs, job.first, job.c.chunks, job.target, n);
    SoundExtends(sha, job.packs, CopiedSoFar(sha, job, n).packs, SavedIndex(s.index));
  }

  lemma FinishCopySound(sha: Sha, s: State)
    requires Sound(sha, s) && Enabled(sha, s, FinishCopy)
    ensures Sound(sha, Apply(sha, s, FinishCopy))
  {
    hide Compacting, RefsCover, SizesFit, HashesMatch, WriteLive, IndexSound, MovedTo, Rewritten;
    var job := s.session.job;
    JobFacts(sha, job, s.snapshots);
    RewrittenWrote(sha, job.packs, job.first, job.c.chunks, job.target);
    SoundExtends(sha, job.packs, AllCopied(sha, job).packs, SavedIndex(s.index));
  }

  lemma SaveCompactedSound(sha: Sha, s: State)
    requires Sound(sha, s) && Enabled(sha, s, SaveCompacted)
    ensures Sound(sha, Apply(sha, s, SaveCompacted))
  {
    hide Compacting, IndexSound, MovedTo, Rewritten, CompactedIndex, Occurrences, Refs, WithoutPacks, LiveHashes;
    var job, index := s.session.job, SavedIndex(s.index);
    var i := CompactedIndex(index, AllCopied(sha, job).moved, job.live);
    forall n | 0 <= n <= |job.ids|
      ensures IndexSound(sha, WithoutPacks(AllCopied(sha, job).packs, job.ids, n), i)
    {
      CompactionKeepsSound(sha, job.packs, index, job.live, job.ids, job.c, job.first, job.target, n);
    }
    CompactionKeepsSound(sha, job.packs, index, job.live, job.ids, job.c, job.first, job.target, 0);
    forall h
      ensures Occurrences(s.snapshots, h) <= Refs(i, h)
    {
      assert Occurrences(s.snapshots, h) <= Refs(index, h);
      if h !in job.live {
        UnusedElsewhere(s.snapshots, h);
      }
    }
    NoneGone(AllCopied(sha, job).packs, job.ids);
  }

  lemma DropNextSound(sha: Sha, s: State)
    requires Sound(sha, s) && Enabled(sha, s, DropNext)
    ensures Sound(sha, Apply(sha, s, DropNext))
  {
    hide Sound, WithoutPacks, AllCopied;
    DroppedSound(sha, s, Apply(sha, s, DropNext), s.session.job, s.session.n);
  }

  lemma DroppedSound(sha: Sha, s: State, t: State, job: Job, n: nat)
    requires Sound(sha, s) && s.session == Dropping(job, n) && n < |job.ids|
    requires t == State(s.packs - {job.ids[n]}, s.index, s.snapshots, Dropping(job, n + 1))
    ensures Sound(sha, t)
  {
    hide JobSound, IndexSound, RefsCover, WithoutPacks, AllCopied;
    var packs := AllCopied(sha, job).packs;
    OneMoreDropped(packs, job.ids, n + 1);
    assert IndexSound(sha, WithoutPacks(packs, job.ids, n + 1), SavedIndex(s.index));
  }

  lemma OneMoreDropped(packs: Packs, ids: seq<nat>, n: nat)
    requires 0 < n <= |ids|
    ensures WithoutPacks(packs, ids, n) == WithoutPacks(packs, ids, n - 1) - {ids[n - 1]}
  {
  }

  // ── Repairs ──────────────────────────────────────────────────────────────

  lemma SingleEntry(sha: Sha, h: Hash, data: Bytes)
    requires HashOfChunk(sha, data) == h && |data| < MAX_STORED
    ensures SizesFit([Entry(h, data)]) && HashesMatch(sha, [Entry(h, data)]) && OffsetOf([Entry(h, data)], 0) == HEADER_SIZE
  {
    hide HashOfChunk;
    assert [Entry(h, data)][..0] == [];
  }

  lemma RepointedSound(sha: Sha, packs: Packs, index: Index, nextId: nat, h: Hash, data: Bytes)
    requires IndexSound(sha, packs, index) && (forall id :: id in packs ==> id < nextId)
    requires HashOfChunk(sha, data) == h && |data| < MAX_STORED
    ensures IndexSound(sha, packs[nextId := PackFile(sha, nextId, [Entry(h, data)])], Repointed(index, nextId, h, data))
  {
    hide Located, PackFile, HashOfChunk, SizesFit, HashesMatch, OffsetOf;
    var entries := [Entry(h, data)];
    var after: Packs := packs[nextId := PackFile(sha, nextId, entries)];
    var r := Repointed(index, nextId, h, data);
    SingleEntry(sha, h, data);
    WrittenIsLocated(sha, after, nextId, entries, 0);
    SoundExtends(sha, packs, after, index);
    forall x | x in r
      ensures EntrySound(sha, after, r, x)
    {
      assert EntrySound(sha, after, index, x);
    }
  }

  lemma WriteRepairedSound(sha: Sha, s: State, nextId: nat, h: Hash, data: Bytes)
    requires Sound(sha, s) && Enabled(sha, s, WriteRepaired(nextId, h, data))
    ensures Sound(sha, Apply(sha, s, WriteRepaired(nextId, h, data)))
  {
    hide Sound, PackFile, HashOfChunk, Repointed;
    RepairedSound(sha, s, Apply(sha, s, WriteRepaired(nextId, h, data)), s.session.index, nextId, h, data);
  }

  lemma RepairedSound(sha: Sha, s: State, t: State, index: Index, nextId: nat, h: Hash, data: Bytes)
    requires Sound(sha, s) && s.session == Repairing(index) && IsNextId(s.packs, nextId)
    requires HashOfChunk(sha, data) == h && |data| < MAX_STORED
    requires t == State(s.packs[nextId := PackFile(sha, nextId, [Entry(h, data)])], s.index, s.snapshots,
                        Repairing(Repointed(index, nextId, h, data)))
    ensures Sound(sha, t)
  {
    hide PackFile, HashOfChunk, IndexSound, RefsCover, Repointed;
    RepointedSound(sha, s.packs, index, nextId, h, data);
    SoundExtends(sha, s.packs, t.packs, SavedIndex(s.index));
    RepointedCovers(index, s.snapshots, nextId, h, data);
  }

  lemma RepointedCovers(index: Index, snapshots: Snapshots, nextId: nat, h: Hash, data: Bytes)
    requires RefsCover(index, snapshots)
    ensures RefsCover(Repointed(index, nextId, h, data), snapshots)
  {
    hide Occurrences;
    forall x
      ensures Occurrences(snapshots, x) <= Refs(Repointed(index, nextId, h, data), x)
    {
      assert Occurrences(snapshots, x) <= Refs(index, x);
    }
  }

  // ── Every step, every run ────────────────────────────────────────────────

  /** Each write to disk, and each crash between two of them, keeps the repository sound. */
  lemma StepKeepsSound(sha: Sha, s: State, a: Action)
    requires Sound(sha, s) && Enabled(sha, s, a)
    ensures Sound(sha, Apply(sha, s, a))
  {
    hide DiskSound, BackupSound, DeletionSound, JobSound, IndexSound, RefsCover, DropSound, Stored, DeletedOne,
      StartedCompaction, AllCopied, CopiedSoFar, Occurrences, WithoutPacks, Uses, IsNextId, PackFile, Repointed, Remaining;
    match a
    case Crash =>
    case OpenBackup(nextId, target) => OpenBackupSound(sha, s, nextId, target);
    case StoreData(data, inTree) => StoreDataSound(sha, s, data, inTree);
    case Reuse(h) => ReuseSound(sha, s, h);
    case SetGroup(h, group) => SetGroupSound(sha, s, h, group);
    case Flush => FlushSound(sha, s);
    case SaveIndex => SaveIndexSound(sha, s);
    case SaveSnapshot(snapshot) => SaveSnapshotSound(sha, s, snapshot);
    case OpenDelete(ids) => OpenDeleteSound(sha, s, ids);
    case DeleteNext => DeleteNextSound(sha, s);
    case SaveDeletion => SaveDeletionSound(sha, s);
    case OpenCompact(ids, target) => OpenCompactSound(sha, s, ids, target);
    case CopyNext => CopyNextSound(sha, s);
    case FinishCopy => FinishCopySound(sha, s);
    case SaveCompacted => SaveCompactedSound(sha, s);
    case DropNext => DropNextSound(sha, s);
    case CloseCompact =>
    case OpenRepair => OpenRepairSound(sha, s);
    case WriteRepaired(nextId, h, data) => WriteRepairedSound(sha, s, nextId, h, data);
    case SaveRepaired => SaveRepairedSound(sha, s);
    case CloseRepair =>
  }

  lemma OpenRepairSound(sha: Sha, s: State)
    requires Sound(sha, s) && Enabled(sha, s, OpenRepair)
    ensures Sound(sha, Apply(sha, s, OpenRepair))
  {
    hide IndexSound, RefsCover;
  }

  lemma SaveRepairedSound(sha: Sha, s: State)
    requires Sound(sha, s) && Enabled(sha, s, SaveRepaired)
    ensures Sound(sha, Apply(sha, s, SaveRepaired))
  {
    hide IndexSound, RefsCover;
  }

  /** `states` is what `actions` lead through, one after the other. */
  ghost predicate IsRun(sha: Sha, states: seq<State>, actions: seq<Action>) {
    && |states| == |actions| + 1
    && forall i :: 0 <= i < |actions| ==> OneStep(sha, states[i], actions[i], states[i + 1])
  }

  ghost predicate OneStep(sha: Sha, s: State, a: Action, t: State) {
    Enabled(sha, s, a) && t == Apply(sha, s, a)
  }

  lemma NothingOccurs(h: Hash)
    ensures Occurrences(map[], h) == 0
  {
  }

  lemma InitSound(sha: Sha)
    ensures Sound(sha, Init())
  {
    hide Occurrences, Located;
    forall h
      ensures Occurrences(map[], h) <= Refs(map[], h)
    {
      NothingOccurs(h);
    }
  }

  /** Every state of every run from an empty repository is sound. */
  lemma {:induction false} RunsAreSound(sha: Sha, states: seq<State>, actions: seq<Action>, i: nat)
    requires IsRun(sha, states, actions) && states[0] == Init() && i < |states|
    ensures Sound(sha, states[i])
  {
    hide Sound, Enabled, Apply, Init;
    if i == 0 {
      InitSound(sha);
    } else {
      RunsAreSound(sha, states, actions, i - 1);
      assert OneStep(sha, states[i - 1], actions[i - 1], states[i]);
      StepKeepsSound(sha, states[i - 1], actions[i - 1]);
    }
  }

  /** Every chunk of every stored snapshot. */
  predicate UsedBy(snapshots: Snapshots, id: string, h: Hash) {
    id in snapshots && Uses(snapshots[id], h) > 0
  }

  /** In a sound state each stored snapshot finds all its chunks: located in an existing pack, with matching contents. */
  lemma SnapshotsAreReadable(sha: Sha, s: State, id: string, h: Hash)
    requires Sound(sha, s) && UsedBy(s.snapshots, id, h)
    ensures var index := SavedIndex(s.index);
            && h in index && index[h].packId in s.packs
            && Located(sha, s.packs, index[h].packId, index[h].packOffset, h)
            && ReadPacked(sha, s.packs, index[h], h).Ok?
            && HashOfChunk(sha, ReadPacked(sha, s.packs, index[h], h).value) == h
  {
    hide Located, Occurrences, Uses, HashOfChunk, ReadChunkAt;
    var index := SavedIndex(s.index);
    UsedSomewhere(s.snapshots, id, h);
    assert Occurrences(s.snapshots, h) <= Refs(index, h);
    assert EntrySound(sha, s.packs, index, h);
    LocatedReads(sha, s.packs, index[h].packId, index[h].packOffset, h);
  }

  /** A repository opened on a sound disk reads every chunk of every snapshot. */
  lemma OpenedReads(sha: Sha, s: State, target: nat, store: Store, id: string, h: Hash)
    requires Sound(sha, s) && IsOpened(store, s.packs, s.index, target) && UsedBy(s.snapshots, id, h)
    ensures ReadChunk(sha, store, h).Ok? && HashOfChunk(sha, ReadChunk(sha, store, h).value) == h
  {
    hide Located, Occurrences, Uses, HashOfChunk, ReadPacked, SessionSound, UsedBy, IndexSound, RefsCover;
    SnapshotsAreReadable(sha, s, id, h);
    assert Pending(store.buffer, h) == None;
  }

  /** After any run, crashed or not, a repository opened on that disk reads every chunk of every snapshot. */
  lemma ReopenedReads(sha: Sha, states: seq<State>, actions: seq<Action>, i: nat, target: nat, store: Store, id: string, h: Hash)
    requires IsRun(sha, states, actions) && states[0] == Init() && i < |states|
    requires IsOpened(store, states[i].packs, states[i].index, target) && UsedBy(states[i].snapshots, id, h)
    ensures ReadChunk(sha, store, h).Ok? && HashOfChunk(sha, ReadChunk(sha, store, h).value) == h
  {
    hide HashOfChunk, ReadChunk, Sound, UsedBy, IsOpened, IsRun, Init;
    RunsAreSound(sha, states, actions, i);
    OpenedReads(sha, states[i], target, store, id, h);
  }

  /** A chunk reads the same at any two points of a run at which snapshots use it, unless its contents collide. */
  lemma ContentsAreStable(sha: Sha, states: seq<State>, actions: seq<Action>, i: nat, j: nat, a: string, b: string, h: Hash)
    requires IsRun(sha, states, actions) && states[0] == Init() && i < |states| && j < |states|
    requires UsedBy(states[i].snapshots, a, h) && UsedBy(states[j].snapshots, b, h)
    ensures var x, y := SavedIndex(states[i].index), SavedIndex(states[j].index);
            && h in x && h in y
            && var d, e := ReadPacked(sha, states[i].packs, x[h], h), ReadPacked(sha, states[j].packs, y[h], h);
               d.Ok? && e.Ok? && ((HashOfChunk(sha, d.value) == HashOfChunk(sha, e.value) ==> d.value == e.value) ==> d == e)
  {
    hide Located, HashOfChunk, ReadPacked, Sound, UsedBy, IsRun, Init;
    RunsAreSound(sha, states, actions, i);
    RunsAreSound(sha, states, actions, j);
    SnapshotsAreReadable(sha, states[i], a, h);
    SnapshotsAreReadable(sha, states[j], b, h);
  }

  // ── Pack ids ─────────────────────────────────────────────────────────────

  /** No step writes over a pack: one that is on disk before and after has the same contents. */
  lemma PacksAreNeverOverwritten(sha: Sha, s: State, a: Action, id: nat)
    requires Sound(sha, s) && Enabled(sha, s, a)
    requires id in s.packs && id in Apply(sha, s, a).packs
    ensures Apply(sha, s, a).packs[id] == s.packs[id]
  {
    hide Sound, ApplyBackup, ApplyDeletion, ApplyCompaction, ApplyRepair, BackupEnabled, DeletionEnabled, CompactionEnabled,
      RepairEnabled, OfBackup, OfDeletion, OfCompaction;
    if a.Crash? {
    } else if OfBackup(a) {
      BackupKeepsPack(sha, s, a, id);
    } else if OfDeletion(a) {
      DeletionKeepsPacks(s, a);
    } else if OfCompaction(a) {
      CompactionKeepsPack(sha, s, a, id);
    } else {
      RepairKeepsPack(sha, s, a, id);
    }
  }

  lemma BackupKeepsPack(sha: Sha, s: State, a: Action, id: nat)
    requires Sound(sha, s) && OfBackup(a) && BackupEnabled(s, a) && id in s.packs
    ensures var t := ApplyBackup(sha, s, a); id in t.packs && t.packs[id] == s.packs[id]
  {
    hide Sound, FlushPending, Stored, Uses, Count, IsNextId, Increment, InGroup;
    if a.Flush? {
      FlushKeepsPack(sha, s, id);
    } else if a.StoreData? {
      StoringKeepsPack(sha, s, a.data, a.inTree, id);
    }
  }

  lemma FlushKeepsPack(sha: Sha, s: State, id: nat)
    requires Sound(sha, s) && s.session.Backup? && id in s.packs
    ensures var packs := FlushPending(sha, s.session.store).packs; id in packs && packs[id] == s.packs[id]
  {
    hide DiskSound, IndexSound, Covered, FlushPending, Inv, StoreSound;
    FlushExtends(sha, s.session.store);
  }

  lemma StoringKeepsPack(sha: Sha, s: State, data: Bytes, inTree: bool, id: nat)
    requires Sound(sha, s) && s.session.Backup? && |data| < MAX_STORED && id in s.packs
    ensures var packs := Stored(sha, s, data, inTree).packs; id in packs && packs[id] == s.packs[id]
  {
    hide DiskSound, IndexSound, Covered, StoreChunk, Inv, StoreSound, HashOfChunk;
    StoreIsSound(sha, s.session.store, data);
  }

  lemma DeletionKeepsPacks(s: State, a: Action)
    requires OfDeletion(a) && DeletionEnabled(s, a)
    ensures ApplyDeletion(s, a).packs == s.packs
  {
    hide DecrementAll, ChunksOf, Drop, DistinctIdList;
  }

  lemma CopyingFacts(sha: Sha, s: State)
    requires Sound(sha, s) && s.session.Copying?
    ensures var job, n := s.session.job, s.session.n;
            JobSound(sha, job, s.snapshots) && n <= |job.c.chunks| && s.packs == CopiedSoFar(sha, job, n).packs
  {
    hide DiskSound, IndexSound, JobSound, CopiedSoFar;
  }

  lemma CompactionKeepsPack(sha: Sha, s: State, a: Action, id: nat)
    requires Sound(sha, s) && OfCompaction(a) && CompactionEnabled(s, a)
    requires id in s.packs && id in ApplyCompaction(sha, s, a).packs
    ensures ApplyCompaction(sha, s, a).packs[id] == s.packs[id]
  {
    hide Sound, ApplyCompaction;
    if a.CopyNext? || a.FinishCopy? {
      CopyKeepsPack(sha, s, a, id);
    } else {
      RestKeepsPack(sha, s, a, id);
    }
  }

  lemma CopyKeepsPack(sha: Sha, s: State, a: Action, id: nat)
    requires Sound(sha, s) && CompactionEnabledFor(s, a) && (a.CopyNext? || a.FinishCopy?)
    requires id in s.packs && id in ApplyCompaction(sha, s, a).packs
    ensures ApplyCompaction(sha, s, a).packs[id] == s.packs[id]
  {
    hide Sound, JobSound, AllCopied, CopiedSoFar;
    CopyingFacts(sha, s);
    CopiedAgree(sha, s.session.job, s.snapshots, s.session.n, id);
  }

  lemma RestKeepsPack(sha: Sha, s: State, a: Action, id: nat)
    requires CompactionEnabledFor(s, a) && !a.CopyNext? && !a.FinishCopy?
    requires id in s.packs && id in ApplyCompaction(sha, s, a).packs
    ensures ApplyCompaction(sha, s, a).packs[id] == s.packs[id]
  {
    hide ApplyCompaction, CompactionEnabled;
    if a.OpenCompact? {
      StartKeepsPacks(sha, s, a.packIds, a.target);
    } else if a.DropNext? {
      DropKeepsPack(sha, s, id);
    } else {
      SaveKeepsPacks(sha, s, a);
    }
  }

  lemma SaveKeepsPacks(sha: Sha, s: State, a: Action)
    requires CompactionEnabledFor(s, a) && (a.SaveCompacted? || a.CloseCompact?)
    ensures ApplyCompaction(sha, s, a).packs == s.packs
  {
    hide CompactedIndex, AllCopied, CopiedSoFar, StartedCompaction;
  }

  lemma DropKeepsPack(sha: Sha, s: State, id: nat)
    requires CompactionEnabledFor(s, DropNext)
    requires id in s.packs && id in ApplyCompaction(sha, s, DropNext).packs
    ensures ApplyCompaction(sha, s, DropNext).packs[id] == s.packs[id]
  {
    hide CompactedIndex, AllCopied, CopiedSoFar, StartedCompaction;
  }

  ghost predicate CompactionEnabledFor(s: State, a: Action) {
    OfCompaction(a) && CompactionEnabled(s, a)
  }

  lemma RepairKeepsPack(sha: Sha, s: State, a: Action, id: nat)
    requires !a.Crash? && !OfBackup(a) && !OfDeletion(a) && !OfCompaction(a) && RepairEnabled(sha, s, a) && id in s.packs
    ensures var t := ApplyRepair(sha, s, a); id in t.packs && t.packs[id] == s.packs[id]
  {
    hide PackFile, Repointed, HashOfChunk;
  }

  lemma StartKeepsPacks(sha: Sha, s: State, ids: seq<nat>, target: nat)
    requires CompactionEnabledFor(s, OpenCompact(ids, target))
    ensures ApplyCompaction(sha, s, OpenCompact(ids, target)).packs == s.packs
  {
    hide CollectAll, IsPackList, CopiedSoFar, AllCopied, CompactedIndex;
  }

  lemma FlushOutputExtends(sha: Sha, before: Packs, first: nat, o: Output, chunks: seq<Entry>, n: nat)
    requires n <= |chunks| && Wrote(sha, before, first, o, chunks, n) && Fresh(before, first)
    ensures Extends(FlushOutput(sha, o).packs, o.packs)
  {
    hide Accounted;
    FlushKeepsIds(sha, before, first, o);
  }

  /** Copying one more chunk, or the final flush, only adds packs. */
  lemma CopiedAgree(sha: Sha, job: Job, snapshots: Snapshots, n: nat, id: nat)
    requires JobSound(sha, job, snapshots) && n <= |job.c.chunks| && id in CopiedSoFar(sha, job, n).packs
    ensures n < |job.c.chunks| && id in CopiedSoFar(sha, job, n + 1).packs ==>
              CopiedSoFar(sha, job, n + 1).packs[id] == CopiedSoFar(sha, job, n).packs[id]
    ensures n == |job.c.chunks| && id in AllCopied(sha, job).packs ==>
              AllCopied(sha, job).packs[id] == CopiedSoFar(sha, job, n).packs[id]
  {
    hide JobSound, SizesFit, HashesMatch, FlushOutput, ShouldFlush, Wrote, Fresh;
    var o, chunks := CopiedSoFar(sha, job, n), job.c.chunks;
    JobFacts(sha, job, snapshots);
    WriteLiveWrote(sha, job.packs, job.first, chunks, job.target, n);
    if n < |chunks| {
      var added := o.(buffer := o.buffer + [chunks[n]]);
      AddedWrote(sha, job.packs, job.first, o, chunks, n);
      FlushOutputExtends(sha, job.packs, job.first, added, chunks, n + 1);
    } else {
      FlushOutputExtends(sha, job.packs, job.first, o, chunks, n);
    }
  }

  lemma AddedWrote(sha: Sha, before: Packs, first: nat, o: Output, chunks: seq<Entry>, n: nat)
    requires n < |chunks| && Wrote(sha, before, first, o, chunks, n)
    ensures Wrote(sha, before, first, o.(buffer := o.buffer + [chunks[n]]), chunks, n + 1)
  {
    hide MovedTo, Extends;
  }

  // ── Orders that would not do ─────────────────────────────────────────────

  /** The snapshot is saved while the session's index is not, and then a crash ends the session. */
  ghost function SnapshotFirst(s: State, snapshot: Snapshot): State {
    State(s.packs, s.index, s.snapshots[snapshot.id := snapshot], Idle)
  }

  /** After that a chunk reads exactly when the saved index already knew it. */
  lemma SavedIsRead(sha: Sha, s: State, target: nat, store: Store, h: Hash)
    requires Sound(sha, s) && IsOpened(store, s.packs, s.index, target)
    ensures h in SavedIndex(s.index) ==> ReadChunk(sha, store, h).Ok?
    ensures h !in SavedIndex(s.index) ==> ReadChunk(sha, store, h) == Err(NotFound)
  {
    hide Located, ReadChunkAt, RefsCover, SessionSound;
    var index := SavedIndex(s.index);
    assert Pending(store.buffer, h) == None;
    if h in index {
      assert EntrySound(sha, s.packs, index, h);
      LocatedReads(sha, s.packs, index[h].packId, index[h].packOffset, h);
    }
  }

  /**
   Saving the snapshot first is harmless exactly when the saved index could have carried it: the
   snapshot's chunks read iff each is already in the saved index, and the disk is sound iff the saved
   references cover the new uses as well.
   */
  lemma SnapshotFirstIff(sha: Sha, s: State, snapshot: Snapshot, target: nat, store: Store)
    requires Sound(sha, s) && s.session.Backup? && snapshot.id !in s.snapshots
    requires IsOpened(store, s.packs, s.index, target)
    ensures (forall h :: Uses(snapshot, h) > 0 ==> ReadChunk(sha, store, h).Ok?) <==>
            (forall h :: Uses(snapshot, h) > 0 ==> h in SavedIndex(s.index))
    ensures Sound(sha, SnapshotFirst(s, snapshot)) <==>
            (forall h :: Occurrences(s.snapshots, h) + Uses(snapshot, h) <= Refs(SavedIndex(s.index), h))
  {
    hide Sound, Uses, Occurrences, ReadChunk, IsOpened, Refs;
    forall h
      ensures ReadChunk(sha, store, h).Ok? <==> h in SavedIndex(s.index)
    {
      SavedIsRead(sha, s, target, store, h);
    }
    CrashedSoundIff(sha, s, snapshot);
    forall h
      ensures Occurrences(SnapshotFirst(s, snapshot).snapshots, h) == Occurrences(s.snapshots, h) + Uses(snapshot, h)
    {
      OccurrencesAdd(s.snapshots, snapshot.id, snapshot, h);
    }
  }

  lemma CrashedSoundIff(sha: Sha, s: State, snapshot: Snapshot)
    requires Sound(sha, s)
    ensures Sound(sha, SnapshotFirst(s, snapshot)) <==>
            forall h :: Occurrences(SnapshotFirst(s, snapshot).snapshots, h) <= Refs(SavedIndex(s.index), h)
  {
    hide IndexSound, Occurrences, Refs, PositiveIds;
  }

  /** A first backup is open. */
  ghost function FirstBackup(target: nat): State {
    Init().(session := Backup(Store(map[], map[], [], 1, target), [], Building))
  }

  /** It has stored one chunk, which is not yet in a saved index. */
  ghost function Unsaved(sha: Sha, data: Bytes, target: nat): State {
    Stored(sha, FirstBackup(target), data, true)
  }

  lemma UnsavedFacts(sha: Sha, data: Bytes, target: nat)
    ensures var s := Unsaved(sha, data, target);
            s.index == None && s.snapshots == map[] && s.session.Backup? && s.session.used == [HashOfChunk(sha, data)]
  {
    hide StoreChunk, HashOfChunk;
  }

  lemma UnsavedIsReached(sha: Sha, data: Bytes, target: nat)
    requires |data| < MAX_STORED
    ensures IsRun(sha, [Init(), FirstBackup(target), Unsaved(sha, data, target)], [OpenBackup(1, target), StoreData(data, true)])
  {
    hide StoreChunk, HashOfChunk;
    var states := [Init(), FirstBackup(target), Unsaved(sha, data, target)];
    assert OneStep(sha, states[0], OpenBackup(1, target), states[1]);
    assert OneStep(sha, states[1], StoreData(data, true), states[2]);
  }

  /** From an empty repository, for every chunk: a backup that saves its snapshot now and crashes has lost it. */
  lemma SnapshotFirstLosesChunk(sha: Sha, data: Bytes, target: nat, id: string, store: Store, target': nat)
    requires |data| < MAX_STORED
    requires IsOpened(store, Unsaved(sha, data, target).packs, None, target')
    ensures IsRun(sha, [Init(), FirstBackup(target), Unsaved(sha, data, target)], [OpenBackup(1, target), StoreData(data, true)])
    ensures var s, h := Unsaved(sha, data, target), HashOfChunk(sha, data);
            && s.session.Backup? && (forall x :: Uses(OneChunkSnapshot(id, h), x) <= Count(s.session.used, x, |s.session.used|))
            && Uses(OneChunkSnapshot(id, h), h) == 1
            && ReadChunk(sha, store, h) == Err(NotFound)
            && !Sound(sha, SnapshotFirst(s, OneChunkSnapshot(id, h)))
  {
    hide Unsaved, HashOfChunk, IsRun, Sound, Occurrences, IsOpened, FirstBackup, Init, ReadChunk;
    var s, h := Unsaved(sha, data, target), HashOfChunk(sha, data);
    UnsavedFacts(sha, data, target);
    UnsavedIsReached(sha, data, target);
    RunsAreSound(sha, [Init(), FirstBackup(target), s], [OpenBackup(1, target), StoreData(data, true)], 2);
    OneUse(id, h);
    SavedIsRead(sha, s, target', store, h);
    SnapshotFirstIff(sha, s, OneChunkSnapshot(id, h), target', store);
    assert Occurrences(s.snapshots, h) + Uses(OneChunkSnapshot(id, h), h) > Refs(SavedIndex(s.index), h);
  }

  /**
   The live set is collected before compaction takes its own lock.  Whatever it is, the saved
   index keeps enough references exactly when every chunk in use is in it.
   */
  lemma LiveSetMustCover(sha: Sha, packs: Packs, index: Index, live: set<Hash>, ids: seq<nat>, c: Collected, first: nat,
                         target: nat, snapshots: Snapshots)
    requires Compacting(sha, packs, live, ids, c, first)
    requires IndexSound(sha, packs, index) && RefsCover(index, snapshots)
    ensures var i := CompactedIndex(index, Rewritten(sha, packs, c.chunks, first, target).moved, live);
            RefsCover(i, snapshots) <==> forall h :: Occurrences(snapshots, h) > 0 ==> h in live
  {
    hide Compacting, IndexSound, Rewritten, CompactedIndex, Occurrences, WithoutPacks;
    var i := CompactedIndex(index, Rewritten(sha, packs, c.chunks, first, target).moved, live);
    CompactionKeepsSound(sha, packs, index, live, ids, c, first, target, |ids|);
    if forall h :: Occurrences(snapshots, h) > 0 ==> h in live {
      forall h
        ensures Occurrences(snapshots, h) <= Refs(i, h)
      {
        assert Occurrences(snapshots, h) <= Refs(index, h);
      }
    } else {
      var h :| Occurrences(snapshots, h) > 0 && h !in live;
      assert Refs(i, h) == 0;
    }
  }
}
