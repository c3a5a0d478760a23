/**
 Recorded sizes over whole runs.  Nothing re-checks them, so compaction and repair keep them only
 because what they write under a name is what was there; the contents of those two moments are the
 pair that must not collide.
 */
module SizeRuns {
  import opened Wrappers
  import opened Bytes
  import opened Digest
  import opened PackFormat
  import opened ChunkStore
  import opened Repositories
  import opened Deletion
  import opened Compaction
  import opened CompactionSafety
  import opened IndexSoundness
  import opened CrashRuns
  import opened RefCounts
  import opened TrueSizes

  /** The size of chunk `h` is true on disk and in the session. */
  predicate SizesTrue(sha: Sha, s: State, h: Hash) {
    && Sized(sha, s.packs, SavedIndex(s.index), h)
    && SessionSized(sha, s, h)
  }

  predicate SessionSized(sha: Sha, s: State, h: Hash) {
    match s.session
    case Backup(store, _, _) => SizedIn(sha, store, h)
    case Deleting(index, _, _, _) => Sized(sha, s.packs, index, h)
    case Repairing(index) => Sized(sha, s.packs, index, h)
    case _ => true
  }

  /** The steps that put other bytes behind an existing name. */
  predicate Rewrites(a: Action, h: Hash) {
    a.SaveCompacted? || (a.WriteRepaired? && a.h == h)
  }

  /** What the session finds under the name. */
  function Contents(sha: Sha, s: State, h: Hash): Result<Bytes, ReadError> {
    ReadStored(sha, s.packs, if s.session.Repairing? then s.session.index else SavedIndex(s.index), h)
  }

  /** The contents before and after the step do not collide. */
  predicate KeepsContents(sha: Sha, s: State, t: State, h: Hash) {
    var a, b := Contents(sha, s, h), Contents(sha, t, h);
    a.Ok? && b.Ok? ==> SameUnlessCollision(sha, a.value, b.value)
  }

  // ── The index on disk ────────────────────────────────────────────────────

  predicate Agree(p: Packs, q: Packs) {
    forall id :: id in p && id in q ==> p[id] == q[id]
  }

  /** As long as no pack is written over, the same index finds the same contents. */
  lemma SameIndexSized(sha: Sha, p: Packs, q: Packs, index: Index, h: Hash)
    requires IndexSound(sha, p, index) && Agree(p, q) && Sized(sha, p, index, h)
    ensures Sized(sha, q, index, h)
  {
    hide Located, ReadChunkAt, HashOfChunk;
    if h in index {
      assert EntrySound(sha, p, index, h);
      LocatedInPack(sha, p, index[h].packId, index[h].packOffset, h);
    }
  }

  lemma StepsAgree(sha: Sha, s: State, a: Action)
    requires Sound(sha, s) && Enabled(sha, s, a)
    ensures Agree(s.packs, Apply(sha, s, a).packs)
  {
    hide Sound, Enabled, Apply;
    forall id | id in s.packs && id in Apply(sha, s, a).packs
      ensures s.packs[id] == Apply(sha, s, a).packs[id]
    {
      PacksAreNeverOverwritten(sha, s, a, id);
    }
  }

  lemma DiskIsSound(sha: Sha, s: State)
    requires Sound(sha, s)
    ensures IndexSound(sha, s.packs, SavedIndex(s.index)) && PositiveIds(s.packs)
  {
    hide IndexSound, RefsCover, SessionSound, PositiveIds;
  }

  /** Other bytes behind the name: the size stays true exactly when they are as many. */
  lemma RewrittenSized(sha: Sha, p: Packs, i: Index, q: Packs, j: Index, h: Hash)
    requires Sized(sha, p, i, h) && Intact(sha, p, i, h) && h in j && j[h].size == i[h].size
    ensures Intact(sha, q, j, h) ==>
              (Sized(sha, q, j, h) <==> |ReadStored(sha, q, j, h).value| == |ReadStored(sha, p, i, h).value|)
  {
    hide ReadStored;
  }

  // ── Steps ────────────────────────────────────────────────────────────────

  lemma {:induction false} BackupStep(sha: Sha, s: State, a: Action, h: Hash)
    requires Sound(sha, s) && OfBackup(a) && !a.SaveIndex? && Enabled(sha, s, a) && SizesTrue(sha, s, h)
    ensures SessionSized(sha, Apply(sha, s, a), h)
  {
    hide Sized, SizedIn, StoreChunk, FlushPending, Increment, InGroup, HashOfChunk, Occurrences, Uses, Count, Inv, StoreSound, DiskSound,
      Covered, IndexSound, IsNextId;
    match a
    case OpenBackup(nextId, target) =>
      UnbufferedSized(sha, Store(s.packs, SavedIndex(s.index), [], nextId, target), h);
    case StoreData(data, _) => StoreKeepsSize(sha, s.session.store, data, h);
    case Reuse(x) => IncrementSize(sha, s.session.store, x, h);
    case SetGroup(x, group) => GroupSize(sha, s.session.store, x, group, h);
    case Flush => FlushKeepsSize(sha, s.session.store, h);
    case SaveSnapshot(_) =>
  }

  lemma {:induction false} IncrementSize(sha: Sha, s: Store, x: Hash, h: Hash)
    requires SizedIn(sha, s, h)
    ensures SizedIn(sha, s.(index := Increment(s.index, x)), h)
  {
    hide SizedIn;
    SamePlacesSize(sha, s, s.(index := Increment(s.index, x)), h);
  }

  lemma {:induction false} GroupSize(sha: Sha, s: Store, x: Hash, group: nat, h: Hash)
    requires SizedIn(sha, s, h)
    ensures SizedIn(sha, s.(index := InGroup(s.index, x, group)), h)
  {
    hide SizedIn;
    SamePlacesSize(sha, s, s.(index := InGroup(s.index, x, group)), h);
  }

  lemma {:induction false} SaveIndexStep(sha: Sha, s: State, h: Hash)
    requires Sound(sha, s) && Enabled(sha, s, SaveIndex) && SizesTrue(sha, s, h)
    ensures SizesTrue(sha, Apply(sha, s, SaveIndex), h)
  {
    hide Sized, SizedIn, Inv, StoreSound, DiskSound, Covered, IndexSound;
    UnbufferedSized(sha, s.session.store, h);
  }

  lemma {:induction false} DeletionStep(sha: Sha, s: State, a: Action, h: Hash)
    requires OfDeletion(a) && Enabled(sha, s, a) && SizesTrue(sha, s, h)
    ensures SizesTrue(sha, Apply(sha, s, a), h)
  {
    hide Sized, SizedIn, DecrementAll, ChunksOf, Drop, DistinctIdList;
    if a.DeleteNext? && s.session.ids[s.session.k] in s.session.listed {
      var hashes := ChunksOf(s.session.listed[s.session.ids[s.session.k]]);
      DecrementSize(sha, s.packs, s.session.index, hashes, h);
    }
  }

  lemma {:induction false} DecrementSize(sha: Sha, packs: Packs, index: Index, hashes: seq<Hash>, h: Hash)
    requires Sized(sha, packs, index, h)
    ensures Sized(sha, packs, DecrementAll(index, hashes, |hashes|), h)
  {
    hide Sized, DecrementAll, Count;
    DecrementAllExact(index, hashes, |hashes|, h);
    SamePlaceSized(sha, packs, index, DecrementAll(index, hashes, |hashes|), h);
  }

  lemma {:induction false} CompactionStep(sha: Sha, s: State, a: Action, h: Hash)
    requires Sound(sha, s) && OfCompaction(a) && !a.SaveCompacted? && Enabled(sha, s, a) && SizesTrue(sha, s, h)
    ensures SizesTrue(sha, Apply(sha, s, a), h)
  {
    hide Sized, Sound, Agree, IndexSound;
    var t := Apply(sha, s, a);
    StepsAgree(sha, s, a);
    DiskIsSound(sha, s);
    CompactionKeepsIndex(sha, s, a);
    SameIndexSized(sha, s.packs, t.packs, SavedIndex(s.index), h);
  }

  predicate SameSavedIndex(s: State, t: State) {
    && SavedIndex(t.index) == SavedIndex(s.index)
    && !t.session.Backup? && !t.session.Deleting? && !t.session.Repairing?
  }

  lemma {:induction false} CompactionKeepsIndex(sha: Sha, s: State, a: Action)
    requires OfCompaction(a) && !a.SaveCompacted? && Enabled(sha, s, a)
    ensures SameSavedIndex(s, Apply(sha, s, a))
  {
    hide Enabled, Apply, SameSavedIndex;
    if a.OpenCompact? {
      OpenKeepsIndex(sha, s, a.packIds, a.target);
    } else if a.CopyNext? || a.FinishCopy? {
      CopyKeepsIndex(sha, s, a);
    } else {
      DropKeepsIndex(sha, s, a);
    }
  }

  lemma {:induction false} OpenKeepsIndex(sha: Sha, s: State, ids: seq<nat>, target: nat)
    requires Enabled(sha, s, OpenCompact(ids, target))
    ensures SameSavedIndex(s, Apply(sha, s, OpenCompact(ids, target)))
  {
    hide IsPackList, StartedCompaction;
    StartedKeepsIndex(sha, s, ids, target);
  }

  lemma {:induction false} CopyKeepsIndex(sha: Sha, s: State, a: Action)
    requires (a.CopyNext? || a.FinishCopy?) && Enabled(sha, s, a)
    ensures SameSavedIndex(s, Apply(sha, s, a))
  {
    hide CopiedSoFar, AllCopied;
  }

  lemma {:induction false} DropKeepsIndex(sha: Sha, s: State, a: Action)
    requires (a.DropNext? || a.CloseCompact?) && Enabled(sha, s, a)
    ensures SameSavedIndex(s, Apply(sha, s, a))
  {
  }

  lemma {:induction false} StartedKeepsIndex(sha: Sha, s: State, ids: seq<nat>, target: nat)
    requires IsPackList(ids, s.packs) && s.session.Idle?
    ensures var t := StartedCompaction(sha, s, ids, target);
            SavedIndex(t.index) == SavedIndex(s.index) && (t.session.Idle? || t.session.Copying?)
  {
    hide CollectAll, IsPackList, LiveHashes;
  }

  /** The new index of a compaction. */
  lemma {:induction false} SaveCompactedStep(sha: Sha, s: State, h: Hash)
    requires Sound(sha, s) && Enabled(sha, s, SaveCompacted) && SizesTrue(sha, s, h)
    requires KeepsContents(sha, s, Apply(sha, s, SaveCompacted), h)
    ensures SizesTrue(sha, Apply(sha, s, SaveCompacted), h)
  {
    hide Sized, Sound, IndexSound, ReadStored, HashOfChunk, Enabled, Apply;
    var t := Apply(sha, s, SaveCompacted);
    DiskIsSound(sha, s);
    CompactedState(sha, s, h);
    if Intact(sha, t.packs, SavedIndex(t.index), h) {
      PositiveIsIntact(sha, s.packs, SavedIndex(s.index), h);
      RewrittenSized(sha, s.packs, SavedIndex(s.index), t.packs, SavedIndex(t.index), h);
    } else {
      UnreadIsSized(sha, t.packs, SavedIndex(t.index), h);
    }
  }

  lemma UnreadIsSized(sha: Sha, packs: Packs, index: Index, h: Hash)
    requires !Intact(sha, packs, index, h)
    ensures Sized(sha, packs, index, h)
  {
    hide ReadStored;
  }

  lemma PositiveIsIntact(sha: Sha, packs: Packs, index: Index, h: Hash)
    requires PositiveIds(packs) && IndexSound(sha, packs, index) && h in index
    ensures Intact(sha, packs, index, h)
  {
    hide Located, ReadStored;
    assert EntrySound(sha, packs, index, h);
    LocatedInPack(sha, packs, index[h].packId, index[h].packOffset, h);
    SoundIsIntact(sha, packs, index, h);
  }

  lemma {:induction false} CompactedState(sha: Sha, s: State, h: Hash)
    requires Sound(sha, s) && Enabled(sha, s, SaveCompacted)
    ensures var t := Apply(sha, s, SaveCompacted);
            && t.session.Dropping? && !s.session.Repairing?
            && (h in SavedIndex(t.index) ==> h in SavedIndex(s.index) && SavedIndex(t.index)[h].size == SavedIndex(s.index)[h].size)
  {
    hide DiskSound, IndexSound, Compacting, CompactedIndex, Rewritten, Located, IsListed, CompactedPacks, WithoutPacks;
    var job := s.session.job;
    CompactedEntry(sha, job.packs, SavedIndex(s.index), job.live, job.ids, job.c, job.first, job.target, 0, h);
  }

  lemma {:induction false} RepairStep(sha: Sha, s: State, a: Action, h: Hash)
    requires a.OpenRepair? || a.SaveRepaired? || a.CloseRepair?
    requires Enabled(sha, s, a) && SizesTrue(sha, s, h)
    ensures SizesTrue(sha, Apply(sha, s, a), h)
  {
    hide Sized, SizedIn, Enabled, Apply;
    OtherRepairState(sha, s, a);
  }

  lemma {:induction false} WriteRepairedStep(sha: Sha, s: State, nextId: nat, x: Hash, data: Bytes, h: Hash)
    requires Sound(sha, s) && Enabled(sha, s, WriteRepaired(nextId, x, data)) && SizesTrue(sha, s, h)
    requires h == x ==> KeepsContents(sha, s, Apply(sha, s, WriteRepaired(nextId, x, data)), h)
    ensures SizesTrue(sha, Apply(sha, s, WriteRepaired(nextId, x, data)), h)
  {
    hide Sized, Sound, IndexSound, ReadStored, HashOfChunk, Enabled, Apply, PositiveIds, Agree;
    var t := Apply(sha, s, WriteRepaired(nextId, x, data));
    StepsAgree(sha, s, WriteRepaired(nextId, x, data));
    DiskIsSound(sha, s);
    RepairingState(sha, s, nextId, x, data, h);
    SameIndexSized(sha, s.packs, t.packs, SavedIndex(s.index), h);
    var i, j := s.session.index, t.session.index;
    if h != x {
      SameIndexSized(sha, s.packs, t.packs, i, h);
      SamePlaceSized(sha, t.packs, i, j, h);
    } else if Intact(sha, t.packs, j, h) {
      IntactHasPack(sha, t.packs, j, h);
      PositiveIsIntact(sha, s.packs, i, h);
      RewrittenSized(sha, s.packs, i, t.packs, j, h);
    } else {
      UnreadIsSized(sha, t.packs, j, h);
    }
  }

  lemma {:induction false} RepairingState(sha: Sha, s: State, nextId: nat, x: Hash, data: Bytes, h: Hash)
    requires Sound(sha, s) && Enabled(sha, s, WriteRepaired(nextId, x, data))
    ensures var t := Apply(sha, s, WriteRepaired(nextId, x, data));
            && s.session.Repairing? && t.session.Repairing? && t.index == s.index
            && IndexSound(sha, s.packs, s.session.index)
            && var i, j := s.session.index, t.session.index;
               && (h in j <==> h in i)
               && (h in j ==> j[h].size == i[h].size)
               && (h in j && h != x ==> j[h] == i[h])
  {
    hide PackFile, HashOfChunk, IndexSound, RefsCover, IsNextId, DiskSound;
  }

  /** Every step keeps the size of `h` true, as long as a step that rewrites it keeps its contents. */
  lemma {:induction false} StepKeepsSize(sha: Sha, s: State, a: Action, h: Hash)
    requires Sound(sha, s) && Enabled(sha, s, a) && SizesTrue(sha, s, h)
    requires Rewrites(a, h) ==> KeepsContents(sha, s, Apply(sha, s, a), h)
    ensures SizesTrue(sha, Apply(sha, s, a), h)
  {
    hide Sound, SizesTrue, KeepsContents, BackupEnabled, DeletionEnabled, CompactionEnabled, RepairEnabled, ApplyBackup, ApplyDeletion,
      ApplyCompaction, ApplyRepair;
    match a
    case Crash => CrashStep(sha, s, h);
    case SaveIndex => SaveIndexStep(sha, s, h);
    case SaveCompacted => SaveCompactedStep(sha, s, h);
    case WriteRepaired(nextId, x, data) => WriteRepairedStep(sha, s, nextId, x, data, h);
    case OpenRepair => RepairStep(sha, s, a, h);
    case SaveRepaired => RepairStep(sha, s, a, h);
    case CloseRepair => RepairStep(sha, s, a, h);
    case _ =>
      if OfBackup(a) {
        BackupDisk(sha, s, a, h);
      } else if OfDeletion(a) {
        DeletionStep(sha, s, a, h);
      } else {
        CompactionStep(sha, s, a, h);
      }
  }

  lemma {:induction false} CrashStep(sha: Sha, s: State, h: Hash)
    requires SizesTrue(sha, s, h)
    ensures SizesTrue(sha, Apply(sha, s, Crash), h)
  {
    hide Sized, SizedIn;
  }

  lemma {:induction false} BackupDisk(sha: Sha, s: State, a: Action, h: Hash)
    requires Sound(sha, s) && OfBackup(a) && !a.SaveIndex? && Enabled(sha, s, a) && SizesTrue(sha, s, h)
    ensures SizesTrue(sha, Apply(sha, s, a), h)
  {
    hide Sized, SizedIn, Sound, IndexSound, Agree, SessionSized, Apply, Enabled;
    BackupStep(sha, s, a, h);
    StepsAgree(sha, s, a);
    DiskIsSound(sha, s);
    BackupKeepsIndex(sha, s, a);
    SameIndexSized(sha, s.packs, Apply(sha, s, a).packs, SavedIndex(s.index), h);
  }

  lemma {:induction false} BackupKeepsIndex(sha: Sha, s: State, a: Action)
    requires OfBackup(a) && !a.SaveIndex? && Enabled(sha, s, a)
    ensures Apply(sha, s, a).index == s.index
  {
    hide StoreChunk, FlushPending, HashOfChunk, Increment, InGroup, IsNextId, Occurrences, Uses, Count;
  }

  // ── Runs ─────────────────────────────────────────────────────────────────

  /**
   In every state of a run from the empty repository the size is true, unless a compaction or a repair on
   the way replaced the chunk by other contents of its name.
   */
  lemma {:induction false} SizesAreTrue(sha: Sha, states: seq<State>, actions: seq<Action>, n: nat, h: Hash)
    requires IsRun(sha, states, actions) && states[0] == Init() && n <= |actions|
    requires forall k :: 0 <= k < n && Rewrites(actions[k], h) ==> KeepsContents(sha, states[k], states[k + 1], h)
    ensures SizesTrue(sha, states[n], h)
    decreases n
  {
    hide Sound, Enabled, Apply, Init, SizesTrue, KeepsContents, Rewrites;
    if n == 0 {
      InitSized(sha, h);
    } else {
      SizesAreTrue(sha, states, actions, n - 1, h);
      RunsAreSound(sha, states, actions, n - 1);
      assert OneStep(sha, states[n - 1], actions[n - 1], states[n]);
      StepKeepsSize(sha, states[n - 1], actions[n - 1], h);
    }
  }

  lemma InitSized(sha: Sha, h: Hash)
    ensures SizesTrue(sha, Init(), h)
  {
  }
}
