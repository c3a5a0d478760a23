/**
 The programs that run over the repository object, proved to be runs of the state machine:
 the end of a backup (crates/cli/src/main.rs), a compaction as the command line starts it,
 and the deletion and pruning of snapshots.  Every write they make leaves a sound disk.
 */
module Sessions {
  import opened Wrappers
  import opened Digest
  import opened PackFormat
  import opened ChunkStore
  import opened Repositories
  import opened Retention
  import opened Deletion
  import opened IndexSoundness
  import opened Compaction
  import opened CompactionSafety
  import opened CrashRuns
  import opened TrueSizes

  ghost function DiskState(disk: Disk, session: Session): State
    reads disk
  {
    State(disk.packs, disk.index, disk.snapshots, session)
  }

  // ── Crash points ─────────────────────────────────────────────────────────

  /** A crash that leaves this image loses nothing. */
  ghost predicate ImageSound(sha: Sha, img: Image) {
    DiskSound(sha, img.packs, SavedIndex(img.index), img.snapshots)
  }

  /** Every write from number `since` on left a sound disk. */
  ghost predicate SafeSince(sha: Sha, history: seq<Image>, since: nat) {
    && since <= |history|
    && forall i :: since <= i < |history| ==> ImageSound(sha, history[i])
  }

  lemma SafeNow(sha: Sha, history: seq<Image>)
    ensures SafeSince(sha, history, |history|)
  {
  }

  lemma SafeWrite(sha: Sha, before: seq<Image>, after: seq<Image>, now: Image, since: nat)
    requires SafeSince(sha, before, since) && OneWrite(before, after, now) && ImageSound(sha, now)
    ensures SafeSince(sha, after, since)
  {
    hide ImageSound;
  }

  lemma SoundImage(sha: Sha, s: State)
    requires Sound(sha, s)
    ensures ImageSound(sha, Image(s.packs, s.index, s.snapshots))
  {
    hide DiskSound, SessionSound;
  }

  /** Where a backup started: how many writes there had been, and what was on disk. */
  datatype Origin = Origin(writes: nat, packs: Packs, index: Index)

  ghost function OriginOf(disk: Disk): Origin
    reads disk
  {
    Origin(|disk.history|, disk.packs, SavedIndex(disk.index))
  }

  /** A backup is under way in `repo`, the tree so far uses `used`, all its writes were safe, and it made no size untrue. */
  ghost predicate InBackup(repo: Repository, used: seq<Hash>, since: Origin)
    reads repo, repo.writer, repo.disk
  {
    && repo.Valid()
    && Sound(repo.sha, DiskState(repo.disk, Backup(repo.State(), used, Building)))
    && SafeSince(repo.sha, repo.disk.history, since.writes)
    && SizesKept(repo.sha, since.packs, since.index, repo.State())
  }

  // ── The end of a backup ──────────────────────────────────────────────────

  /** Flush, then the index, then the snapshot: a crash after any of these writes leaves a sound disk. */
  method FinishBackup(repo: Repository, snapshot: Snapshot, ghost used: seq<Hash>, ghost since: Origin)
    requires InBackup(repo, used, since)
    requires snapshot.id !in repo.disk.snapshots
    requires forall h :: Uses(snapshot, h) <= Count(used, h, |used|)
    modifies repo, repo.writer, repo.disk
    ensures Sound(repo.sha, DiskState(repo.disk, Idle))
    ensures repo.disk.snapshots == old(repo.disk.snapshots)[snapshot.id := snapshot]
    ensures var store := ChunkStore.FlushPending(repo.sha, old(repo.State()));
            repo.disk.packs == store.packs && repo.disk.index == Some(store.index)
    ensures SafeSince(repo.sha, repo.disk.history, since.writes)
    ensures SizesCarry(repo.sha, since.packs, since.index, repo.disk.packs, SavedIndex(repo.disk.index))
  {
    hide Inv, Sound, ChunkStore.FlushPending, Uses, Count, SafeSince, OneWrite, ImageSound, SizesKept, SizesCarry, StoreSound;
    ghost var s := DiskState(repo.disk, Backup(repo.State(), used, Building));
    FinishSteps(repo.sha, s, snapshot);
    BackupIsSound(repo.sha, s);
    FlushCarries(repo.sha, since.packs, since.index, repo.State());
    ghost var h0 := repo.disk.history;
    repo.FlushPending();
    SafeWrite(repo.sha, h0, repo.disk.history, repo.disk.Now(), since.writes);
    ghost var h1 := repo.disk.history;
    repo.SaveIndex();
    AppendedOne(h1, repo.disk.Now());
    SafeWrite(repo.sha, h1, repo.disk.history, repo.disk.Now(), since.writes);
    ghost var h2 := repo.disk.history;
    repo.disk.PutSnapshot(snapshot);
    AppendedOne(h2, repo.disk.Now());
    SafeWrite(repo.sha, h2, repo.disk.history, repo.disk.Now(), since.writes);
  }

  lemma BackupIsSound(sha: Sha, s: State)
    requires Sound(sha, s) && s.session.Backup?
    ensures Inv(sha, s.session.store) && StoreSound(sha, s.session.store)
  {
    hide Inv, DiskSound, Covered, StoreSound, IndexSound;
  }

  lemma AppendedOne(history: seq<Image>, now: Image)
    ensures OneWrite(history, history + [now], now)
  {
  }

  /** The three writes are three steps of the machine, so a crash between any two of them is harmless. */
  lemma FinishSteps(sha: Sha, s: State, snapshot: Snapshot)
    requires Sound(sha, s) && s.session.Backup? && s.session.phase.Building? && snapshot.id !in s.snapshots
    requires forall h :: Uses(snapshot, h) <= Count(s.session.used, h, |s.session.used|)
    ensures var store := ChunkStore.FlushPending(sha, s.session.store);
            var snapshots: Snapshots := s.snapshots[snapshot.id := snapshot];
            && ImageSound(sha, Image(store.packs, s.index, s.snapshots))
            && ImageSound(sha, Image(store.packs, Some(store.index), s.snapshots))
            && ImageSound(sha, Image(store.packs, Some(store.index), snapshots))
            && Sound(sha, State(store.packs, Some(store.index), snapshots, Idle))
  {
    hide Sound, ChunkStore.FlushPending, Uses, Count, ImageSound;
    StepKeepsSound(sha, s, Flush);
    var flushed := Apply(sha, s, Flush);
    SoundImage(sha, flushed);
    StepKeepsSound(sha, flushed, SaveIndex);
    var saved := Apply(sha, flushed, SaveIndex);
    SoundImage(sha, saved);
    StepKeepsSound(sha, saved, SaveSnapshot(snapshot));
    SoundImage(sha, Apply(sha, saved, SaveSnapshot(snapshot)));
  }

  // ── Compaction from the command line ─────────────────────────────────────

  /** Save the index, collect what snapshots use, compact. */
  method RunCompaction(sha: Sha, disk: Disk, target: nat) returns (r: Result<CompactResult, PackError>)
    requires Sound(sha, DiskState(disk, Idle))
    modifies disk
    ensures Sound(sha, DiskState(disk, Idle))
    ensures disk.snapshots == old(disk.snapshots)
    ensures forall h :: h in LiveHashes(disk.snapshots) ==>
              Refs(SavedIndex(disk.index), h) == Refs(SavedIndex(old(disk.index)), h)
    ensures exists ids :: IsPackList(ids, old(disk.packs)) &&
              CompactSpec(sha, old(disk.packs), Some(SavedIndex(old(disk.index))), LiveHashes(old(disk.snapshots)), target, ids,
                          disk.packs, disk.index, r)
    ensures SafeSince(sha, disk.history, |old(disk.history)|)
  {
    hide Sound, CompactSpec, CompactRecord, SafeSince, ImageSound, OneWrite;
    ghost var s, since := DiskState(disk, Idle), |disk.history|;
    SafeNow(sha, disk.history);
    SaveAgain(sha, disk, target, since);
    ghost var base, history := disk.Now(), disk.history;
    var live := LiveHashes(disk.snapshots);
    ghost var ids;
    r, ids := CompactPacks(sha, disk, live, target);
    CompactedIsSound(sha, s, ids, target, disk.packs, disk.index, r);
    RecordIsSafe(sha, base, live, target, ids, history, disk.history, since);
  }

  /** Open the repository and save its index unchanged. */
  method SaveAgain(sha: Sha, disk: Disk, target: nat, ghost since: nat)
    requires Sound(sha, DiskState(disk, Idle)) && SafeSince(sha, disk.history, since)
    modifies disk
    ensures disk.packs == old(disk.packs) && disk.snapshots == old(disk.snapshots)
    ensures disk.index == Some(SavedIndex(old(disk.index)))
    ensures ImageSound(sha, disk.Now()) && SafeSince(sha, disk.history, since)
  {
    hide Sound, Inv, SafeSince, OneWrite, ImageSound, ChunkStore.FlushPending;
    ghost var s := DiskState(disk, Idle);
    SoundIsValid(sha, s);
    IdleAgain(sha, s);
    SoundImage(sha, s);
    SoundImage(sha, State(s.packs, Some(SavedIndex(s.index)), s.snapshots, Idle));
    var repo := new Repository.Open(sha, disk, target);
    FlushNothing(sha, repo.State());
    ghost var h0 := disk.history;
    repo.FlushPending();
    SafeWrite(sha, h0, disk.history, disk.Now(), since);
    ghost var h1 := disk.history;
    repo.SaveIndex();
    AppendedOne(h1, disk.Now());
    SafeWrite(sha, h1, disk.history, disk.Now(), since);
  }

  lemma FlushNothing(sha: Sha, s: Store)
    requires s.buffer == []
    ensures ChunkStore.FlushPending(sha, s) == s
  {
  }

  lemma SoundIsValid(sha: Sha, s: State)
    requires Sound(sha, s)
    ensures PositiveIds(s.packs) && NothingPending(SavedIndex(s.index))
  {
    hide IndexSound, RefsCover, PositiveIds, NothingPending, SessionSound;
    SoundIsFlushed(sha, s.packs, SavedIndex(s.index));
  }

  lemma CompactedIsSound(sha: Sha, s: State, ids: seq<nat>, target: nat,
                         packs': Packs, index': Option<Index>, r: Result<CompactResult, PackError>)
    requires Sound(sha, s) && s.session.Idle? && IsPackList(ids, s.packs)
    requires CompactSpec(sha, s.packs, Some(SavedIndex(s.index)), LiveHashes(s.snapshots), target, ids, packs', index', r)
    ensures Sound(sha, State(packs', index', s.snapshots, Idle))
    ensures forall h :: h in LiveHashes(s.snapshots) ==> Refs(SavedIndex(index'), h) == Refs(SavedIndex(s.index), h)
  {
    hide Sound, LiveHashes, CollectAll, Rewritten, WithoutPacks, CompactedIndex, Refs;
    ListedInPacks(ids, s.packs);
    IdleAgain(sha, s);
    if |ids| > 0 && CollectAll(sha, s.packs, LiveHashes(s.snapshots), ids, |ids|).Ok? {
      var c := CollectAll(sha, s.packs, LiveHashes(s.snapshots), ids, |ids|).value;
      SuccessIsSound(sha, s, ids, c, ids[|ids| - 1] + 1, target);
    }
  }

  lemma IdleAgain(sha: Sha, s: State)
    requires Sound(sha, s) && s.session.Idle?
    ensures Sound(sha, State(s.packs, Some(SavedIndex(s.index)), s.snapshots, Idle))
  {
    hide DiskSound;
  }

  lemma SuccessIsSound(sha: Sha, s: State, ids: seq<nat>, c: Collected, first: nat, target: nat)
    requires Sound(sha, s) && s.session.Idle?
    requires Compacting(sha, s.packs, LiveHashes(s.snapshots), ids, c, first)
    ensures var o := Rewritten(sha, s.packs, c.chunks, first, target);
            var i := CompactedIndex(SavedIndex(s.index), o.moved, LiveHashes(s.snapshots));
            && Sound(sha, State(WithoutPacks(o.packs, ids, |ids|), Some(i), s.snapshots, Idle))
            && forall h :: h in LiveHashes(s.snapshots) ==> Refs(i, h) == Refs(SavedIndex(s.index), h)
  {
    hide IndexSound, RefsCover, LiveHashes, Compacting, Rewritten, WithoutPacks, CompactedIndex, Refs, PositiveIds, Occurrences;
    var live, index := LiveHashes(s.snapshots), SavedIndex(s.index);
    CompactionKeepsSound(sha, s.packs, index, live, ids, c, first, target, |ids|);
    DroppedImageSound(sha, s.packs, index, s.snapshots, ids, c, first, target, |ids|);
  }

  /** The disk with the new index and `n` old packs gone. */
  lemma DroppedImageSound(sha: Sha, packs: Packs, index: Index, snapshots: Snapshots, ids: seq<nat>, c: Collected,
                          first: nat, target: nat, n: nat)
    requires DiskSound(sha, packs, index, snapshots) && n <= |ids|
    requires Compacting(sha, packs, LiveHashes(snapshots), ids, c, first)
    ensures var o := Rewritten(sha, packs, c.chunks, first, target);
            DiskSound(sha, WithoutPacks(o.packs, ids, n), CompactedIndex(index, o.moved, LiveHashes(snapshots)), snapshots)
  {
    hide IndexSound, RefsCover, LiveHashes, Compacting, Rewritten, WithoutPacks, CompactedIndex, Refs, PositiveIds, Occurrences;
    var live := LiveHashes(snapshots);
    CompactionKeepsSound(sha, packs, index, live, ids, c, first, target, n);
    LiveIsUsed(snapshots);
    LiveSetMustCover(sha, packs, index, live, ids, c, first, target, snapshots);
    NewPacksPositive(sha, packs, live, ids, c, first, target, n);
  }

  lemma LiveIsUsed(snapshots: Snapshots)
    ensures forall h :: Occurrences(snapshots, h) > 0 ==> h in LiveHashes(snapshots)
  {
    hide Occurrences, LiveHashes;
    forall h | h !in LiveHashes(snapshots)
      ensures Occurrences(snapshots, h) == 0
    {
      UnusedElsewhere(snapshots, h);
    }
  }

  lemma NewPacksPositive(sha: Sha, packs: Packs, live: set<Hash>, ids: seq<nat>, c: Collected, first: nat, target: nat, n: nat)
    requires Compacting(sha, packs, live, ids, c, first) && PositiveIds(packs) && n <= |ids|
    ensures PositiveIds(CompactedPacks(sha, packs, c, first, target, ids, n))
  {
    hide Compacting, Rewritten, SizesFit, HashesMatch, MovedTo;
    CompactingFacts(sha, packs, live, ids, c, first);
    RewrittenWrote(sha, packs, first, c.chunks, target);
    FirstIsPositive(sha, packs, live, ids, c, first);
  }

  lemma FirstIsPositive(sha: Sha, packs: Packs, live: set<Hash>, ids: seq<nat>, c: Collected, first: nat)
    requires Compacting(sha, packs, live, ids, c, first)
    ensures first > 0
  {
    hide CollectAll;
  }

  // ── Every write of a compaction ──────────────────────────────────────────

  lemma CopiedImageSound(sha: Sha, base: Image, live: set<Hash>, ids: seq<nat>, c: Collected, w: Rewriting, img: Image)
    requires ImageSound(sha, base) && Compacting(sha, base.packs, live, ids, c, w.first)
    requires w.base == base && w.chunks == c.chunks && CopyImage(sha, w, img)
    ensures ImageSound(sha, img)
  {
    hide Compacting, SizesFit, HashesMatch, WriteLive, Rewritten, DiskSound, MovedTo, Accounted;
    CompactingFacts(sha, base.packs, live, ids, c, w.first);
    FirstIsPositive(sha, base.packs, live, ids, c, w.first);
    if img.packs == AllCopiedPacks(sha, w).packs {
      RewrittenWrote(sha, base.packs, w.first, w.chunks, w.target);
    } else {
      var m: nat :| m <= |w.chunks| && img.packs == CopiedPacks(sha, w, m);
      WriteLiveWrote(sha, base.packs, w.first, w.chunks, w.target, m);
    }
    BasePositive(sha, base);
    DiskExtends(sha, base.packs, img.packs, SavedIndex(base.index), base.snapshots);
  }

  lemma BasePositive(sha: Sha, base: Image)
    requires ImageSound(sha, base)
    ensures PositiveIds(base.packs)
  {
  }

  lemma DropImageSound(sha: Sha, base: Image, ids: seq<nat>, c: Collected, w: Rewriting, img: Image)
    requires ImageSound(sha, base) && base.index.Some?
    requires Compacting(sha, base.packs, LiveHashes(base.snapshots), ids, c, w.first)
    requires w == Rewriting(base, c.chunks, w.first, w.target, LiveHashes(base.snapshots), ids) && DropImage(sha, w, img)
    ensures ImageSound(sha, img)
  {
    hide Compacting, Rewritten, DiskSound, CompactedIndex, WithoutPacks, LiveHashes;
    var m: nat :| m <= |ids| && img.packs == WithoutPacks(AllCopiedPacks(sha, w).packs, ids, m);
    DroppedImageSound(sha, base.packs, base.index.value, base.snapshots, ids, c, w.first, w.target, m);
  }

  lemma ImagesAreSafe(sha: Sha, base: Image, ids: seq<nat>, c: Collected, w: Rewriting, before: seq<Image>, after: seq<Image>,
                      since: nat)
    requires ImageSound(sha, base) && base.index.Some?
    requires Compacting(sha, base.packs, LiveHashes(base.snapshots), ids, c, w.first)
    requires w == Rewriting(base, c.chunks, w.first, w.target, LiveHashes(base.snapshots), ids)
    requires CompactionImages(sha, w, before, after) && SafeSince(sha, before, since)
    ensures SafeSince(sha, after, since)
  {
    hide ImageSound, CopyImage, DropImage, Compacting, LiveHashes;
    forall i | since <= i < |after|
      ensures ImageSound(sha, after[i])
    {
      if i < |before| {
        assert after[i] == before[i];
      } else if CopyImage(sha, w, after[i]) {
        CopiedImageSound(sha, base, LiveHashes(base.snapshots), ids, c, w, after[i]);
      } else {
        DropImageSound(sha, base, ids, c, w, after[i]);
      }
    }
  }

  /** No write of a compaction leaves an unsound disk. */
  lemma RecordIsSafe(sha: Sha, base: Image, live: set<Hash>, target: nat, ids: seq<nat>, before: seq<Image>, after: seq<Image>,
                     since: nat)
    requires ImageSound(sha, base) && base.index.Some? && live == LiveHashes(base.snapshots)
    requires IsPackList(ids, base.packs) && CompactRecord(sha, base, live, target, ids, before, after)
    requires SafeSince(sha, before, since)
    ensures SafeSince(sha, after, since)
  {
    hide ImageSound, CompactionImages, SafeSince, CollectAll, LiveHashes;
    ListedInPacks(ids, base.packs);
    if |ids| > 0 && CollectAll(sha, base.packs, live, ids, |ids|).Ok? {
      var c, first := CollectAll(sha, base.packs, live, ids, |ids|).value, ids[|ids| - 1] + 1;
      ImagesAreSafe(sha, base, ids, c, Rewriting(base, c.chunks, first, target, live, ids), before, after, since);
    }
  }

  // ── Deleting and pruning ─────────────────────────────────────────────────

  /** The saved counts stand up to all decrements of the list of ids, which may name a snapshot twice. */
  ghost predicate CountsSuffice(index: Index, snapshots: Snapshots, ids: seq<string>) {
    forall h :: ChunkSuffices(index, snapshots, ids, h)
  }

  ghost predicate ChunkSuffices(index: Index, snapshots: Snapshots, ids: seq<string>, h: Hash) {
    var doomed, left := DoomedChunks(snapshots, ids, |ids|), Occurrences(Remaining(snapshots, ids, |ids|), h);
    left > 0 ==> Count(doomed, h, |doomed|) + left <= Refs(index, h)
  }

  lemma SufficesIff(index: Index, snapshots: Snapshots, ids: seq<string>, h: Hash)
    ensures var doomed := DoomedChunks(snapshots, ids, |ids|);
            Occurrences(Remaining(snapshots, ids, |ids|), h) <= Refs(DecrementAll(index, doomed, |doomed|), h) <==>
            ChunkSuffices(index, snapshots, ids, h)
  {
    hide Occurrences, Count, DecrementAll, DoomedChunks, Remaining;
    var doomed := DoomedChunks(snapshots, ids, |ids|);
    DecrementAllExact(index, doomed, |doomed|, h);
  }

  lemma DistinctSuffice(index: Index, snapshots: Snapshots, ids: seq<string>)
    requires RefsCover(index, snapshots) && DistinctIdList(ids, |ids|)
    ensures CountsSuffice(index, snapshots, ids)
  {
    hide Occurrences, Count, DecrementAll, DoomedChunks, Remaining, DistinctIdList, Refs;
    forall h
      ensures ChunkSuffices(index, snapshots, ids, h)
    {
      assert Occurrences(snapshots, h) <= Refs(index, h);
      DeletionIsSafe(index, snapshots, ids, h);
      SufficesIff(index, snapshots, ids, h);
    }
  }

  /** What deletion leaves is sound exactly when the counts suffice. */
  lemma DeletedIsSound(sha: Sha, s: State, ids: seq<string>)
    requires Sound(sha, s) && s.session.Idle?
    ensures var doomed := DoomedChunks(s.snapshots, ids, |ids|);
            var index := DecrementAll(SavedIndex(s.index), doomed, |doomed|);
            Sound(sha, State(s.packs, Some(index), Remaining(s.snapshots, ids, |ids|), Idle)) <==>
            CountsSuffice(SavedIndex(s.index), s.snapshots, ids)
  {
    hide IndexSound, Occurrences, Refs, DecrementAll, DoomedChunks, Remaining, ChunkSuffices;
    var doomed := DoomedChunks(s.snapshots, ids, |ids|);
    var index := DecrementAll(SavedIndex(s.index), doomed, |doomed|);
    DecrementedSound(sha, s.packs, SavedIndex(s.index), doomed);
    forall h
      ensures Occurrences(Remaining(s.snapshots, ids, |ids|), h) <= Refs(index, h) <==>
              ChunkSuffices(SavedIndex(s.index), s.snapshots, ids, h)
    {
      SufficesIff(SavedIndex(s.index), s.snapshots, ids, h);
    }
  }

  /** While snapshots disappear the old index still covers those that remain. */
  lemma DeletionImageSound(sha: Sha, base: Image, ids: seq<string>, img: Image)
    requires ImageSound(sha, base)
    requires DeletionImage(img, base.packs, base.index, base.snapshots, ids)
    ensures ImageSound(sha, img)
  {
    hide IndexSound, RefsCover, Remaining;
    var k: nat :| k <= |ids| && img.snapshots == Remaining(base.snapshots, ids, k);
    RemainingCovered(SavedIndex(base.index), base.snapshots, ids, k);
  }

  /** Every write of the delete loop is safe, whatever the ids; the final one is if its index is. */
  lemma DeletionIsRecordedSafe(sha: Sha, base: Image, ids: seq<string>, before: seq<Image>, after: seq<Image>)
    requires ImageSound(sha, base) && |after| > 0
    requires DeletionImages(before, after[..|after| - 1], base.packs, base.index, base.snapshots, ids)
    ensures SafeSince(sha, after[..|after| - 1], |before|)
    ensures ImageSound(sha, after[|after| - 1]) ==> SafeSince(sha, after, |before|)
  {
    hide ImageSound, DeletionImage;
    var n := |after| - 1;
    forall i | |before| <= i < n
      ensures ImageSound(sha, after[i])
    {
      assert after[..n][i] == after[i];
      DeletionImageSound(sha, base, ids, after[i]);
    }
  }

  /**
   Deleting any list of ids.  No write before the last one, which saves the index, does any harm; the
   last one is harmless exactly when the counts suffice, as they always do for distinct ids.
   */
  method RunDeletion(sha: Sha, disk: Disk, ids: seq<string>, target: nat) returns (removed: seq<string>)
    requires Sound(sha, DiskState(disk, Idle))
    modifies disk
    ensures disk.packs == old(disk.packs) && disk.snapshots == Remaining(old(disk.snapshots), ids, |ids|)
    ensures ids != [] ==> |disk.history| > 0 && SafeSince(sha, disk.history[..|disk.history| - 1], |old(disk.history)|)
    ensures ids != [] ==>
              (Sound(sha, DiskState(disk, Idle)) <==> CountsSuffice(SavedIndex(old(disk.index)), old(disk.snapshots), ids))
    ensures CountsSuffice(SavedIndex(old(disk.index)), old(disk.snapshots), ids) || DistinctIdList(ids, |ids|) ==>
              Sound(sha, DiskState(disk, Idle)) && SafeSince(sha, disk.history, |old(disk.history)|)
  {
    hide Sound, DecrementAll, Remaining, DoomedChunks, RemovedIds, DeletionImages, ImageSound, SafeSince, DistinctIdList,
      CountsSuffice;
    ghost var s, base, history := DiskState(disk, Idle), disk.Now(), disk.history;
    SoundImage(sha, s);
    SafeNow(sha, history);
    DeletedIsSound(sha, s, ids);
    if DistinctIdList(ids, |ids|) {
      ImageCovers(sha, base);
      DistinctSuffice(SavedIndex(s.index), s.snapshots, ids);
    }
    removed := DeleteSnapshots(sha, disk, ids, target);
    if ids == [] {
      NothingToDelete(s.snapshots, ids);
    } else {
      if Sound(sha, DiskState(disk, Idle)) {
        SoundImage(sha, DiskState(disk, Idle));
      }
      DeletionIsRecordedSafe(sha, base, ids, history, disk.history);
    }
  }

  lemma ImageCovers(sha: Sha, img: Image)
    requires ImageSound(sha, img)
    ensures RefsCover(SavedIndex(img.index), img.snapshots)
  {
  }

  method RunPrune(sha: Sha, disk: Disk, listing: seq<Snapshot>, cal: Calendar, p: Policy, target: nat)
    returns (removed: seq<string>)
    requires Sound(sha, DiskState(disk, Idle)) && IsListing(listing, disk.snapshots)
    modifies disk
    ensures Sound(sha, DiskState(disk, Idle))
    ensures disk.snapshots.Keys == KeptIds(listing, cal, p, |listing|)
    ensures forall i :: 0 <= i < |listing| ==>
              (listing[i].id in disk.snapshots <==>
               || |set j | 0 <= j < i && cal.day(listing[j].timestamp) == cal.day(listing[i].timestamp)| < p.daily
               || |set j | 0 <= j < i && cal.week(listing[j].timestamp) == cal.week(listing[i].timestamp)| < p.weekly
               || |set j | 0 <= j < i && cal.month(listing[j].timestamp) == cal.month(listing[i].timestamp)| < p.monthly)
    ensures SafeSince(sha, disk.history, |old(disk.history)|)
  {
    hide Sound, DecrementAll, Remaining, DoomedChunks, RemovedIds, DeletionImages, ImageSound, SafeSince, DistinctIdList,
      IsListing, KeptIds, Rejected, CountsSuffice;
    ghost var s, base, history := DiskState(disk, Idle), disk.Now(), disk.history;
    SoundImage(sha, s);
    SafeNow(sha, history);
    removed := PruneSnapshots(sha, disk, listing, cal, p, target);
    ImageCovers(sha, base);
    DistinctSuffice(SavedIndex(s.index), s.snapshots, removed);
    DeletedIsSound(sha, s, removed);
    if listing == [] {
      NothingRejected(s.snapshots, listing, cal, p);
    } else {
      SoundImage(sha, DiskState(disk, Idle));
      DeletionIsRecordedSafe(sha, base, removed, history, disk.history);
    }
  }
}
