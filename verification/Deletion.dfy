/**
 Deleting and pruning snapshots (crates/core/src/snapshot.rs): reference counts go down by
 one for every chunk occurrence of a deleted snapshot, and a chunk leaves the index when its
 count reaches zero.
 */
module Deletion {
  import opened Wrappers
  import opened Digest
  import opened ChunkStore
  import opened SnapshotTree
  import opened Repositories
  import opened Retention

  type Snapshots = map<string, Snapshot>

  // ── Decrementing ─────────────────────────────────────────────────────────

  /** One reference less; the entry is removed at zero. */
  function DecrementRef(index: Index, h: Hash): Index {
    if h !in index then index
    else
      var refs := if index[h].refs == 0 then 0 else index[h].refs - 1;
      if refs == 0 then index - {h} else index[h := index[h].(refs := refs)]
  }

  function DecrementAll(index: Index, hashes: seq<Hash>, n: nat): Index
    requires n <= |hashes|
    decreases n
  {
    if n == 0 then index else DecrementRef(DecrementAll(index, hashes, n - 1), hashes[n - 1])
  }

  function Count(hashes: seq<Hash>, h: Hash, n: nat): nat
    requires n <= |hashes|
  {
    if n == 0 then 0 else Count(hashes, h, n - 1) + if hashes[n - 1] == h then 1 else 0
  }

  /** An entry survives exactly when it is not decremented at all or has references left, and then only its count changes. */
  lemma {:induction false} DecrementAllExact(index: Index, hashes: seq<Hash>, n: nat, h: Hash)
    requires n <= |hashes|
    ensures var r, c := DecrementAll(index, hashes, n), Count(hashes, h, n);
            && (h in r <==> h in index && (c == 0 || c < index[h].refs))
            && (h in r ==> r[h] == if c == 0 then index[h] else index[h].(refs := index[h].refs - c))
    decreases n
  {
    if n > 0 {
      DecrementAllExact(index, hashes, n - 1, h);
    }
  }

  // ── Occurrences in stored snapshots ──────────────────────────────────────

  function ChunksOf(s: Snapshot): seq<Hash> {
    ChunkHashes(s.root)
  }

  function Uses(s: Snapshot, h: Hash): nat {
    Count(ChunksOf(s), h, |ChunksOf(s)|)
  }

  ghost function AnyId(snapshots: Snapshots): (id: string)
    requires |snapshots| > 0
    ensures id in snapshots
  {
    var id :| id in snapshots; id
  }

  function Drop(snapshots: Snapshots, id: string): (r: Snapshots)
    ensures r.Keys == snapshots.Keys - {id}
    ensures forall k :: k in r ==> r[k] == snapshots[k]
  {
    snapshots - {id}
  }

  lemma DropFacts(snapshots: Snapshots, a: string, b: string)
    requires a in snapshots
    ensures |Drop(snapshots, a)| == |snapshots| - 1
    ensures Drop(Drop(snapshots, a), b) == Drop(Drop(snapshots, b), a)
  {
    assert |Drop(snapshots, a).Keys| == |snapshots.Keys| - 1;
  }

  /** Occurrences of a chunk, summed over all stored snapshots. */
  ghost function Occurrences(snapshots: Snapshots, h: Hash): nat
    decreases |snapshots|
  {
    if |snapshots| == 0 then 0
    else
      var id := AnyId(snapshots);
      DropFacts(snapshots, id, id);
      Uses(snapshots[id], h) + Occurrences(Drop(snapshots, id), h)
  }

  /** The sum does not depend on the order. */
  lemma {:induction false} OccurrencesSplit(snapshots: Snapshots, id: string, h: Hash)
    requires id in snapshots
    ensures Occurrences(snapshots, h) == Uses(snapshots[id], h) + Occurrences(Drop(snapshots, id), h)
    decreases |snapshots|
  {
    hide Uses, Drop;
    var first := AnyId(snapshots);
    if first != id {
      DropFacts(snapshots, first, id);
      DropFacts(snapshots, id, first);
      OccurrencesSplit(Drop(snapshots, first), id, h);
      OccurrencesSplit(Drop(snapshots, id), first, h);
    }
  }

  lemma OccurrencesAdd(snapshots: Snapshots, id: string, s: Snapshot, h: Hash)
    requires id !in snapshots
    ensures Occurrences(snapshots[id := s], h) == Occurrences(snapshots, h) + Uses(s, h)
  {
    hide Uses, Occurrences;
    var more: Snapshots := snapshots[id := s];
    OccurrencesSplit(more, id, h);
    assert Drop(more, id) == snapshots;
  }

  lemma UsedSomewhere(snapshots: Snapshots, id: string, h: Hash)
    requires id in snapshots && Uses(snapshots[id], h) > 0
    ensures Occurrences(snapshots, h) > 0
  {
    hide Uses, Occurrences;
    OccurrencesSplit(snapshots, id, h);
  }

  // ── The delete loop ──────────────────────────────────────────────────────

  /** The chunks of the listed snapshots that exist, in order and with repetitions. */
  function DoomedChunks(snapshots: Snapshots, ids: seq<string>, n: nat): seq<Hash>
    requires n <= |ids|
    decreases n
  {
    if n == 0 then []
    else DoomedChunks(snapshots, ids, n - 1) + if ids[n - 1] in snapshots then ChunksOf(snapshots[ids[n - 1]]) else []
  }

  function Remaining(snapshots: Snapshots, ids: seq<string>, n: nat): (r: Snapshots)
    requires n <= |ids|
    ensures forall id :: id in r <==> id in snapshots && forall k :: 0 <= k < n ==> ids[k] != id
    ensures forall id :: id in r ==> r[id] == snapshots[id]
    decreases n
  {
    if n == 0 then snapshots else Drop(Remaining(snapshots, ids, n - 1), ids[n - 1])
  }

  function RemovedIds(snapshots: Snapshots, ids: seq<string>, n: nat): seq<string>
    requires n <= |ids|
    decreases n
  {
    if n == 0 then []
    else RemovedIds(snapshots, ids, n - 1) + if ids[n - 1] in snapshots then [ids[n - 1]] else []
  }

  lemma {:induction false} DecrementAppend(index: Index, a: seq<Hash>, b: seq<Hash>, n: nat)
    requires n <= |b|
    ensures DecrementAll(DecrementAll(index, a, |a|), b, n) == DecrementAll(index, a + b, |a| + n)
    decreases n
  {
    hide DecrementRef;
    if n == 0 {
      DecrementPrefix(index, a, b, |a|);
    } else {
      DecrementAppend(index, a, b, n - 1);
      assert (a + b)[|a| + n - 1] == b[n - 1];
    }
  }

  lemma {:induction false} DecrementPrefix(index: Index, a: seq<Hash>, b: seq<Hash>, n: nat)
    requires n <= |a|
    ensures DecrementAll(index, a + b, n) == DecrementAll(index, a, n)
    decreases n
  {
    hide DecrementRef;
    if n > 0 {
      DecrementPrefix(index, a, b, n - 1);
      assert (a + b)[n - 1] == a[n - 1];
    }
  }

  /** Decrement every chunk occurrence of one snapshot. */
  method DecrementChunks(index: Index, hashes: seq<Hash>) returns (r: Index)
    ensures r == DecrementAll(index, hashes, |hashes|)
  {
    r := index;
    for k := 0 to |hashes|
      invariant r == DecrementAll(index, hashes, k)
    {
      r := DecrementRef(r, hashes[k]);
    }
  }

  /** Packs and index as before, and the snapshots that remain after some part of the list. */
  ghost predicate DeletionImage(img: Image, packs: Packs, index: Option<Index>, snapshots: Snapshots, ids: seq<string>) {
    && img.packs == packs && img.index == index
    && exists k: nat :: k <= |ids| && img.snapshots == Remaining(snapshots, ids, k)
  }

  /** Every write recorded since `before` left such an image. */
  ghost predicate DeletionImages(before: seq<Image>, after: seq<Image>, packs: Packs, index: Option<Index>,
                                 snapshots: Snapshots, ids: seq<string>) {
    && before <= after
    && forall i :: |before| <= i < |after| ==> DeletionImage(after[i], packs, index, snapshots, ids)
  }

  lemma OneMoreImage(before: seq<Image>, after: seq<Image>, packs: Packs, index: Option<Index>,
                     snapshots: Snapshots, ids: seq<string>, k: nat, img: Image)
    requires DeletionImages(before, after, packs, index, snapshots, ids) && k <= |ids|
    requires img == Image(packs, index, Remaining(snapshots, ids, k))
    ensures DeletionImages(before, after + [img], packs, index, snapshots, ids)
  {
    hide Remaining;
    assert DeletionImage(img, packs, index, snapshots, ids);
  }

  /** The delete loop after `k` ids: what is in memory, on disk, and on record. */
  ghost predicate DeletedSoFar(index: Index, disk: Image, history: seq<Image>, before: Index, start: Image,
                               written: seq<Image>, ids: seq<string>, k: nat)
    requires k <= |ids|
  {
    var doomed := DoomedChunks(start.snapshots, ids, k);
    && index == DecrementAll(before, doomed, |doomed|)
    && disk == Image(start.packs, start.index, Remaining(start.snapshots, ids, k))
    && DeletionImages(written, history, start.packs, start.index, start.snapshots, ids)
  }

  lemma DeletedNext(index: Index, disk: Image, history: seq<Image>, before: Index, start: Image,
                    written: seq<Image>, ids: seq<string>, k: nat, hashes: seq<Hash>)
    requires k < |ids| && ids[k] in start.snapshots && hashes == ChunksOf(start.snapshots[ids[k]])
    requires DeletedSoFar(index, disk, history, before, start, written, ids, k)
    ensures var now := Image(disk.packs, disk.index, disk.snapshots - {ids[k]});
            var index' := DecrementAll(index, hashes, |hashes|);
            && DeletedSoFar(index', now, history + [now], before, start, written, ids, k + 1)
            && (ids[k] !in disk.snapshots ==> DeletedSoFar(index', disk, history, before, start, written, ids, k + 1))
  {
    hide ChunksOf, DecrementAll, DeletionImages;
    var now := Image(disk.packs, disk.index, disk.snapshots - {ids[k]});
    DecrementAppend(before, DoomedChunks(start.snapshots, ids, k), hashes, |hashes|);
    OneMoreImage(written, history, start.packs, start.index, start.snapshots, ids, k + 1, now);
  }

  lemma DeletedSkip(index: Index, disk: Image, history: seq<Image>, before: Index, start: Image,
                    written: seq<Image>, ids: seq<string>, k: nat)
    requires k < |ids| && ids[k] !in start.snapshots
    requires DeletedSoFar(index, disk, history, before, start, written, ids, k)
    ensures DeletedSoFar(index, disk, history, before, start, written, ids, k + 1)
  {
    hide ChunksOf, DecrementAll, DeletionImages, Remaining, DoomedChunks;
    NotThere(start.snapshots, ids, k);
  }

  lemma NothingDeleted(index: Index, disk: Image, history: seq<Image>, ids: seq<string>)
    ensures DeletedSoFar(index, disk, history, index, disk, history, ids, 0)
  {
    hide DeletionImages;
    NoImages(history, disk.packs, disk.index, disk.snapshots, ids);
  }

  /** The loop shared by deletion and pruning; `snapshots` was listed before it. */
  method DeleteLoop(repo: Repository, snapshots: Snapshots, ids: seq<string>) returns (removed: seq<string>)
    requires repo.disk.snapshots == snapshots
    modifies repo`index, repo.disk`snapshots, repo.disk`history
    ensures removed == RemovedIds(snapshots, ids, |ids|)
    ensures DeletedSoFar(repo.index, repo.disk.Now(), repo.disk.history, old(repo.index), old(repo.disk.Now()),
                         old(repo.disk.history), ids, |ids|)
  {
    hide ChunksOf, DecrementAll, DeletedSoFar, RemovedIds;
    removed := [];
    ghost var before, start, written := repo.index, repo.disk.Now(), repo.disk.history;
    NothingDeleted(before, start, written, ids);
    NothingRemoved(snapshots, ids);
    for k := 0 to |ids|
      invariant removed == RemovedIds(snapshots, ids, k)
      invariant DeletedSoFar(repo.index, repo.disk.Now(), repo.disk.history, before, start, written, ids, k)
    {
      var id := ids[k];
      RemovedStep(snapshots, ids, k);
      if id in snapshots {
        var hashes := ChunksOf(snapshots[id]);
        DeletedNext(repo.index, repo.disk.Now(), repo.disk.history, before, start, written, ids, k, hashes);
        repo.index := DecrementChunks(repo.index, hashes);
        if id in repo.disk.snapshots {
          repo.disk.RemoveSnapshot(id);
        }
        removed := removed + [id];
      } else {
        DeletedSkip(repo.index, repo.disk.Now(), repo.disk.history, before, start, written, ids, k);
      }
    }
  }

  lemma NothingRemoved(snapshots: Snapshots, ids: seq<string>)
    ensures RemovedIds(snapshots, ids, 0) == []
  {
  }

  lemma RemovedStep(snapshots: Snapshots, ids: seq<string>, k: nat)
    requires k < |ids|
    ensures RemovedIds(snapshots, ids, k + 1) ==
            if ids[k] in snapshots then RemovedIds(snapshots, ids, k) + [ids[k]] else RemovedIds(snapshots, ids, k)
  {
  }

  lemma NoImages(history: seq<Image>, packs: Packs, index: Option<Index>, snapshots: Snapshots, ids: seq<string>)
    ensures DeletionImages(history, history, packs, index, snapshots, ids)
  {
  }

  lemma DecrementNone(index: Index, hashes: seq<Hash>)
    ensures DecrementAll(index, hashes, 0) == index
  {
  }

  lemma NotThere(snapshots: Snapshots, ids: seq<string>, k: nat)
    requires k < |ids| && ids[k] !in snapshots
    ensures Remaining(snapshots, ids, k + 1) == Remaining(snapshots, ids, k)
    ensures DoomedChunks(snapshots, ids, k + 1) == DoomedChunks(snapshots, ids, k)
    ensures RemovedIds(snapshots, ids, k + 1) == RemovedIds(snapshots, ids, k)
  {
  }

  /** The saved index, or the empty one. */
  function SavedIndex(saved: Option<Index>): Index {
    match saved
    case Some(i) => i
    case None => map[]
  }

  method DeleteSnapshots(sha: Sha, disk: Disk, ids: seq<string>, target: nat) returns (removed: seq<string>)
    modifies disk`index, disk`snapshots, disk`history
    ensures removed == RemovedIds(old(disk.snapshots), ids, |ids|)
    ensures disk.snapshots == Remaining(old(disk.snapshots), ids, |ids|)
    ensures ids == [] ==> disk.index == old(disk.index) && disk.history == old(disk.history)
    ensures ids != [] ==>
              && |disk.history| > 0 && disk.history[|disk.history| - 1] == disk.Now()
              && DeletionImages(old(disk.history), disk.history[..|disk.history| - 1], disk.packs, old(disk.index),
                                old(disk.snapshots), ids)
    ensures ids != [] ==>
              var doomed := DoomedChunks(old(disk.snapshots), ids, |ids|);
              disk.index == Some(DecrementAll(SavedIndex(old(disk.index)), doomed, |doomed|))
  {
    hide DecrementAll, Remaining, DoomedChunks, RemovedIds, DeletionImages;
    if |ids| == 0 {
      NothingToDelete(disk.snapshots, ids);
      return [];
    }
    var repo := new Repository.Open(sha, disk, target);
    var snapshots := disk.snapshots;
    removed := DeleteLoop(repo, snapshots, ids);
    repo.SaveIndex();
  }

  lemma NothingToDelete(snapshots: Snapshots, ids: seq<string>)
    ensures Remaining(snapshots, ids, 0) == snapshots && RemovedIds(snapshots, ids, 0) == []
  {
  }

  // ── What deletion guarantees ─────────────────────────────────────────────

  /** Every chunk has at least as many references as stored snapshots use it. */
  ghost predicate RefsCover(index: Index, snapshots: Snapshots) {
    forall h :: Occurrences(snapshots, h) <= Refs(index, h)
  }

  predicate DistinctIdList(ids: seq<string>, n: nat)
    requires n <= |ids|
  {
    forall i, j :: 0 <= i < j < n ==> ids[i] != ids[j]
  }

  lemma {:induction false} CountAppend(a: seq<Hash>, b: seq<Hash>, h: Hash, n: nat)
    requires n <= |b|
    ensures Count(a + b, h, |a| + n) == Count(a, h, |a|) + Count(b, h, n)
  {
    if n == 0 {
      CountPrefixOf(a, b, h, |a|);
    } else {
      CountAppend(a, b, h, n - 1);
      assert (a + b)[|a| + n - 1] == b[n - 1];
    }
  }

  lemma {:induction false} CountPrefixOf(a: seq<Hash>, b: seq<Hash>, h: Hash, n: nat)
    requires n <= |a|
    ensures Count(a + b, h, n) == Count(a, h, n)
  {
    if n > 0 {
      CountPrefixOf(a, b, h, n - 1);
      assert (a + b)[n - 1] == a[n - 1];
    }
  }

  /** Distinct ids: what is decremented plus what remains in use is what was in use. */
  lemma {:induction false} DoomedPlusRemaining(snapshots: Snapshots, ids: seq<string>, n: nat, h: Hash)
    requires n <= |ids| && DistinctIdList(ids, n)
    ensures var doomed := DoomedChunks(snapshots, ids, n);
            Count(doomed, h, |doomed|) + Occurrences(Remaining(snapshots, ids, n), h) == Occurrences(snapshots, h)
    decreases n
  {
    hide *;
    if n == 0 {
      NothingCounted(h);
      NothingDoomed(snapshots, ids);
    } else {
      var doomed, id := DoomedChunks(snapshots, ids, n - 1), ids[n - 1];
      ShorterDistinct(ids, n);
      DoomedPlusRemaining(snapshots, ids, n - 1, h);
      if id in snapshots {
        var hashes := ChunksOf(snapshots[id]);
        OneMoreDoomed(snapshots, ids, n);
        OccurrencesSplit(Remaining(snapshots, ids, n - 1), id, h);
        UsesIsCount(snapshots[id], h);
        CountAppend(doomed, hashes, h, |hashes|);
      } else {
        NotThere(snapshots, ids, n - 1);
      }
    }
  }

  lemma ShorterDistinct(ids: seq<string>, n: nat)
    requires 0 < n <= |ids| && DistinctIdList(ids, n)
    ensures DistinctIdList(ids, n - 1)
  {
  }

  lemma UsesIsCount(s: Snapshot, h: Hash)
    ensures Uses(s, h) == Count(ChunksOf(s), h, |ChunksOf(s)|)
  {
  }

  lemma NothingDoomed(snapshots: Snapshots, ids: seq<string>)
    ensures DoomedChunks(snapshots, ids, 0) == [] && Remaining(snapshots, ids, 0) == snapshots
  {
  }

  lemma OneMoreDoomed(snapshots: Snapshots, ids: seq<string>, n: nat)
    requires 0 < n <= |ids| && DistinctIdList(ids, n) && ids[n - 1] in snapshots
    ensures var before, id := Remaining(snapshots, ids, n - 1), ids[n - 1];
            && id in before && before[id] == snapshots[id]
            && Remaining(snapshots, ids, n) == Drop(before, id)
            && DoomedChunks(snapshots, ids, n) == DoomedChunks(snapshots, ids, n - 1) + ChunksOf(snapshots[id])
  {
    hide ChunksOf;
  }

  lemma NothingCounted(h: Hash)
    ensures Count([], h, 0) == 0
  {
  }

  /** Deleting distinct ids keeps the reference counts sufficient and every used chunk where it was. */
  lemma DeletionIsSafe(index: Index, snapshots: Snapshots, ids: seq<string>, h: Hash)
    requires DistinctIdList(ids, |ids|) && Occurrences(snapshots, h) <= Refs(index, h)
    ensures var doomed := DoomedChunks(snapshots, ids, |ids|);
            var r, left := DecrementAll(index, doomed, |doomed|), Remaining(snapshots, ids, |ids|);
            && Occurrences(left, h) <= Refs(r, h)
            && (Occurrences(left, h) > 0 ==>
                  h in r && h in index && r[h] == index[h].(refs := r[h].refs))
  {
    hide Occurrences, Remaining, DoomedChunks, DecrementAll, Count;
    var doomed := DoomedChunks(snapshots, ids, |ids|);
    DoomedPlusRemaining(snapshots, ids, |ids|, h);
    DecrementAllExact(index, doomed, |doomed|, h);
  }

  // ── Repeated ids ─────────────────────────────────────────────────────────

  /**
   For any list of ids, repeated or not: a chunk stays in the index exactly when it was there
   and is either not decremented or has more references than decrements.
   */
  lemma DeletionKeepsIff(index: Index, snapshots: Snapshots, ids: seq<string>, h: Hash)
    ensures var doomed := DoomedChunks(snapshots, ids, |ids|);
            var c := Count(doomed, h, |doomed|);
            h in DecrementAll(index, doomed, |doomed|) <==> h in index && (c == 0 || c < index[h].refs)
  {
    var doomed := DoomedChunks(snapshots, ids, |ids|);
    DecrementAllExact(index, doomed, |doomed|, h);
  }

  function OneChunkSnapshot(id: string, h: Hash): Snapshot {
    Snapshot(id, 0, File(id, FileInfo(1, 0, 0, [h], [], [])))
  }

  /** Two snapshots share a chunk; naming one of them twice drops the chunk from under the other. */
  lemma RepeatedIdLosesChunk(h: Hash, meta: ChunkMeta)
    requires meta.refs == 2
    ensures var snapshots: Snapshots := map["a" := OneChunkSnapshot("a", h), "b" := OneChunkSnapshot("b", h)];
            var ids := ["a", "a"];
            var index: Index := map[h := meta];
            var doomed := DoomedChunks(snapshots, ids, 2);
            && Occurrences(snapshots, h) == Refs(index, h)
            && "b" in Remaining(snapshots, ids, 2) && Uses(snapshots["b"], h) == 1
            && h !in DecrementAll(index, doomed, |doomed|)
  {
    var a, b := OneChunkSnapshot("a", h), OneChunkSnapshot("b", h);
    var snapshots: Snapshots := map["a" := a, "b" := b];
    var ids := ["a", "a"];
    OneUse("a", h);
    OneUse("b", h);
    OccurrencesSplit(snapshots, "a", h);
    OccurrencesSplit(Drop(snapshots, "a"), "b", h);
    assert Drop(Drop(snapshots, "a"), "b") == map[];
    assert DoomedChunks(snapshots, ids, 0) == [];
    assert DoomedChunks(snapshots, ids, 1) == [h];
    assert DoomedChunks(snapshots, ids, 2) == [h, h];
    TwoCounted(h);
    DecrementAllExact(map[h := meta], [h, h], 2, h);
  }

  lemma OneUse(id: string, h: Hash)
    ensures ChunksOf(OneChunkSnapshot(id, h)) == [h] && Uses(OneChunkSnapshot(id, h), h) == 1
  {
    assert Count([h], h, 0) == 0;
  }

  lemma TwoCounted(h: Hash)
    ensures Count([h, h], h, 2) == 2
  {
    assert Count([h, h], h, 0) == 0;
    assert Count([h, h], h, 1) == 1;
  }

  // ── Pruning ──────────────────────────────────────────────────────────────

  /** `listing` names the stored snapshots, newest first. */
  predicate IsListing(listing: seq<Snapshot>, snapshots: Snapshots) {
    && NewestFirst(listing) && DistinctIds(listing)
    && (forall i :: 0 <= i < |listing| ==> listing[i].id in snapshots && snapshots[listing[i].id] == listing[i])
    && (forall id :: id in snapshots ==> exists i :: 0 <= i < |listing| && listing[i].id == id)
  }

  /** The ids among the first `n` that are not to be kept. */
  function Rejected(listing: seq<Snapshot>, keep: set<string>, n: nat): (ids: seq<string>)
    requires n <= |listing|
    ensures forall id :: id in ids <==> exists i :: 0 <= i < n && listing[i].id == id && id !in keep
  {
    if n == 0 then []
    else Rejected(listing, keep, n - 1) + if listing[n - 1].id in keep then [] else [listing[n - 1].id]
  }

  lemma {:induction false} RejectedDistinct(listing: seq<Snapshot>, keep: set<string>, n: nat)
    requires n <= |listing| && DistinctIds(listing)
    ensures var ids := Rejected(listing, keep, n); DistinctIdList(ids, |ids|)
  {
    if n > 0 {
      RejectedDistinct(listing, keep, n - 1);
      var before := Rejected(listing, keep, n - 1);
      forall k | 0 <= k < |before|
        ensures before[k] != listing[n - 1].id
      {
        assert before[k] in before;
      }
    }
  }

  method PruneSnapshots(sha: Sha, disk: Disk, listing: seq<Snapshot>, cal: Calendar, p: Policy, target: nat)
    returns (removed: seq<string>)
    requires IsListing(listing, disk.snapshots)
    modifies disk`index, disk`snapshots, disk`history
    ensures removed == Rejected(listing, KeptIds(listing, cal, p, |listing|), |listing|)
    ensures DistinctIdList(removed, |removed|)
    ensures disk.snapshots == Remaining(old(disk.snapshots), removed, |removed|)
    ensures disk.snapshots.Keys == KeptIds(listing, cal, p, |listing|)
    ensures forall i :: 0 <= i < |listing| ==>
              (listing[i].id in disk.snapshots <==>
               || |set j | 0 <= j < i && cal.day(listing[j].timestamp) == cal.day(listing[i].timestamp)| < p.daily
               || |set j | 0 <= j < i && cal.week(listing[j].timestamp) == cal.week(listing[i].timestamp)| < p.weekly
               || |set j | 0 <= j < i && cal.month(listing[j].timestamp) == cal.month(listing[i].timestamp)| < p.monthly)
    ensures listing == [] ==> disk.index == old(disk.index) && disk.history == old(disk.history)
    ensures listing != [] ==>
              && |disk.history| > 0 && disk.history[|disk.history| - 1] == disk.Now()
              && DeletionImages(old(disk.history), disk.history[..|disk.history| - 1], disk.packs, old(disk.index),
                                old(disk.snapshots), removed)
    ensures listing != [] ==>
              var doomed := DoomedChunks(old(disk.snapshots), removed, |removed|);
              disk.index == Some(DecrementAll(SavedIndex(old(disk.index)), doomed, |doomed|))
  {
    hide DecrementAll, DoomedChunks, RemovedIds, ChunksOf, IsListing, Rejected, Remaining, KeptIds, DistinctIdList,
      DeletionImages;
    PruneFacts(disk.snapshots, listing, cal, p);
    if |listing| == 0 {
      NothingRejected(disk.snapshots, listing, cal, p);
      return [];
    }
    var toKeep := SelectKept(listing, cal, p);
    var repo := new Repository.Open(sha, disk, target);
    removed := Rejected(listing, toKeep, |listing|);
    var gone := DeleteLoop(repo, disk.snapshots, removed);
    repo.SaveIndex();
    AreDistinct(listing, old(disk.snapshots));
  }

  lemma AreDistinct(listing: seq<Snapshot>, snapshots: Snapshots)
    requires IsListing(listing, snapshots)
    ensures DistinctIds(listing) && NewestFirst(listing)
  {
    hide DistinctIds, NewestFirst;
  }

  lemma NothingRejected(snapshots: Snapshots, listing: seq<Snapshot>, cal: Calendar, p: Policy)
    requires |listing| == 0
    ensures Rejected(listing, KeptIds(listing, cal, p, |listing|), |listing|) == []
    ensures Remaining(snapshots, [], 0) == snapshots
  {
  }

  lemma PruneFacts(snapshots: Snapshots, listing: seq<Snapshot>, cal: Calendar, p: Policy)
    requires IsListing(listing, snapshots)
    ensures var keep := KeptIds(listing, cal, p, |listing|);
            var ids := Rejected(listing, keep, |listing|);
            && DistinctIdList(ids, |ids|)
            && RemovedIds(snapshots, ids, |ids|) == ids
            && Remaining(snapshots, ids, |ids|).Keys == keep
  {
    hide KeptIds, Remaining;
    var keep := KeptIds(listing, cal, p, |listing|);
    var ids := Rejected(listing, keep, |listing|);
    RejectedDistinct(listing, keep, |listing|);
    forall k | 0 <= k < |ids|
      ensures ids[k] in snapshots
    {
      assert ids[k] in ids;
    }
    AllRemoved(snapshots, ids, |ids|);
    PrunedKeys(snapshots, listing, cal, p);
  }

  lemma {:induction false} AllRemoved(snapshots: Snapshots, ids: seq<string>, n: nat)
    requires n <= |ids| && forall k :: 0 <= k < n ==> ids[k] in snapshots
    ensures RemovedIds(snapshots, ids, n) == ids[..n]
    decreases n
  {
    if n > 0 {
      AllRemoved(snapshots, ids, n - 1);
    }
  }

  /** What is left after a prune is what the policy keeps. */
  lemma PrunedKeys(snapshots: Snapshots, listing: seq<Snapshot>, cal: Calendar, p: Policy)
    requires IsListing(listing, snapshots)
    ensures var keep := KeptIds(listing, cal, p, |listing|);
            var ids := Rejected(listing, keep, |listing|);
            Remaining(snapshots, ids, |ids|).Keys == keep
  {
    hide Kept;
    var keep := KeptIds(listing, cal, p, |listing|);
    var ids := Rejected(listing, keep, |listing|);
    var left := Remaining(snapshots, ids, |ids|);
    forall id
      ensures id in left <==> id in keep
    {
      KeptIdsMember(listing, cal, p, |listing|, id);
      if id in keep {
        assert id !in ids;
        assert id in snapshots;
      } else if id in snapshots {
        assert id in ids;
      }
    }
  }

  /** What is left after a prune are snapshots that the policy kept. */
  lemma PrunedAreKept(snapshots: Snapshots, listing: seq<Snapshot>, listing': seq<Snapshot>, cal: Calendar, p: Policy)
    requires IsListing(listing, snapshots)
    requires var ids := Rejected(listing, KeptIds(listing, cal, p, |listing|), |listing|);
             IsListing(listing', Remaining(snapshots, ids, |ids|))
    ensures OnlyKept(listing', listing, cal, p)
  {
    hide Kept, KeptIds, Remaining;
    var ids := Rejected(listing, KeptIds(listing, cal, p, |listing|), |listing|);
    PrunedKeys(snapshots, listing, cal, p);
    forall i | 0 <= i < |listing'|
      ensures KeptAs(listing'[i], listing, cal, p)
    {
      var x := listing'[i];
      KeptIdsMember(listing, cal, p, |listing|, x.id);
      var j :| 0 <= j < |listing| && Kept(listing, cal, p, j) && listing[j].id == x.id;
      assert listing[j] == x;
    }
  }

  /** A second prune with the same policy, however the remaining snapshots are listed, rejects nothing. */
  lemma SecondPruneRemovesNothing(snapshots: Snapshots, listing: seq<Snapshot>, listing': seq<Snapshot>, cal: Calendar, p: Policy)
    requires IsListing(listing, snapshots)
    requires var ids := Rejected(listing, KeptIds(listing, cal, p, |listing|), |listing|);
             IsListing(listing', Remaining(snapshots, ids, |ids|))
    ensures Rejected(listing', KeptIds(listing', cal, p, |listing'|), |listing'|) == []
  {
    hide Kept, KeptIds, Remaining, OnlyKept;
    var keep := KeptIds(listing', cal, p, |listing'|);
    PrunedAreKept(snapshots, listing, listing', cal, p);
    forall i | 0 <= i < |listing'|
      ensures listing'[i].id in keep
    {
      KeptAgain(listing, listing', cal, p, i);
      KeptIdsMember(listing', cal, p, |listing'|, listing'[i].id);
    }
    NoneRejected(listing', keep, |listing'|);
  }

  lemma {:induction false} NoneRejected(listing: seq<Snapshot>, keep: set<string>, n: nat)
    requires n <= |listing| && forall i :: 0 <= i < n ==> listing[i].id in keep
    ensures Rejected(listing, keep, n) == []
  {
    if n > 0 {
      NoneRejected(listing, keep, n - 1);
    }
  }
}
