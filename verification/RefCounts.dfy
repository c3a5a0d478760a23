/**
 Exact reference counts.  `CrashRuns` shows that counts always suffice; in runs without crashes and
 compactions they are exact, so a chunk stays in the index exactly as long as a snapshot uses it or
 it was stored as parity, which no deletion ever takes back.
 */
module RefCounts {
  import opened Wrappers
  import opened Bytes
  import opened Digest
  import opened PackFormat
  import opened ChunkStore
  import opened Repositories
  import opened Deletion
  import opened IndexSoundness
  import opened CrashRuns

  /** How often chunk `h` was stored as parity in the first `n` actions. */
  function ParityStores(sha: Sha, actions: seq<Action>, n: nat, h: Hash): nat
    requires n <= |actions|
    decreases n
  {
    if n == 0 then 0 else ParityStores(sha, actions, n - 1, h) + ParityStore(sha, actions[n - 1], h)
  }

  function ParityStore(sha: Sha, a: Action, h: Hash): nat {
    if a.StoreData? && !a.inTree && HashOfChunk(sha, a.data) == h then 1 else 0
  }

  /** No crash, no compaction, and a backup saves a snapshot of exactly what it stored and reused. */
  ghost predicate Quiet(s: State, a: Action) {
    && !a.Crash? && !OfCompaction(a)
    && (a.SaveSnapshot? && s.session.Backup? ==>
          forall h :: Uses(a.snapshot, h) == Count(s.session.used, h, |s.session.used|))
  }

  /** Chunk `h` has `n` references, and an entry exactly if it has any. */
  predicate Counted(index: Index, h: Hash, n: nat) {
    Refs(index, h) == n && (h in index <==> n > 0)
  }

  /** `extra` references come from parity, all others from snapshots or the session. */
  ghost predicate Exact(s: State, h: Hash, extra: nat) {
    match s.session
    case Idle => Counted(SavedIndex(s.index), h, Occurrences(s.snapshots, h) + extra)
    case Backup(store, used, _) => Counted(store.index, h, Occurrences(s.snapshots, h) + Count(used, h, |used|) + extra)
    case Deleting(_, listed, _, _) => Counted(SavedIndex(s.index), h, Occurrences(listed, h) + extra)
    case Repairing(index) =>
      && Counted(SavedIndex(s.index), h, Occurrences(s.snapshots, h) + extra)
      && Counted(index, h, Occurrences(s.snapshots, h) + extra)
    case _ => false
  }

  // ── Steps ────────────────────────────────────────────────────────────────

  lemma {:induction false} OpenBackupExact(sha: Sha, s: State, nextId: nat, target: nat, h: Hash, extra: nat)
    requires Enabled(sha, s, OpenBackup(nextId, target)) && Exact(s, h, extra)
    ensures Exact(Apply(sha, s, OpenBackup(nextId, target)), h, extra)
  {
    hide Occurrences, IsNextId;
  }

  lemma {:induction false} StoreExact(sha: Sha, s: State, data: Bytes, inTree: bool, h: Hash, extra: nat)
    requires Sound(sha, s) && Enabled(sha, s, StoreData(data, inTree)) && Exact(s, h, extra)
    ensures Exact(Apply(sha, s, StoreData(data, inTree)), h, extra + ParityStore(sha, StoreData(data, inTree), h))
  {
    hide Occurrences, StoreChunk, HashOfChunk, Inv, StoreSound, DiskSound, Covered, IndexSound, Count, Refs;
    var store := s.session.store;
    StoreRefs(sha, store, data, h);
    StoreKeepsInv(sha, store, data);
    CountOneMore(s.session.used, HashOfChunk(sha, data), h);
  }

  lemma {:induction false} ReuseExact(sha: Sha, s: State, x: Hash, h: Hash, extra: nat)
    requires Sound(sha, s) && Enabled(sha, s, Reuse(x)) && Exact(s, h, extra)
    ensures Exact(Apply(sha, s, Reuse(x)), h, extra)
  {
    hide Occurrences, Inv, StoreSound, DiskSound, IndexSound, Count;
    UsedIsIndexed(s.session.store.index, s.snapshots, s.session.used, x);
    hide Covered;
    CountOneMore(s.session.used, x, h);
  }

  lemma {:induction false} SetGroupExact(sha: Sha, s: State, x: Hash, group: nat, h: Hash, extra: nat)
    requires Enabled(sha, s, SetGroup(x, group)) && Exact(s, h, extra)
    ensures Exact(Apply(sha, s, SetGroup(x, group)), h, extra)
  {
    hide Occurrences, Count;
  }

  lemma {:induction false} FlushExact(sha: Sha, s: State, h: Hash, extra: nat)
    requires Sound(sha, s) && Enabled(sha, s, Flush) && Exact(s, h, extra)
    ensures Exact(Apply(sha, s, Flush), h, extra)
  {
    hide Occurrences, FlushPending, Inv, StoreSound, DiskSound, Covered, IndexSound, Count, Refs;
    FlushRefs(sha, s.session.store, h);
    FlushKeepsInv(sha, s.session.store);
  }

  lemma {:induction false} SaveIndexExact(sha: Sha, s: State, h: Hash, extra: nat)
    requires Enabled(sha, s, SaveIndex) && Exact(s, h, extra)
    ensures Exact(Apply(sha, s, SaveIndex), h, extra)
  {
    hide Occurrences, Count, Refs;
  }

  lemma {:induction false} SaveSnapshotExact(sha: Sha, s: State, snapshot: Snapshot, h: Hash, extra: nat)
    requires Sound(sha, s) && Enabled(sha, s, SaveSnapshot(snapshot)) && Quiet(s, SaveSnapshot(snapshot)) && Exact(s, h, extra)
    ensures Exact(Apply(sha, s, SaveSnapshot(snapshot)), h, extra)
  {
    hide Occurrences, Uses, Count, Inv, StoreSound, DiskSound, Covered, IndexSound, Refs;
    OccurrencesAdd(s.snapshots, snapshot.id, snapshot, h);
  }

  lemma {:induction false} OpenDeleteExact(sha: Sha, s: State, ids: seq<string>, h: Hash, extra: nat)
    requires Enabled(sha, s, OpenDelete(ids)) && Exact(s, h, extra)
    ensures Exact(Apply(sha, s, OpenDelete(ids)), h, extra)
  {
    hide Occurrences, DistinctIdList, Refs;
  }

  lemma {:induction false} DeleteNextExact(sha: Sha, s: State, h: Hash, extra: nat)
    requires Enabled(sha, s, DeleteNext) && Exact(s, h, extra)
    ensures Exact(Apply(sha, s, DeleteNext), h, extra)
  {
    hide Occurrences, DecrementAll, ChunksOf, Drop, Refs;
  }

  lemma {:induction false} SaveDeletionExact(sha: Sha, s: State, h: Hash, extra: nat)
    requires Sound(sha, s) && Enabled(sha, s, SaveDeletion) && Exact(s, h, extra)
    ensures Exact(Apply(sha, s, SaveDeletion), h, extra)
  {
    hide Occurrences, DecrementAll, DoomedChunks, Remaining, DiskSound, Count, DistinctIdList, RefsCover;
    var d := s.session;
    var doomed := DoomedChunks(d.listed, d.ids, |d.ids|);
    DoomedPlusRemaining(d.listed, d.ids, |d.ids|, h);
    DecrementAllExact(SavedIndex(s.index), doomed, |doomed|, h);
  }

  lemma {:induction false} WriteRepairedExact(sha: Sha, s: State, nextId: nat, x: Hash, data: Bytes, h: Hash, extra: nat)
    requires Enabled(sha, s, WriteRepaired(nextId, x, data)) && Exact(s, h, extra)
    ensures Exact(Apply(sha, s, WriteRepaired(nextId, x, data)), h, extra)
  {
    hide Enabled, Apply, Repointed, Exact;
    RepairedState(sha, s, nextId, x, data);
    RepointedExact(s, Apply(sha, s, WriteRepaired(nextId, x, data)), nextId, x, data, h, extra);
  }

  lemma {:induction false} RepointedExact(s: State, t: State, nextId: nat, x: Hash, data: Bytes, h: Hash, extra: nat)
    requires Exact(s, h, extra) && s.session.Repairing? && t.session == Repairing(Repointed(s.session.index, nextId, x, data))
    requires t.index == s.index && t.snapshots == s.snapshots
    ensures Exact(t, h, extra)
  {
    hide Occurrences, Repointed, Counted, Count;
    RepointedCounted(s.session.index, nextId, x, data, h, Occurrences(s.snapshots, h) + extra);
  }

  lemma {:induction false} RepairedState(sha: Sha, s: State, nextId: nat, x: Hash, data: Bytes)
    requires Enabled(sha, s, WriteRepaired(nextId, x, data))
    ensures var t := Apply(sha, s, WriteRepaired(nextId, x, data));
            && s.session.Repairing? && t.session == Repairing(Repointed(s.session.index, nextId, x, data))
            && t.index == s.index && t.snapshots == s.snapshots
  {
    hide PackFile, HashOfChunk, IsNextId, Repointed;
  }

  lemma {:induction false} RepointedCounted(index: Index, nextId: nat, x: Hash, data: Bytes, h: Hash, n: nat)
    requires Counted(index, h, n)
    ensures Counted(Repointed(index, nextId, x, data), h, n)
  {
  }

  lemma {:induction false} OtherRepairExact(sha: Sha, s: State, a: Action, h: Hash, extra: nat)
    requires a.OpenRepair? || a.SaveRepaired? || a.CloseRepair?
    requires Enabled(sha, s, a) && Exact(s, h, extra)
    ensures Exact(Apply(sha, s, a), h, extra)
  {
    hide Occurrences, Counted, Enabled, Apply;
    OtherRepairState(sha, s, a);
  }

  /** Opening and closing take the saved index over, saving writes the one in memory. */
  lemma {:induction false} OtherRepairState(sha: Sha, s: State, a: Action)
    requires (a.OpenRepair? || a.SaveRepaired? || a.CloseRepair?) && Enabled(sha, s, a)
    ensures var t := Apply(sha, s, a);
            t.packs == s.packs && t.snapshots == s.snapshots &&
            match a
            case OpenRepair => s.session.Idle? && t.index == s.index && t.session == Repairing(SavedIndex(s.index))
            case SaveRepaired => s.session.Repairing? && t.session == s.session && t.index == Some(s.session.index)
            case _ => s.session.Repairing? && t.session.Idle? && t.index == s.index
  {
  }

  lemma {:induction false} QuietStep(sha: Sha, s: State, a: Action, h: Hash, extra: nat)
    requires Sound(sha, s) && Enabled(sha, s, a) && Quiet(s, a) && Exact(s, h, extra)
    ensures Exact(Apply(sha, s, a), h, extra + ParityStore(sha, a, h))
  {
    hide Sound, Enabled, Apply, Exact, Quiet, HashOfChunk;
    assert !a.Crash? && !OfCompaction(a) by {
      NoCrash(s, a);
    }
    match a
    case OpenBackup(nextId, target) => OpenBackupExact(sha, s, nextId, target, h, extra);
    case StoreData(data, inTree) => StoreExact(sha, s, data, inTree, h, extra);
    case Reuse(x) => ReuseExact(sha, s, x, h, extra);
    case SetGroup(x, group) => SetGroupExact(sha, s, x, group, h, extra);
    case Flush => FlushExact(sha, s, h, extra);
    case SaveIndex => SaveIndexExact(sha, s, h, extra);
    case SaveSnapshot(snapshot) => SaveSnapshotExact(sha, s, snapshot, h, extra);
    case OpenDelete(ids) => OpenDeleteExact(sha, s, ids, h, extra);
    case DeleteNext => DeleteNextExact(sha, s, h, extra);
    case SaveDeletion => SaveDeletionExact(sha, s, h, extra);
    case WriteRepaired(nextId, x, data) => WriteRepairedExact(sha, s, nextId, x, data, h, extra);
    case _ => OtherRepairExact(sha, s, a, h, extra);
  }

  lemma {:induction false} NoCrash(s: State, a: Action)
    requires Quiet(s, a)
    ensures !a.Crash? && !OfCompaction(a)
  {
    hide Uses, Count;
  }

  // ── Runs ─────────────────────────────────────────────────────────────────

  ghost predicate QuietRun(states: seq<State>, actions: seq<Action>, n: nat)
    requires n <= |actions| <= |states|
  {
    forall i :: 0 <= i < n ==> Quiet(states[i], actions[i])
  }

  lemma {:induction false} InitExact(h: Hash)
    ensures Exact(Init(), h, 0)
  {
    NothingOccurs(h);
    hide Occurrences;
  }

  /** In every state of a quiet run: snapshots plus session plus parity. */
  lemma {:induction false} RefsAreExact(sha: Sha, states: seq<State>, actions: seq<Action>, i: nat, h: Hash)
    requires IsRun(sha, states, actions) && states[0] == Init() && i <= |actions| && QuietRun(states, actions, i)
    ensures Exact(states[i], h, ParityStores(sha, actions, i, h))
    decreases i
  {
    hide Sound, Enabled, Apply, Init, Exact, Quiet, ParityStore;
    if i == 0 {
      InitExact(h);
    } else {
      RefsAreExact(sha, states, actions, i - 1, h);
      RunsAreSound(sha, states, actions, i - 1);
      assert OneStep(sha, states[i - 1], actions[i - 1], states[i]);
      QuietStep(sha, states[i - 1], actions[i - 1], h, ParityStores(sha, actions, i - 1, h));
    }
  }

  /** Between sessions the index holds a chunk iff a stored snapshot uses it or it was stored as parity. */
  lemma {:induction false} IndexedIff(sha: Sha, states: seq<State>, actions: seq<Action>, i: nat, h: Hash)
    requires IsRun(sha, states, actions) && states[0] == Init() && i <= |actions| && QuietRun(states, actions, i)
    requires states[i].session.Idle?
    ensures h in SavedIndex(states[i].index) <==> Occurrences(states[i].snapshots, h) > 0 || ParityStores(sha, actions, i, h) > 0
  {
    hide IsRun, QuietRun, Init, Occurrences, ParityStores, Refs;
    RefsAreExact(sha, states, actions, i, h);
  }

  /** When every snapshot has been deleted, only parity chunks are left, with one reference for each time they were stored. */
  lemma {:induction false} OnlyParityStays(sha: Sha, states: seq<State>, actions: seq<Action>, i: nat, h: Hash)
    requires IsRun(sha, states, actions) && states[0] == Init() && i <= |actions| && QuietRun(states, actions, i)
    requires states[i].session.Idle? && states[i].snapshots == map[]
    ensures Refs(SavedIndex(states[i].index), h) == ParityStores(sha, actions, i, h)
    ensures h in SavedIndex(states[i].index) <==> ParityStores(sha, actions, i, h) > 0
  {
    hide IsRun, QuietRun, Init, Occurrences, ParityStores, Refs;
    RefsAreExact(sha, states, actions, i, h);
    NothingOccurs(h);
  }
}
