/**
 Backup, loss, scrub: what crates/cli/src/main.rs leaves is enough for crates/verify/src/scrub.rs.
 The premises of a repair (records, members in the index, true sizes, distinct group numbers) are
 those that a backup establishes; what remains is the codec's condition on the surviving rows.
 */
module LossRepair {
  import opened Wrappers
  import opened Bytes
  import opened Digest
  import opened PackFormat
  import opened ChunkStore
  import opened Repositories
  import opened Deletion
  import opened LinearAlgebra
  import opened ErasureCode
  import opened ContentChunker
  import opened Framing
  import opened ReedSolomonCodec
  import opened Recovery
  import opened ParityRepair
  import opened ParityGroups
  import opened GroupRepair
  import opened IndexSoundness
  import opened CrashRuns
  import opened TrueSizes
  import opened Sessions
  import opened BackupRestore
  import opened BackupParity
  import opened Scrub
  import opened TreeBuilder

  /** A backup and a loss after it: the disk before the backup and after it, and the packs that the loss left. */
  datatype Loss = Loss(oldPacks: Packs, oldIndex: Index, packs: Packs, index: Index, damaged: Packs)

  /**
   Chunk `h`, member `i` of its group, has been lost, but no more than the codec can make up for in any
   order.  The contents that the backup left under the name do not collide with the member; and if the
   chunk was there before the backup, its recorded size was true.
   */
  ghost predicate Lost(sha: Sha, l: Loss, groups: seq<ParityGroup>, d: nat, p: nat, h: Hash, chunks: seq<Vec>, i: nat, packs: Packs) {
    && h in l.index && !Intact(sha, l.damaged, l.index, h)
    && FindGroupByHash(groups, h).Some?
    && var g := FindGroupByHash(groups, h).value;
       && Robust(sha, l.damaged, l.index, groups, g, d)
       && Genuine(sha, packs, l.index, g, chunks, d, p, {})
       && |chunks| == d && i < |Members(g)| && Members(g)[i] == h
       && Sized(sha, l.oldPacks, l.oldIndex, h)
       && SameContents(sha, l.packs, l.index, h, MemberChunk(chunks, d, g.chunkSize, i))
  }

  /** What is read under the name and `chunk` do not collide. */
  predicate SameContents(sha: Sha, packs: Packs, index: Index, h: Hash, chunk: Bytes) {
    Intact(sha, packs, index, h) ==> SameUnlessCollision(sha, ReadStored(sha, packs, index, h).value, chunk)
  }

  /** A group of a finished backup is found by its number. */
  lemma {:induction false} FoundByNumber(groups: seq<ParityGroup>, first: nat, k: nat)
    requires forall i :: 0 <= i < |groups| ==> groups[i].groupId == first + i
    requires k < |groups|
    ensures FindGroup(groups, first + k) == Some(groups[k])
    decreases |groups|
  {
    if k > 0 {
      FoundByNumber(groups[1..], first + 1, k - 1);
    }
  }

  lemma InPlaceIsFound(index: Index, groups: seq<ParityGroup>, h: Hash)
    requires AllInPlace(index, groups) && FindGroupByHash(groups, h).Some?
    ensures var g := FindGroupByHash(groups, h).value; FindGroup(groups, g.groupId) == Some(g)
  {
    hide AllKnown, Members, HasMember;
    var g := FindGroupByHash(groups, h).value;
    var k :| 0 <= k < |groups| && groups[k] == g;
    hide FindGroupByHash, FindGroup;
    forall i | 0 <= i < |groups|
      ensures groups[i].groupId == 0 + i
    {
      assert InPlace(index, groups[i], i);
    }
    FoundByNumber(groups, 0, k);
  }

  /** The recorded size of a stored chunk is its length. */
  lemma TrueSize(sha: Sha, packs: Packs, index: Index, h: Hash, chunk: Bytes)
    requires IndexSound(sha, packs, index) && PositiveIds(packs) && h in index && Sized(sha, packs, index, h)
    requires SameContents(sha, packs, index, h, chunk) && HashOfChunk(sha, chunk) == h
    ensures index[h].size == |chunk|
  {
    hide ReadStored, HashOfChunk, Located;
    assert EntrySound(sha, packs, index, h);
    LocatedInPack(sha, packs, index[h].packId, index[h].packOffset, h);
    SoundIsIntact(sha, packs, index, h);
  }

  /** After a backup a lost chunk is repairable: only the packs have changed since. */
  lemma LostIsRepairable(sha: Sha, l: Loss, groups: seq<ParityGroup>, d: nat, p: nat, h: Hash, chunks: seq<Vec>, i: nat, packs: Packs)
    requires IndexSound(sha, l.packs, l.index) && PositiveIds(l.packs) && AllInPlace(l.index, groups)
    requires SizesCarry(sha, l.oldPacks, l.oldIndex, l.packs, l.index)
    requires Lost(sha, l, groups, d, p, h, chunks, i, packs)
    ensures Repairable(sha, l.damaged, l.index, groups, d, p, h, chunks, i, packs)
  {
    hide Intact, FindGroup, FindGroupByHash, Records, NoImpostor, IndexSound, AllInPlace, SameContents, MemberChunk, Members, Robust,
      Sized, PositiveIds, HashOfChunk;
    var g := FindGroupByHash(groups, h).value;
    InPlaceIsFound(l.index, groups, h);
    MemberCount(sha, g, chunks, d, p);
    MembersAreAll(g);
    MemberNamed(sha, g, chunks, d, p, i);
    TrueSize(sha, l.packs, l.index, h, MemberChunk(chunks, d, g.chunkSize, i));
  }

  /** So every lost chunk is readable after the scrub. */
  lemma LossIsUndone(sha: Sha, l: Loss, groups: seq<ParityGroup>, d: nat, p: nat, packs: Packs, index: Index,
                     h: Hash, chunks: seq<Vec>, i: nat)
    requires IndexSound(sha, l.packs, l.index) && PositiveIds(l.packs) && AllInPlace(l.index, groups)
    requires SizesCarry(sha, l.oldPacks, l.oldIndex, l.packs, l.index)
    requires Completed(sha, l.damaged, l.index, groups, d, p, packs, index)
    requires Lost(sha, l, groups, d, p, h, chunks, i, packs)
    ensures Intact(sha, packs, index, h)
  {
    LostIsRepairable(sha, l, groups, d, p, h, chunks, i, packs);
    hide Intact, FindGroupByHash, Robust, Repairable;
  }

  ghost predicate AllUndone(sha: Sha, l: Loss, groups: seq<ParityGroup>, d: nat, p: nat, packs: Packs, index: Index) {
    forall h: Hash, chunks: seq<Vec>, i: nat :: Lost(sha, l, groups, d, p, h, chunks, i, packs) ==> Intact(sha, packs, index, h)
  }

  /**
   A full backup on a sound disk; then any change to the pack files; then a scrub with the parity
   groups of that backup.  Every lost chunk of a robust group is back.
   */
  method BackupLossScrub(sha: Sha, disk: Disk, chunker: Chunker, pl: Pipeline, manager: ParityManager, nonces: nat -> Nonce,
                         source: Source, prev: Option<Snapshot>, id: string, timestamp: int, target: nat, damaged: Packs)
    returns (snapshot: Snapshot, groups: seq<ParityGroup>, bad: set<Hash>, ghost l: Loss)
    requires Sound(sha, DiskState(disk, Idle))
    requires chunker.Valid() && StoredFits(pl, chunker.Sizes()) && manager.Valid()
    requires PrevStored(prev, disk.snapshots) && id !in disk.snapshots
    modifies disk
    ensures disk.snapshots == old(disk.snapshots)[id := snapshot]
    ensures l.oldPacks == old(disk.packs) && l.oldIndex == SavedIndex(old(disk.index)) && l.damaged == damaged
    ensures IndexSound(sha, l.packs, l.index) && SizesCarry(sha, l.oldPacks, l.oldIndex, l.packs, l.index)
    ensures Covers(groups, NewHashes(prev, source, snapshot.root), manager.rs.dataShards) && AllInPlace(l.index, groups)
    ensures Progress(sha, damaged, l.index, disk.packs, SavedIndex(disk.index), bad)
    ensures AllUndone(sha, l, groups, manager.rs.dataShards, manager.rs.parityShards, disk.packs, SavedIndex(disk.index))
  {
    hide Sound, Represents, StoredFits, GroupsRecorded, AllInPlace, Covers, NewHashes, Chunker.Sizes, SafeSince, Progress, IsBad,
      Completed, Lost, Intact, Keeps, IndexSound, SizesCarry, PositiveIds;
    ghost var packs0, index0 := disk.packs, SavedIndex(disk.index);
    snapshot, groups := RunBackup(sha, disk, chunker, pl, manager, nonces, source, prev, id, timestamp, target);
    l := Loss(packs0, index0, disk.packs, SavedIndex(disk.index), damaged);
    SoundIndex(sha, DiskState(disk, Idle));
    GroupsFit(l.index, groups);
    disk.packs := damaged;
    var repaired: nat;
    bad, repaired := ScrubAndRepair(sha, disk, groups, manager, target);
    ghost var d, p := manager.rs.dataShards, manager.rs.parityShards;
    forall h: Hash, chunks: seq<Vec>, i: nat | Lost(sha, l, groups, d, p, h, chunks, i, disk.packs)
      ensures Intact(sha, disk.packs, SavedIndex(disk.index), h)
    {
      LossIsUndone(sha, l, groups, d, p, disk.packs, SavedIndex(disk.index), h, chunks, i);
    }
  }

  lemma SoundIndex(sha: Sha, s: State)
    requires Sound(sha, s)
    ensures IndexSound(sha, s.packs, SavedIndex(s.index)) && PositiveIds(s.packs)
  {
    hide IndexSound, RefsCover, SessionSound, PositiveIds;
  }

  lemma GroupsFit(index: Index, groups: seq<ParityGroup>)
    requires AllInPlace(index, groups)
    ensures forall i :: 0 <= i < |groups| ==> groups[i].chunkSize < MAX_STORED
  {
    hide AllKnown, Members;
    forall i | 0 <= i < |groups|
      ensures groups[i].chunkSize < MAX_STORED
    {
      assert InPlace(index, groups[i], i);
    }
  }
}
