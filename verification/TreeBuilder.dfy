/**
 Building the snapshot tree of a full backup (crates/cli/src/main.rs), with its parity buffer,
 and the two commands around it: backup and restore.
 */
module TreeBuilder {
  import opened Wrappers
  import opened Bytes
  import opened Digest
  import opened PackFormat
  import opened ChunkStore
  import opened SnapshotTree
  import opened Repositories
  import opened Deletion
  import opened ContentChunker
  import opened Framing
  import opened ErasureCode
  import opened ReedSolomonCodec
  import opened ParityRepair
  import opened ParityGroups
  import opened CrashRuns
  import opened IndexSoundness
  import opened Sessions
  import opened TrueSizes
  import opened BackupRestore
  import opened BackupRecords
  import opened BackupParity

  /** Stored sizes are 32-bit numbers. */
  ghost predicate StoredFits(pl: Pipeline, c: Limits) {
    forall raw: Bytes, nonce: Nonce :: |raw| <= c.max ==> |ProcessChunk(pl, nonce, raw)| < MAX_STORED
  }

  predicate AllFit(chunks: seq<Bytes>) {
    forall k :: 0 <= k < |chunks| ==> |chunks[k]| < MAX_STORED
  }

  /** Every recorded group describes a codeword. */
  ghost predicate GroupsRecorded(sha: Sha, groups: seq<ParityGroup>, d: nat, p: nat) {
    forall i :: 0 <= i < |groups| ==> RecordsSome(sha, groups[i], d, p)
  }

  ghost predicate RecordsSome(sha: Sha, g: ParityGroup, d: nat, p: nat) {
    exists chunks: seq<Bytes> :: Records(sha, g, chunks, d, p)
  }

  // ── Steps on the repository ──────────────────────────────────────────────

  method StoreTracked(repo: Repository, data: Bytes, inTree: bool, ghost used: seq<Hash>, ghost since: Origin) returns (hash: Hash)
    requires InBackup(repo, used, since) && |data| < MAX_STORED
    modifies repo, repo.writer, repo.disk`packs, repo.disk`history
    ensures hash == HashOfChunk(repo.sha, data)
    ensures hash in repo.index && Grows(old(repo.index), repo.index)
    ensures InBackup(repo, if inTree then used + [hash] else used, since)
  {
    hide Inv, Sound, ChunkStore.StoreChunk, HashOfChunk, SafeSince, OneWrite, ImageSound, SizesKept, StoreSound;
    ghost var s, history := DiskState(repo.disk, Backup(repo.State(), used, Building)), repo.disk.history;
    StoreKeepsInv(repo.sha, repo.State(), data);
    BackupIsSound(repo.sha, s);
    StoreKeepsSizes(repo.sha, since.packs, since.index, repo.State(), data);
    StepKeepsSound(repo.sha, s, StoreData(data, inTree));
    SoundImage(repo.sha, Apply(repo.sha, s, StoreData(data, inTree)));
    hash := repo.StoreChunk(data);
    SafeWrite(repo.sha, history, repo.disk.history, repo.disk.Now(), since.writes);
  }

  /** One more reference to a chunk that the previous snapshot uses. */
  method ReuseTracked(repo: Repository, h: Hash, ghost used: seq<Hash>, ghost since: Origin)
    requires InBackup(repo, used, since) && Occurrences(repo.disk.snapshots, h) > 0
    modifies repo`index
    ensures InBackup(repo, used + [h], since) && Grows(old(repo.index), repo.index)
  {
    hide Inv, Sound, Occurrences, SafeSince, SizesKept;
    ghost var s := DiskState(repo.disk, Backup(repo.State(), used, Building));
    StepKeepsSound(repo.sha, s, CrashRuns.Reuse(h));
    SoundBackupInv(repo.sha, Apply(repo.sha, s, CrashRuns.Reuse(h)));
    SamePlacesKeep(repo.sha, since.packs, since.index, repo.State(), repo.State().(index := Increment(repo.index, h)));
    repo.index := Increment(repo.index, h);
  }

  method SetGroupTracked(repo: Repository, h: Hash, group: nat, ghost used: seq<Hash>, ghost since: Origin)
    requires InBackup(repo, used, since)
    modifies repo`index
    ensures InBackup(repo, used, since) && Grows(old(repo.index), repo.index)
    ensures repo.index == InGroup(old(repo.index), h, group)
  {
    hide Inv, Sound, SafeSince, SizesKept;
    ghost var s := DiskState(repo.disk, Backup(repo.State(), used, Building));
    StepKeepsSound(repo.sha, s, SetGroup(h, group));
    SoundBackupInv(repo.sha, Apply(repo.sha, s, SetGroup(h, group)));
    SamePlacesKeep(repo.sha, since.packs, since.index, repo.State(), repo.State().(index := InGroup(repo.index, h, group)));
    repo.index := InGroup(repo.index, h, group);
  }

  lemma SoundBackupInv(sha: Sha, s: State)
    requires Sound(sha, s) && s.session.Backup?
    ensures Inv(sha, s.session.store)
  {
    hide Inv, DiskSound, Covered;
  }

  /** The parity buffer and the names of its chunks. */
  predicate BufferSound(sha: Sha, chunks: seq<Bytes>, hashes: seq<Hash>) {
    hashes == HashesOf(sha, chunks) && AllFit(chunks)
  }

  lemma BufferAppend(sha: Sha, chunks: seq<Bytes>, hashes: seq<Hash>, data: Bytes)
    requires BufferSound(sha, chunks, hashes) && |data| < MAX_STORED
    ensures BufferSound(sha, chunks + [data], hashes + [HashOfChunk(sha, data)])
  {
    hide HashOfChunk;
  }

  lemma BufferEmpty(sha: Sha)
    ensures BufferSound(sha, [], [])
  {
    hide HashOfChunk;
  }

  lemma ParityFits(chunks: seq<Bytes>, d: nat, p: nat, parity: seq<Bytes>)
    requires |chunks| == d > 0 && AllFit(chunks)
    requires ParityOf(Padded(chunks, MaxLength(chunks)), d, p, MaxLength(chunks), parity)
    ensures AllFit(parity)
  {
    hide CodewordShard, Padded;
  }

  lemma NoneStored(sha: Sha, pl: Pipeline, chunks: seq<Bytes>)
    ensures AllStoredAs(sha, pl, chunks[..0], [])
  {
  }

  lemma OneMoreStored(sha: Sha, pl: Pipeline, chunks: seq<Bytes>, hashes: seq<Hash>, k: nat, h: Hash)
    requires k < |chunks| && AllStoredAs(sha, pl, chunks[..k], hashes) && StoredAs(sha, pl, chunks[k], h)
    ensures AllStoredAs(sha, pl, chunks[..k + 1], hashes + [h])
  {
    hide StoredAs;
  }

  lemma LongestFits(chunks: seq<Bytes>)
    requires AllFit(chunks)
    ensures MaxLength(chunks) < MAX_STORED
  {
  }

  lemma GroupAdded(sha: Sha, groups: seq<ParityGroup>, g: ParityGroup, chunks: seq<Bytes>, d: nat, p: nat)
    requires GroupsRecorded(sha, groups, d, p) && Records(sha, g, chunks, d, p)
    ensures GroupsRecorded(sha, groups + [g], d, p)
  {
    hide Records;
  }

  /** The parity state of a backup: a named buffer, recorded groups, and between them every stored chunk. */
  ghost predicate Recorded(sha: Sha, index: Index, groups: seq<ParityGroup>, counter: nat, chunks: seq<Bytes>,
                           hashes: seq<Hash>, stored: seq<Hash>, d: nat, p: nat) {
    && BufferSound(sha, chunks, hashes)
    && GroupsRecorded(sha, groups, d, p)
    && Tracked(index, groups, counter, hashes, stored)
  }

  lemma RecordedNothing(sha: Sha, index: Index, d: nat, p: nat)
    ensures Recorded(sha, index, [], 0, [], [], [], d, p)
  {
    BufferEmpty(sha);
    NothingTracked(index);
  }

  lemma RecordedGrows(sha: Sha, before: Index, after: Index, groups: seq<ParityGroup>, counter: nat, chunks: seq<Bytes>,
                      hashes: seq<Hash>, stored: seq<Hash>, d: nat, p: nat)
    requires Recorded(sha, before, groups, counter, chunks, hashes, stored, d, p) && Grows(before, after)
    ensures Recorded(sha, after, groups, counter, chunks, hashes, stored, d, p)
  {
    hide BufferSound, GroupsRecorded, Tracked, Grows;
    TrackedGrows(before, after, groups, counter, hashes, stored);
  }

  lemma RecordedChunk(sha: Sha, before: Index, after: Index, groups: seq<ParityGroup>, counter: nat, chunks: seq<Bytes>,
                      hashes: seq<Hash>, stored: seq<Hash>, d: nat, p: nat, data: Bytes)
    requires Recorded(sha, before, groups, counter, chunks, hashes, stored, d, p) && Grows(before, after)
    requires |data| < MAX_STORED && HashOfChunk(sha, data) in after
    ensures var h := HashOfChunk(sha, data);
            Recorded(sha, after, groups, counter, chunks + [data], hashes + [h], stored + [h], d, p)
  {
    hide BufferSound, GroupsRecorded, Tracked, Grows, HashOfChunk;
    TrackedGrows(before, after, groups, counter, hashes, stored);
    TrackedChunk(after, groups, counter, hashes, stored, HashOfChunk(sha, data));
    BufferAppend(sha, chunks, hashes, data);
  }

  /** The full buffer has become group `g`. */
  lemma RecordedGroup(sha: Sha, before: Index, after: Index, groups: seq<ParityGroup>, counter: nat, chunks: seq<Bytes>,
                      hashes: seq<Hash>, stored: seq<Hash>, d: nat, p: nat, g: ParityGroup)
    requires Recorded(sha, before, groups, counter, chunks, hashes, stored, d, p)
    requires IsNewGroup(sha, before, after, g, counter, chunks, d, p)
    ensures Recorded(sha, after, groups + [g], counter + 1, [], [], stored, d, p)
  {
    hide GroupsRecorded, Tracked, Grows, HashesOf, Records, AllFit, AllKnown;
    TrackedGroup(before, after, groups, counter, hashes, stored, g);
    GroupAdded(sha, groups, g, chunks, d, p);
    BufferEmpty(sha);
  }

  /** `g` records `chunks`, and its parity is in the index. */
  ghost predicate IsNewGroup(sha: Sha, before: Index, after: Index, g: ParityGroup, id: nat, chunks: seq<Bytes>, d: nat, p: nat) {
    && Records(sha, g, chunks, d, p) && g.dataChunkHashes == HashesOf(sha, chunks)
    && g.groupId == id && g.chunkSize < MAX_STORED
    && Grows(before, after) && AllKnown(after, g.parityChunkHashes)
  }

  lemma NewGroupIs(sha: Sha, before: Index, after: Index, g: ParityGroup, id: nat, chunks: seq<Bytes>, d: nat, p: nat)
    requires IsNewGroup(sha, before, after, g, id, chunks, d, p)
    ensures g.groupId == id && g.dataChunkHashes == HashesOf(sha, chunks)
  {
    hide Records, HashesOf, Grows, AllKnown;
  }

  lemma NewGroupGrows(sha: Sha, a: Index, b: Index, c: Index, g: ParityGroup, id: nat, chunks: seq<Bytes>, d: nat, p: nat)
    requires IsNewGroup(sha, a, b, g, id, chunks, d, p) && Grows(b, c)
    ensures IsNewGroup(sha, a, c, g, id, chunks, d, p)
  {
    hide Records, HashesOf, AllKnown, Grows;
    GrowsTwice(a, b, c);
    KnownGrows(b, c, g.parityChunkHashes);
  }

  lemma RecordedBuffer(sha: Sha, index: Index, groups: seq<ParityGroup>, counter: nat, chunks: seq<Bytes>,
                       hashes: seq<Hash>, stored: seq<Hash>, d: nat, p: nat)
    requires Recorded(sha, index, groups, counter, chunks, hashes, stored, d, p)
    ensures AllFit(chunks) && hashes == HashesOf(sha, chunks) && GroupsRecorded(sha, groups, d, p)
    ensures Tracked(index, groups, counter, hashes, stored)
  {
    hide GroupsRecorded, Tracked, HashOfChunk;
  }

  // ── The build loop ───────────────────────────────────────────────────────

  class Builder {
    const repo: Repository
    const chunker: Chunker
    const pl: Pipeline
    const manager: ParityManager
    /** The random nonces, in the order in which they are drawn. */
    const nonces: nat -> Nonce
    /** The number of disk writes before this backup. */
    ghost const since: Origin
    var drawn: nat
    var parityBuffer: seq<Bytes>
    var parityHashBuffer: seq<Hash>
    var parityGroups: seq<ParityGroup>
    var groupIdCounter: nat
    /** Every file chunk occurrence of the tree so far. */
    ghost var used: seq<Hash>
    /** Those that were stored, and not reused from the previous snapshot. */
    ghost var stored: seq<Hash>

    /** What no step changes. */
    ghost predicate Fixed()
      reads manager.rs.encodingMatrix.data
    {
      && chunker.Valid() && StoredFits(pl, chunker.Sizes())
      && manager.Valid()
    }

    ghost predicate Steady()
      reads this, repo, repo.writer, repo.disk, manager.rs.encodingMatrix.data
    {
      && InBackup(repo, used, since)
      && Fixed()
      && Recorded(repo.sha, repo.index, parityGroups, groupIdCounter, parityBuffer, parityHashBuffer, stored,
                  manager.rs.dataShards, manager.rs.parityShards)
    }

    ghost predicate Valid()
      reads this, repo, repo.writer, repo.disk, manager.rs.encodingMatrix.data
    {
      Steady() && |parityBuffer| < manager.rs.dataShards
    }

    constructor (repo: Repository, chunker: Chunker, pl: Pipeline, manager: ParityManager, nonces: nat -> Nonce,
                 ghost since: Origin)
      requires InBackup(repo, [], since) && chunker.Valid() && StoredFits(pl, chunker.Sizes()) && manager.Valid()
      ensures Valid() && used == [] && stored == [] && parityGroups == []
      ensures this.repo == repo && this.chunker == chunker && this.pl == pl && this.manager == manager && this.since == since
    {
      hide InBackup, StoredFits, Recorded;
      RecordedNothing(repo.sha, repo.index, manager.rs.dataShards, manager.rs.parityShards);
      this.repo, this.chunker, this.pl, this.manager, this.nonces, this.since := repo, chunker, pl, manager, nonces, since;
      drawn, groupIdCounter, used, stored := 0, 0, [], [];
      parityBuffer, parityHashBuffer, parityGroups := [], [], [];
    }

    lemma SteadyFacts()
      requires Steady()
      ensures manager.rs.dataShards > 0 && AllFit(parityBuffer) && parityHashBuffer == HashesOf(repo.sha, parityBuffer)
    {
      hide InBackup, StoredFits, Recorded;
      RecordedBuffer(repo.sha, repo.index, parityGroups, groupIdCounter, parityBuffer, parityHashBuffer, stored,
                     manager.rs.dataShards, manager.rs.parityShards);
    }

    /** Compute, store and record the parity of a full buffer, and empty it. */
    method FlushParityGroup()
      requires Steady() && |parityBuffer| == manager.rs.dataShards
      modifies this, repo, repo.writer, repo.disk`packs, repo.disk`history
      ensures Valid() && used == old(used) && stored == old(stored) && parityBuffer == []
      ensures |parityGroups| == |old(parityGroups)| + 1 && parityGroups[..|old(parityGroups)|] == old(parityGroups)
      ensures IsNewGroup(repo.sha, old(repo.index), repo.index, parityGroups[|old(parityGroups)|], |old(parityGroups)|,
                         old(parityBuffer), manager.rs.dataShards, manager.rs.parityShards)
      ensures Numbered(repo.index, Members(parityGroups[|old(parityGroups)|]), |old(parityGroups)|)
    {
      hide InBackup, AllFit, Fixed, Recorded, IsNewGroup, HashesOf, Numbered;
      SteadyFacts();
      ghost var before, chunks, hashes := repo.index, parityBuffer, parityHashBuffer;
      CountsGroups();
      var dataChunks, dataHashes := parityBuffer, parityHashBuffer;
      parityBuffer, parityHashBuffer := [], [];
      var group := StoreGroup(dataChunks, dataHashes);
      NewGroupIs(repo.sha, before, repo.index, group, groupIdCounter, dataChunks, manager.rs.dataShards,
                 manager.rs.parityShards);
      RecordedGroup(repo.sha, before, repo.index, parityGroups, groupIdCounter, chunks, hashes, stored,
                    manager.rs.dataShards, manager.rs.parityShards, group);
      Push(group);
    }

    /** Append to the groups. */
    method Push(group: ParityGroup)
      requires InBackup(repo, used, since) && Fixed()
      requires Recorded(repo.sha, repo.index, parityGroups + [group], groupIdCounter + 1, parityBuffer, parityHashBuffer,
                        stored, manager.rs.dataShards, manager.rs.parityShards)
      modifies `parityGroups, `groupIdCounter
      ensures Steady() && parityGroups == old(parityGroups) + [group]
    {
      hide InBackup, Fixed, Recorded;
      parityGroups := parityGroups + [group];
      groupIdCounter := groupIdCounter + 1;
    }

    lemma CountsGroups()
      requires Steady()
      ensures groupIdCounter == |parityGroups|
    {
      hide InBackup, StoredFits, BufferSound, GroupsRecorded, AllInPlace, AllKnown, GroupHashes;
    }

    /** Make the group and note its number at each member. */
    method StoreGroup(dataChunks: seq<Bytes>, dataHashes: seq<Hash>) returns (group: ParityGroup)
      requires InBackup(repo, used, since) && Fixed() && AllFit(dataChunks) && |dataChunks| == manager.rs.dataShards
      requires dataHashes == HashesOf(repo.sha, dataChunks)
      modifies repo, repo.writer, repo.disk`packs, repo.disk`history
      ensures InBackup(repo, used, since)
      ensures IsNewGroup(repo.sha, old(repo.index), repo.index, group, groupIdCounter, dataChunks, manager.rs.dataShards,
                         manager.rs.parityShards)
      ensures Numbered(repo.index, Members(group), group.groupId)
    {
      hide InBackup, AllFit, Fixed, Grows, IsNewGroup, HashesOf, Assigned, Numbered;
      group := MakeGroup(dataChunks);
      ghost var made := repo.index;
      AssignGroup(dataHashes);
      ghost var half := repo.index;
      AssignGroup(group.parityChunkHashes);
      NewGroupIs(repo.sha, old(repo.index), made, group, groupIdCounter, dataChunks, manager.rs.dataShards,
                 manager.rs.parityShards);
      BothAssigned(made, group);
      GrowsTwice(made, half, repo.index);
      NewGroupGrows(repo.sha, old(repo.index), made, repo.index, group, groupIdCounter, dataChunks, manager.rs.dataShards,
                    manager.rs.parityShards);
    }

    method MakeGroup(dataChunks: seq<Bytes>) returns (group: ParityGroup)
      requires InBackup(repo, used, since) && Fixed() && AllFit(dataChunks) && |dataChunks| == manager.rs.dataShards
      modifies repo, repo.writer, repo.disk`packs, repo.disk`history
      ensures InBackup(repo, used, since)
      ensures IsNewGroup(repo.sha, old(repo.index), repo.index, group, groupIdCounter, dataChunks, manager.rs.dataShards,
                         manager.rs.parityShards)
    {
      hide InBackup, HashOfChunk, HashesOf, Records, AllFit, ParityOf, Padded, MaxLength, Grows, AllKnown;
      var computed := manager.ComputeParity(dataChunks);
      var parityChunks := computed.value;
      ParityFits(dataChunks, manager.rs.dataShards, manager.rs.parityShards, parityChunks);
      LongestFits(dataChunks);
      var parityHashes := StoreParity(parityChunks);
      group := CreateParityGroup(repo.sha, groupIdCounter, dataChunks, parityChunks, MaxLength(dataChunks));
      CreatedRecords(repo.sha, group, dataChunks, parityChunks, manager.rs.dataShards, manager.rs.parityShards);
    }

    method StoreParity(parityChunks: seq<Bytes>) returns (hashes: seq<Hash>)
      requires InBackup(repo, used, since) && AllFit(parityChunks)
      modifies repo, repo.writer, repo.disk`packs, repo.disk`history
      ensures InBackup(repo, used, since)
      ensures hashes == HashesOf(repo.sha, parityChunks)
      ensures Grows(old(repo.index), repo.index) && AllKnown(repo.index, hashes)
    {
      hide InBackup, HashOfChunk;
      hashes := [];
      for j := 0 to |parityChunks|
        invariant InBackup(repo, used, since)
        invariant hashes == HashesOf(repo.sha, parityChunks)[..j]
        invariant Grows(old(repo.index), repo.index) && AllKnown(repo.index, hashes)
      {
        ghost var before := repo.index;
        var hash := StoreTracked(repo, parityChunks[j], false, used, since);
        KnownGrows(before, repo.index, hashes);
        hashes := hashes + [hash];
      }
    }

    method AssignGroup(hashes: seq<Hash>)
      requires InBackup(repo, used, since)
      modifies repo`index
      ensures InBackup(repo, used, since) && Grows(old(repo.index), repo.index)
      ensures repo.index == Assigned(old(repo.index), hashes, groupIdCounter, |hashes|)
    {
      hide InBackup, InGroup;
      for j := 0 to |hashes|
        invariant InBackup(repo, used, since) && Grows(old(repo.index), repo.index)
        invariant repo.index == Assigned(old(repo.index), hashes, groupIdCounter, j)
      {
        SetGroupTracked(repo, hashes[j], groupIdCounter, used, since);
      }
    }

    /** Compress, encrypt and store one chunk of a file. */
    method StoreProcessed(raw: Bytes) returns (data: Bytes, hash: Hash)
      requires InBackup(repo, used, since) && Fixed() && |raw| <= chunker.maxSize
      modifies this`drawn, this`used, repo, repo.writer, repo.disk`packs, repo.disk`history
      ensures InBackup(repo, used, since) && used == old(used) + [hash]
      ensures |data| < MAX_STORED && hash == HashOfChunk(repo.sha, data)
      ensures hash in repo.index && Grows(old(repo.index), repo.index)
      ensures StoredAs(repo.sha, pl, raw, hash)
      ensures data == ProcessChunk(pl, nonces(old(drawn)), raw) && drawn == old(drawn) + 1
    {
      hide InBackup, HashOfChunk, ProcessChunk, Grows;
      var nonce := nonces(drawn);
      drawn := drawn + 1;
      data := ProcessChunk(pl, nonce, raw);
      hash := StoreTracked(repo, data, true, used, since);
      used := used + [hash];
      assert Names(repo.sha, pl, raw, nonce, hash);
    }

    /** A stored chunk also goes into the parity buffer. */
    method BufferChunk(raw: Bytes) returns (hash: Hash)
      requires Valid() && |raw| <= chunker.maxSize
      modifies this, repo, repo.writer, repo.disk`packs, repo.disk`history
      ensures Steady() && |parityBuffer| == |old(parityBuffer)| + 1
      ensures used == old(used) + [hash] && stored == old(stored) + [hash]
      ensures StoredAs(repo.sha, pl, raw, hash)
    {
      hide InBackup, HashOfChunk, StoredAs, Fixed, Recorded, Grows;
      ghost var before := repo.index;
      var data: Bytes;
      data, hash := StoreProcessed(raw);
      RecordedChunk(repo.sha, before, repo.index, parityGroups, groupIdCounter, parityBuffer, parityHashBuffer, stored,
                    manager.rs.dataShards, manager.rs.parityShards, data);
      Keep(data, hash);
    }

    /** Append to the buffers. */
    method Keep(data: Bytes, hash: Hash)
      requires InBackup(repo, used, since) && Fixed()
      requires Recorded(repo.sha, repo.index, parityGroups, groupIdCounter, parityBuffer + [data], parityHashBuffer + [hash],
                        stored + [hash], manager.rs.dataShards, manager.rs.parityShards)
      modifies `parityBuffer, `parityHashBuffer, `stored
      ensures Steady() && parityBuffer == old(parityBuffer) + [data] && stored == old(stored) + [hash]
    {
      hide InBackup, Fixed, Recorded;
      parityBuffer := parityBuffer + [data];
      parityHashBuffer := parityHashBuffer + [hash];
      stored := stored + [hash];
    }

    /** One round of the chunk loop: a full buffer becomes a group. */
    method AddChunk(raw: Bytes) returns (hash: Hash)
      requires Valid() && |raw| <= chunker.maxSize
      modifies this, repo, repo.writer, repo.disk`packs, repo.disk`history
      ensures Valid() && used == old(used) + [hash] && stored == old(stored) + [hash]
      ensures StoredAs(repo.sha, pl, raw, hash)
    {
      hide StoredAs, Steady, IsNewGroup;
      hash := BufferChunk(raw);
      if |parityBuffer| == manager.rs.dataShards {
        HasData();
        FlushParityGroup();
      }
    }

    lemma HasData()
      requires Steady()
      ensures manager.rs.dataShards > 0
    {
      hide AllFit;
      SteadyFacts();
    }

    lemma UnderWay()
      requires Valid()
      ensures InBackup(repo, used, since)
    {
      hide InBackup, Fixed, Recorded;
    }

    /** What the builder leaves when the index grows no more than by a flush. */
    lemma Leaves(index: Index)
      requires Valid() && Grows(repo.index, index)
      ensures GroupsRecorded(repo.sha, parityGroups, manager.rs.dataShards, manager.rs.parityShards)
      ensures AllInPlace(index, parityGroups) && Covers(parityGroups, stored, manager.rs.dataShards)
    {
      hide InBackup, Fixed, Recorded, Grows, GroupsRecorded, Tracked, AllInPlace, Covers, AllFit;
      RecordedBuffer(repo.sha, repo.index, parityGroups, groupIdCounter, parityBuffer, parityHashBuffer, stored,
                     manager.rs.dataShards, manager.rs.parityShards);
      TrackedGrows(repo.index, index, parityGroups, groupIdCounter, parityHashBuffer, stored);
      TrackedCovers(index, parityGroups, groupIdCounter, parityHashBuffer, stored, manager.rs.dataShards);
    }

    method ReuseOne(h: Hash)
      requires Valid() && Occurrences(repo.disk.snapshots, h) > 0
      modifies this`used, repo`index
      ensures Valid() && used == old(used) + [h]
    {
      hide InBackup, Fixed, Recorded, Occurrences, Grows;
      ghost var before := repo.index;
      ReuseTracked(repo, h, used, since);
      RecordedGrows(repo.sha, before, repo.index, parityGroups, groupIdCounter, parityBuffer, parityHashBuffer, stored,
                    manager.rs.dataShards, manager.rs.parityShards);
      used := used + [h];
    }

    /** One more reference to each chunk of an unchanged file. */
    method ReuseAll(hashes: seq<Hash>)
      requires Valid()
      requires forall k :: 0 <= k < |hashes| ==> Occurrences(repo.disk.snapshots, hashes[k]) > 0
      modifies this`used, repo`index
      ensures Valid() && used == old(used) + hashes
    {
      hide Steady, Occurrences;
      for k := 0 to |hashes|
        invariant Valid() && used == old(used) + hashes[..k]
      {
        ReuseOne(hashes[k]);
      }
    }

    /** The chunk loop of a file. */
    method StoreChunks(chunks: seq<Bytes>) returns (chunkHashes: seq<Hash>)
      requires Valid() && forall k :: 0 <= k < |chunks| ==> |chunks[k]| <= chunker.maxSize
      modifies this, repo, repo.writer, repo.disk`packs, repo.disk`history
      ensures Valid() && used == old(used) + chunkHashes && stored == old(stored) + chunkHashes
      ensures AllStoredAs(repo.sha, pl, chunks, chunkHashes)
    {
      hide Valid, AllStoredAs;
      ghost var before, kept := used, stored;
      chunkHashes := [];
      NoneStored(repo.sha, pl, chunks);
      for k := 0 to |chunks|
        invariant Valid() && used == before + chunkHashes && stored == kept + chunkHashes
        invariant AllStoredAs(repo.sha, pl, chunks[..k], chunkHashes)
      {
        var hash := AddChunk(chunks[k]);
        OneMoreStored(repo.sha, pl, chunks, chunkHashes, k, hash);
        HashesAssoc(before, chunkHashes, [hash]);
        HashesAssoc(kept, chunkHashes, [hash]);
        chunkHashes := chunkHashes + [hash];
      }
      assert chunks[..|chunks|] == chunks;
    }

    method BuildFile(name: string, modified: int, mode: nat, data: Bytes, prev: Option<Snapshot>) returns (node: Node)
      requires Valid() && PrevStored(prev, repo.disk.snapshots)
      modifies this, repo, repo.writer, repo.disk`packs, repo.disk`history
      ensures Valid() && used == old(used) + ChunkHashes(node)
      ensures stored == old(stored) + NewHashes(prev, SourceFile(name, modified, mode, data), node)
      ensures Represents(repo.sha, pl, chunker.Sizes(), prev, SourceFile(name, modified, mode, data), node)
    {
      hide Steady, AllStoredAs, Occurrences, Find, FileHash, Chunks, Chunker.Sizes;
      var chunkHashes: seq<Hash>;
      if IsUnchanged(prev, name, modified, data) {
        chunkHashes := Previous(prev, name).value.chunkHashes;
        PreviousIsUsed(prev, name, repo.disk.snapshots);
        ReuseAll(chunkHashes);
      } else {
        var chunks := Chop(data);
        chunkHashes := StoreChunks(chunks);
      }
      var versions := VersionsOf(repo.sha, prev, name, modified, data);
      node := File(name, FileInfo(|data|, modified, mode, chunkHashes, FileHash(repo.sha, chunkHashes), versions));
    }

    method Chop(data: Bytes) returns (chunks: seq<Bytes>)
      requires Valid()
      ensures chunks == Chunks(chunker.Sizes(), data)
      ensures forall k :: 0 <= k < |chunks| ==> |chunks[k]| <= chunker.maxSize
    {
      hide InBackup, StoredFits, Recorded, Chunks;
      chunks := chunker.ChunkData(data);
      forall k | 0 <= k < |chunks|
        ensures |chunks[k]| <= chunker.maxSize
      {
        ChunkBounds(chunker.Sizes(), data, k);
      }
    }

    method BuildTree(source: Source, prev: Option<Snapshot>) returns (node: Node)
      requires Valid() && PrevStored(prev, repo.disk.snapshots)
      modifies this, repo, repo.writer, repo.disk`packs, repo.disk`history
      ensures Valid() && used == old(used) + ChunkHashes(node) && stored == old(stored) + NewHashes(prev, source, node)
      ensures Represents(repo.sha, pl, chunker.Sizes(), prev, source, node)
      decreases source
    {
      hide Steady, Chunker.Sizes;
      match source
      case SourceFile(name, modified, mode, data) =>
        node := BuildFile(name, modified, mode, data, prev);
      case SourceDirectory(name, modified, mode, children) =>
        var nodes := BuildAll(children, prev);
        node := Directory(name, modified, mode, nodes);
      case SourceLink(name, target) =>
        node := Symlink(name, target);
    }

    lemma ValidChunker()
      requires Valid()
      ensures chunker.Valid()
    {
      hide InBackup, Recorded, StoredFits;
    }

    method BuildAll(sources: seq<Source>, prev: Option<Snapshot>) returns (nodes: seq<Node>)
      requires Valid() && PrevStored(prev, repo.disk.snapshots)
      modifies this, repo, repo.writer, repo.disk`packs, repo.disk`history
      ensures Valid() && used == old(used) + ChunkHashesIn(nodes) && stored == old(stored) + NewHashesIn(prev, sources, nodes)
      ensures RepresentsAll(repo.sha, pl, chunker.Sizes(), prev, sources, nodes)
      decreases sources, 1
    {
      hide Steady, Chunker.Sizes, Represents, RepresentsAll, ChunkHashes, ChunkHashesIn, PrevStored;
      ValidChunker();
      if |sources| == 0 {
        NoNodes(repo.sha, pl, chunker.Sizes(), prev, sources);
        nodes := [];
      } else {
        nodes := BuildSome(sources, prev);
      }
    }

    method BuildSome(sources: seq<Source>, prev: Option<Snapshot>) returns (nodes: seq<Node>)
      requires Valid() && PrevStored(prev, repo.disk.snapshots) && |sources| > 0
      modifies this, repo, repo.writer, repo.disk`packs, repo.disk`history
      ensures Valid() && used == old(used) + ChunkHashesIn(nodes) && stored == old(stored) + NewHashesIn(prev, sources, nodes)
      ensures RepresentsAll(repo.sha, pl, chunker.Sizes(), prev, sources, nodes)
      decreases sources, 0
    {
      hide Steady, Chunker.Sizes, Represents, RepresentsAll, ChunkHashes, ChunkHashesIn, PrevStored, NewHashes, NewHashesIn;
      ValidChunker();
      ghost var before, kept := used, stored;
      var first := BuildTree(sources[0], prev);
      var rest := BuildAll(sources[1..], prev);
      nodes := [first] + rest;
      NodeAdded(repo.sha, pl, chunker.Sizes(), prev, sources, first, rest);
      HashesAssoc(before, ChunkHashes(first), ChunkHashesIn(rest));
      NewHashesAdded(prev, sources, first, rest);
      HashesAssoc(kept, NewHashes(prev, sources[0], first), NewHashesIn(prev, sources[1..], rest));
    }
  }

  lemma HashesAssoc(a: seq<Hash>, b: seq<Hash>, c: seq<Hash>)
    ensures a + b + c == a + (b + c)
  {
  }

  lemma NoNodes(sha: Sha, pl: Pipeline, c: Limits, prev: Option<Snapshot>, sources: seq<Source>)
    requires ValidLimits(c) && |sources| == 0
    ensures RepresentsAll(sha, pl, c, prev, sources, []) && ChunkHashesIn([]) == []
  {
  }

  lemma NodeAdded(sha: Sha, pl: Pipeline, c: Limits, prev: Option<Snapshot>, sources: seq<Source>, first: Node, rest: seq<Node>)
    requires ValidLimits(c) && |sources| > 0
    requires Represents(sha, pl, c, prev, sources[0], first) && RepresentsAll(sha, pl, c, prev, sources[1..], rest)
    ensures RepresentsAll(sha, pl, c, prev, sources, [first] + rest)
    ensures ChunkHashesIn([first] + rest) == ChunkHashes(first) + ChunkHashesIn(rest)
  {
    hide Represents, ChunkHashes;
    assert ([first] + rest)[1..] == rest;
  }

  /** The previous snapshot, if one is given, is stored. */
  predicate PrevStored(prev: Option<Snapshot>, snapshots: Snapshots) {
    prev.Some? ==> prev.value.id in snapshots && snapshots[prev.value.id] == prev.value
  }

  lemma PreviousIsUsed(prev: Option<Snapshot>, name: string, snapshots: Snapshots)
    requires PrevStored(prev, snapshots) && Previous(prev, name).Some?
    ensures var hashes := Previous(prev, name).value.chunkHashes;
            forall k :: 0 <= k < |hashes| ==> Occurrences(snapshots, hashes[k]) > 0
  {
    hide Occurrences;
    var hashes := Previous(prev, name).value.chunkHashes;
    assert ChunksOf(prev.value) == hashes;
    forall k | 0 <= k < |hashes|
      ensures Occurrences(snapshots, hashes[k]) > 0
    {
      IsCounted(hashes, k, |hashes|);
      UsedSomewhere(snapshots, prev.value.id, hashes[k]);
    }
  }

  // ── The commands ─────────────────────────────────────────────────────────

  lemma {:induction false} OpenedInBackup(sha: Sha, s: State, store: Store, target: nat)
    requires Sound(sha, s) && s.session.Idle? && IsOpened(store, s.packs, s.index, target)
    ensures Inv(sha, store) && Sound(sha, s.(session := Backup(store, [], Building)))
  {
    hide Sound, Inv;
    StepKeepsSound(sha, s, OpenBackup(store.nextId, target));
    SoundBackupInv(sha, Apply(sha, s, OpenBackup(store.nextId, target)));
  }

  method StartBackup(sha: Sha, disk: Disk, target: nat) returns (repo: Repository)
    requires Sound(sha, DiskState(disk, Idle))
    ensures fresh(repo) && fresh(repo.writer) && repo.disk == disk && repo.sha == sha
    ensures InBackup(repo, [], OriginOf(disk))
  {
    hide Sound, Inv, SafeSince, SizesKept;
    repo := new Repository.Open(sha, disk, target);
    SafeNow(sha, disk.history);
    OpenedKeeps(sha, repo.State());
    OpenedInBackup(sha, DiskState(disk, Idle), repo.State(), target);
  }

  lemma FlushGrows(repo: Repository, used: seq<Hash>, since: Origin)
    requires InBackup(repo, used, since)
    ensures Grows(repo.index, ChunkStore.FlushPending(repo.sha, repo.State()).index)
  {
    hide Inv, Sound, ChunkStore.FlushPending, SafeSince, SizesKept;
    FlushKeepsInv(repo.sha, repo.State());
  }

  /** A full backup: open, build the tree, finish.  A crash after any of its writes is harmless. */
  method RunBackup(sha: Sha, disk: Disk, chunker: Chunker, pl: Pipeline, manager: ParityManager, nonces: nat -> Nonce,
                   source: Source, prev: Option<Snapshot>, id: string, timestamp: int, target: nat)
    returns (snapshot: Snapshot, groups: seq<ParityGroup>)
    requires Sound(sha, DiskState(disk, Idle))
    requires chunker.Valid() && StoredFits(pl, chunker.Sizes()) && manager.Valid()
    requires PrevStored(prev, disk.snapshots) && id !in disk.snapshots
    modifies disk
    ensures Sound(sha, DiskState(disk, Idle))
    ensures disk.snapshots == old(disk.snapshots)[id := snapshot]
    ensures snapshot.id == id && snapshot.timestamp == timestamp
    ensures Represents(sha, pl, chunker.Sizes(), prev, source, snapshot.root)
    ensures source.SourceFile? && (prev.None? || !prev.value.root.File? || prev.value.root.name != source.name
                                   || prev.value.root.info.size != |source.data|
                                   || prev.value.root.info.modified != source.modified) ==>
              AllStoredAs(sha, pl, Chunks(chunker.Sizes(), source.data), ChunkHashes(snapshot.root))
    ensures GroupsRecorded(sha, groups, manager.rs.dataShards, manager.rs.parityShards)
    ensures AllInPlace(SavedIndex(disk.index), groups)
    ensures Covers(groups, NewHashes(prev, source, snapshot.root), manager.rs.dataShards)
    ensures SafeSince(sha, disk.history, |old(disk.history)|)
    ensures SizesCarry(sha, old(disk.packs), SavedIndex(old(disk.index)), disk.packs, SavedIndex(disk.index))
  {
    hide SizesCarry, Sound, Represents, InBackup, StoredFits, Builder.Steady, GroupsRecorded, AllInPlace, Covers, NewHashes, Grows,
      Chunker.Sizes, ReedSolomon.Valid, SafeSince, ChunkStore.FlushPending, Inv;
    var repo := StartBackup(sha, disk, target);
    var builder := new Builder(repo, chunker, pl, manager, nonces, OriginOf(disk));
    var root := builder.BuildTree(source, prev);
    snapshot := Snapshot(id, timestamp, root);
    assert ChunksOf(snapshot) == builder.used && builder.stored == NewHashes(prev, source, root);
    groups := builder.parityGroups;
    builder.UnderWay();
    FlushGrows(repo, builder.used, builder.since);
    builder.Leaves(ChunkStore.FlushPending(sha, repo.State()).index);
    FinishBackup(repo, snapshot, builder.used, builder.since);
    if source.SourceFile? {
      EditedIsStored(sha, pl, chunker.Sizes(), prev, source, root);
    }
  }

  /** A file that differs from its record in length or time, or has none, is stored in its own chunks. */
  lemma {:induction false} EditedIsStored(sha: Sha, pl: Pipeline, c: Limits, prev: Option<Snapshot>, source: Source, root: Node)
    requires ValidLimits(c) && Represents(sha, pl, c, prev, source, root) && source.SourceFile?
    ensures prev.None? || !prev.value.root.File? || prev.value.root.name != source.name
            || prev.value.root.info.size != |source.data| || prev.value.root.info.modified != source.modified ==>
              AllStoredAs(sha, pl, Chunks(c, source.data), ChunkHashes(root))
  {
    hide *;
    RootIs(source, root);
    FileIsReusedIff(sha, pl, c, prev, source, root, [], source.name, source.modified, source.mode, source.data);
    FileRootHashes(root);
  }

  lemma FileRootHashes(root: Node)
    requires root.File?
    ensures ChunkHashes(root) == root.info.chunkHashes
  {
  }

  /** Restore a snapshot into an empty directory, with no filter. */
  method RunRestore(sha: Sha, disk: Disk, pl: Pipeline, snapshot: Snapshot, target: nat)
    returns (out: seq<Outcome>, ghost store: Store)
    ensures IsOpened(store, disk.packs, disk.index, target)
    ensures out == RestoredRoot(sha, pl, store, snapshot.root)
  {
    hide RestoredNode, RestoredAll, IsOpened;
    var repo := new Repository.Open(sha, disk, target);
    store := repo.State();
    match snapshot.root
    case Directory(_, _, _, children) =>
      out := RestoreAll(repo, pl, [], children);
    case _ =>
      out := RestoreNode(repo, pl, [], snapshot.root);
  }

  // ── A backup that comes back ─────────────────────────────────────────────

  /**
   A backup into any sound repository and a restore of it.  With chunks of at most 256 MiB and a previous
   snapshot that is not one of a single file, every file of the source comes back.
   */
  method BackupAndRestore(sha: Sha, disk: Disk, chunker: Chunker, pl: Pipeline, manager: ParityManager, nonces: nat -> Nonce,
                          source: Source, prev: Option<Snapshot>, id: string, timestamp: int, target: nat)
    returns (snapshot: Snapshot, out: seq<Outcome>, ghost store: Store)
    requires Sound(sha, DiskState(disk, Idle))
    requires chunker.Valid() && StoredFits(pl, chunker.Sizes()) && manager.Valid() && chunker.maxSize <= 268435456
    requires PrevStored(prev, disk.snapshots) && id !in disk.snapshots
    requires prev.Some? ==> !prev.value.root.File?
    modifies disk
    ensures NoCollision(sha, pl, store, RawsOf(chunker.Sizes(), prev, [], source), ChunkHashes(snapshot.root)) ==>
              out == FilesOfRoot(source)
  {
    hide Sound, Represents, StoredFits, GroupsRecorded, AllInPlace, Covers, ReedSolomon.Valid, SafeSince, IsOpened, NoCollision,
      RestoredRoot, NewHashes, SizesCarry, FilesOfRoot, RawsOf, AllStoredAs, PrevStored;
    var groups;
    snapshot, groups := RunBackup(sha, disk, chunker, pl, manager, nonces, source, prev, id, timestamp, target);
    out, store := RunRestore(sha, disk, pl, snapshot, target);
    if NoCollision(sha, pl, store, RawsOf(chunker.Sizes(), prev, [], source), ChunkHashes(snapshot.root)) {
      WholeTree(sha, DiskState(disk, Idle), pl, chunker.Sizes(), target, store, snapshot, prev, source);
    }
  }

  lemma {:induction false} WholeTree(sha: Sha, s: State, pl: Pipeline, c: Limits, target: nat, store: Store, snapshot: Snapshot,
                                     prev: Option<Snapshot>, source: Source)
    requires ValidLimits(c) && c.max <= 268435456 && (prev.Some? ==> !prev.value.root.File?)
    requires Represents(sha, pl, c, prev, source, snapshot.root)
    requires Sound(sha, s) && snapshot.id in s.snapshots && s.snapshots[snapshot.id] == snapshot
    requires IsOpened(store, s.packs, s.index, target)
    requires NoCollision(sha, pl, store, RawsOf(c, prev, [], source), ChunkHashes(snapshot.root))
    ensures RestoredRoot(sha, pl, store, snapshot.root) == FilesOfRoot(source)
  {
    hide Sound, IsOpened, NoCollision, RestoredRoot, Represents, FilesOfRoot, RawsOf, SourceAt;
    TreeComesBack(sha, s, target, store, snapshot.id, pl, c, prev, [], source);
  }

  /**
   Two backups into a new repository, each of one single file, and a restore of the second.  The files have the
   same name, but length or modification time differ: the second contents come back.
   */
  method EditRestoresNewContents(sha: Sha, chunker: Chunker, pl: Pipeline, manager: ParityManager, nonces: nat -> Nonce,
                                 name: string, oldModified: int, modified: int, mode: nat, oldData: Bytes, data: Bytes,
                                 firstId: string, secondId: string, timestamp: int, target: nat)
    returns (second: Snapshot, out: seq<Outcome>, ghost store: Store)
    requires chunker.Valid() && StoredFits(pl, chunker.Sizes()) && manager.Valid() && chunker.maxSize <= 268435456
    requires (|oldData| != |data| || oldModified != modified) && firstId != secondId
    ensures NoCollision(sha, pl, store, Chunks(chunker.Sizes(), data), ChunkHashes(second.root)) ==> out == [Restored([name], data)]
  {
    hide Sound, Represents, StoredFits, GroupsRecorded, AllInPlace, Covers, ReedSolomon.Valid, SafeSince, IsOpened, NoCollision, Chunks,
      RestoredRoot, NewHashes, SizesCarry, AllStoredAs;
    var disk := new Disk();
    InitSound(sha);
    var before, after := SourceFile(name, oldModified, mode, oldData), SourceFile(name, modified, mode, data);
    var first, groups := RunBackup(sha, disk, chunker, pl, manager, nonces, before, None, firstId, timestamp, target);
    second, groups := RunBackup(sha, disk, chunker, pl, manager, nonces, after, Some(first), secondId, timestamp, target);
    out, store := RunRestore(sha, disk, pl, second, target);
    if NoCollision(sha, pl, store, Chunks(chunker.Sizes(), data), ChunkHashes(second.root)) {
      NewContents(sha, DiskState(disk, Idle), pl, chunker.Sizes(), target, store, first, second, before, after);
    }
  }

  lemma {:induction false} NewContents(sha: Sha, s: State, pl: Pipeline, c: Limits, target: nat, store: Store, first: Snapshot,
                                       second: Snapshot, before: Source, after: Source)
    requires ValidLimits(c) && c.max <= 268435456 && before.SourceFile? && after.SourceFile? && before.name == after.name
    requires |before.data| != |after.data| || before.modified != after.modified
    requires Represents(sha, pl, c, None, before, first.root) && Represents(sha, pl, c, Some(first), after, second.root)
    requires Sound(sha, s) && second.id in s.snapshots && s.snapshots[second.id] == second
    requires IsOpened(store, s.packs, s.index, target)
    requires NoCollision(sha, pl, store, Chunks(c, after.data), ChunkHashes(second.root))
    ensures RestoredRoot(sha, pl, store, second.root) == [Restored([after.name], after.data)]
  {
    hide *;
    RootIs(before, first.root);
    FileIsRecorded(sha, pl, c, None, before, first.root, [], before.name, before.modified, before.mode, before.data);
    EditedFileComesBack(sha, s, target, store, second.id, pl, c, Some(first), after.name, after.modified, after.mode, after.data);
  }

  // ── A backup that does not come back ─────────────────────────────────────

  /**
   Two backups into a new repository, each of one single file, and a restore of the second.  The files
   have the same name, size and modification time, so the second backup reuses the chunks of the
   first: whatever its contents are, the first contents come back.
   */
  method ReuseRestoresOldContents(sha: Sha, chunker: Chunker, pl: Pipeline, manager: ParityManager, nonces: nat -> Nonce,
                                  name: string, modified: int, mode: nat, oldData: Bytes, data: Bytes,
                                  firstId: string, secondId: string, timestamp: int, target: nat)
    returns (second: Snapshot, out: seq<Outcome>, ghost store: Store)
    requires chunker.Valid() && StoredFits(pl, chunker.Sizes()) && manager.Valid()
    requires |oldData| == |data| && firstId != secondId
    requires AllSmall(Chunks(chunker.Sizes(), oldData))
    ensures NoCollision(sha, pl, store, Chunks(chunker.Sizes(), oldData), ChunkHashes(second.root)) ==>
              out == [Restored([name], oldData)]
  {
    hide Sound, Represents, StoredFits, GroupsRecorded, AllInPlace, Covers, Chunker.Sizes, ReedSolomon.Valid, SafeSince, IsOpened,
      NoCollision, AllSmall, Chunks, RestoredRoot, NewHashes;
    var disk := new Disk();
    InitSound(sha);
    var before, after := SourceFile(name, modified, mode, oldData), SourceFile(name, modified, mode, data);
    var first, groups := RunBackup(sha, disk, chunker, pl, manager, nonces, before, None, firstId, timestamp, target);
    second, groups := RunBackup(sha, disk, chunker, pl, manager, nonces, after, Some(first), secondId, timestamp, target);
    out, store := RunRestore(sha, disk, pl, second, target);
    if NoCollision(sha, pl, store, Chunks(chunker.Sizes(), oldData), ChunkHashes(second.root)) {
      StaleContents(sha, DiskState(disk, Idle), pl, chunker.Sizes(), target, store, first, second, before, after);
    }
  }

  lemma {:induction false} StaleContents(sha: Sha, s: State, pl: Pipeline, c: Limits, target: nat, store: Store,
                                         first: Snapshot, second: Snapshot, before: Source, after: Source)
    requires ValidLimits(c) && before.SourceFile? && after.SourceFile?
    requires before.name == after.name && before.modified == after.modified && |before.data| == |after.data|
    requires Represents(sha, pl, c, None, before, first.root) && Represents(sha, pl, c, Some(first), after, second.root)
    requires Sound(sha, s) && second.id in s.snapshots && s.snapshots[second.id] == second
    requires IsOpened(store, s.packs, s.index, target)
    requires NoCollision(sha, pl, store, Chunks(c, before.data), ChunkHashes(second.root))
    requires AllSmall(Chunks(c, before.data))
    ensures RestoredRoot(sha, pl, store, second.root) == [Restored([before.name], before.data)]
  {
    hide Sound, IsOpened, NoCollision, AllSmall, Chunks, RestoredRoot, RecordOf, Represents, IsUnchanged, ShownAll, Concat,
      RawsOf, AsStored, FilesOfRoot, ReuseIsAccurate;
    var olds := Chunks(c, before.data);
    FirstIsFresh(sha, pl, c, before);
    BackupLeavesRecord(sha, pl, c, None, [], before, first);
    SecondIsReused(sha, pl, c, first, before, after);
    SnapshotComesBack(sha, s, target, store, second.id, pl, c, Some(first), olds, after);
    SingleFile(pl, c, Some(first), olds, after);
    SmallIsShown(pl, olds);
    ChunksRestoreData(c, before.data);
  }

  lemma {:induction false} FirstIsFresh(sha: Sha, pl: Pipeline, c: Limits, source: Source)
    requires ValidLimits(c) && source.SourceFile?
    ensures RecordOf(sha, pl, None, []) && RawsOf(c, None, [], source) == Chunks(c, source.data)
  {
    hide Chunks, AllStoredAs;
  }

  lemma {:induction false} SingleFile(pl: Pipeline, c: Limits, prev: Option<Snapshot>, olds: seq<Bytes>, source: Source)
    requires ValidLimits(c) && source.SourceFile?
    ensures FilesOfRoot(AsStored(pl, c, prev, olds, source)) ==
            [Restored([source.name], Concat(ShownAll(pl, RawsOf(c, prev, olds, source))))]
  {
    hide FileRaws, ShownAll, Concat;
    assert [] + [source.name] == [source.name];
  }

  lemma {:induction false} SecondIsReused(sha: Sha, pl: Pipeline, c: Limits, first: Snapshot, before: Source, after: Source)
    requires ValidLimits(c) && before.SourceFile? && after.SourceFile?
    requires before.name == after.name && before.modified == after.modified && |before.data| == |after.data|
    requires Represents(sha, pl, c, None, before, first.root)
    ensures RawsOf(c, Some(first), Chunks(c, before.data), after) == Chunks(c, before.data)
    ensures IsUnchanged(Some(first), after.name, after.modified, after.data)
  {
    hide Chunks, AllStoredAs, FileHash, VersionsOf;
    assert first.root.info.size == |before.data|;
  }
}
