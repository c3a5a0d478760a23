/**
 The mutable repository of crates/core/src/repository.rs and the pack writer of
 crates/core/src/pack.rs, each method proved against the functions of ChunkStore.
 */
module Repositories {
  import opened Wrappers
  import opened Bytes
  import opened Digest
  import opened PackFormat
  import opened ChunkStore
  import opened SnapshotTree

  datatype Snapshot = Snapshot(id: string, timestamp: int, root: Node)

  /** What a crash leaves behind. */
  datatype Image = Image(packs: Packs, index: Option<Index>, snapshots: map<string, Snapshot>)

  /** The disk of a repository.  Each entry is replaced as a whole, by rename, and every write is recorded. */
  class Disk {
    var packs: Packs
    var index: Option<Index>
    var snapshots: map<string, Snapshot>
    /** The state after each write, oldest first: where a crash could have happened. */
    ghost var history: seq<Image>

    ghost function Now(): Image
      reads this
    {
      Image(packs, index, snapshots)
    }

    constructor ()
      ensures packs == map[] && index == None && snapshots == map[] && history == []
    {
      packs, index, snapshots, history := map[], None, map[], [];
    }

    method PutPack(id: nat, file: Bytes)
      modifies this`packs, this`history
      ensures packs == old(packs)[id := file] && history == old(history) + [Now()]
    {
      packs := packs[id := file];
      history := history + [Now()];
    }

    method RemovePack(id: nat)
      modifies this`packs, this`history
      ensures packs == old(packs) - {id} && history == old(history) + [Now()]
    {
      packs := packs - {id};
      history := history + [Now()];
    }

    method PutIndex(i: Index)
      modifies this`index, this`history
      ensures index == Some(i) && history == old(history) + [Now()]
    {
      index := Some(i);
      history := history + [Now()];
    }

    method PutSnapshot(snapshot: Snapshot)
      modifies this`snapshots, this`history
      ensures snapshots == old(snapshots)[snapshot.id := snapshot] && history == old(history) + [Now()]
    {
      snapshots := snapshots[snapshot.id := snapshot];
      history := history + [Now()];
    }

    method RemoveSnapshot(id: string)
      modifies this`snapshots, this`history
      ensures snapshots == old(snapshots) - {id} && history == old(history) + [Now()]
    {
      snapshots := snapshots - {id};
      history := history + [Now()];
    }
  }

  /** At most one write happened, and it left the disk as it is now. */
  predicate OneWrite(before: seq<Image>, after: seq<Image>, now: Image) {
    after == before || after == before + [now]
  }

  datatype FlushResult = FlushResult(packId: nat, chunkLocations: seq<Location>)

  // ── Pack writer ──────────────────────────────────────────────────────────

  class PackWriter {
    const sha: Sha
    const disk: Disk
    const targetSize: nat
    var nextPackId: nat
    var buffer: seq<Entry>
    var bufferBytes: nat

    ghost predicate Valid()
      reads this
    {
      bufferBytes == BufferBytes(buffer)
    }

    constructor (sha: Sha, disk: Disk, nextPackId: nat, targetSize: nat)
      ensures Valid() && buffer == []
      ensures this.sha == sha && this.disk == disk && this.targetSize == targetSize
      ensures this.nextPackId == nextPackId
    {
      this.sha, this.disk, this.targetSize := sha, disk, targetSize;
      this.nextPackId := nextPackId;
      buffer := [];
      bufferBytes := 0;
    }

    /** Buffer a chunk; the answer tells whether the pack is full. */
    method AddChunk(hash: Hash, data: Bytes) returns (shouldFlush: bool)
      requires Valid()
      modifies this`buffer, this`bufferBytes
      ensures Valid() && buffer == old(buffer) + [Entry(hash, data)]
      ensures shouldFlush == ShouldFlush(buffer, targetSize)
    {
      var entrySize := CHUNK_OVERHEAD + |data|;
      buffer := buffer + [Entry(hash, data)];
      assert buffer[..|buffer| - 1] == old(buffer);
      bufferBytes := bufferBytes + entrySize;
      shouldFlush := HEADER_SIZE + bufferBytes + FOOTER_SIZE >= targetSize;
    }

    /** Write the buffer as the next pack; nothing happens when it is empty. */
    method Flush() returns (r: Option<FlushResult>)
      requires Valid() && SizesFit(buffer)
      modifies this, disk`packs, disk`history
      ensures Valid() && buffer == []
      ensures old(buffer) == [] ==>
                && r == None && disk.packs == old(disk.packs) && nextPackId == old(nextPackId)
                && disk.history == old(disk.history)
      ensures old(buffer) != [] ==>
                && r == Some(FlushResult(old(nextPackId), Locations(old(buffer))))
                && disk.packs == old(disk.packs)[old(nextPackId) := PackFile(sha, old(nextPackId), old(buffer))]
                && nextPackId == old(nextPackId) + 1
                && disk.history == old(disk.history) + [disk.Now()]
    {
      hide BufferBytes, PackFile, Locations, SizesFit;
      if |buffer| == 0 {
        r := None;
      } else {
        var result := WriteBuffer();
        r := Some(result);
      }
    }

    method WriteBuffer() returns (r: FlushResult)
      requires Valid()
      modifies this, disk`packs, disk`history
      ensures Valid() && buffer == []
      ensures r == FlushResult(old(nextPackId), Locations(old(buffer)))
      ensures disk.packs == old(disk.packs)[old(nextPackId) := PackFile(sha, old(nextPackId), old(buffer))]
      ensures nextPackId == old(nextPackId) + 1
      ensures disk.history == old(disk.history) + [disk.Now()]
    {
      hide BufferBytes, PackFile, Locations;
      var packId := nextPackId;
      nextPackId := nextPackId + 1;
      var file, locations := WritePack(sha, packId, buffer);
      disk.PutPack(packId, file);
      buffer := [];
      bufferBytes := 0;
      EmptyBuffer();
      r := FlushResult(packId, locations);
    }

    /** The file and the locations, written entry by entry. */
    static method WritePack(sha: Sha, packId: nat, entries: seq<Entry>) returns (file: Bytes, locations: seq<Location>)
      ensures file == PackFile(sha, packId, entries)
      ensures locations == Locations(entries)
    {
      hide *;
      file := Header(packId);
      locations := [];
      var currentOffset := HEADER_SIZE;
      NothingWritten(packId, entries);
      for k := 0 to |entries|
        invariant file == Header(packId) + EntriesBytes(entries[..k])
        invariant currentOffset == OffsetOf(entries, k)
        invariant locations == FirstLocations(entries, k)
      {
        WriteOne(packId, entries, k);
        file := file + EntryBytes(entries[k]);
        locations := locations + [Location(entries[k].hash, currentOffset, |entries[k].data|)];
        currentOffset := currentOffset + CHUNK_OVERHEAD + |entries[k].data|;
      }
      WriteEnd(sha, packId, entries);
      file := file + [END_MARKER];
      file := file + sha(file);
    }

    method GetPending(hash: Hash) returns (r: Option<Bytes>)
      ensures r == Pending(buffer, hash)
    {
      for k := 0 to |buffer|
        invariant Pending(buffer, hash) == Pending(buffer[k..], hash)
      {
        assert buffer[k..][1..] == buffer[k + 1..];
        if buffer[k].hash == hash {
          return Some(buffer[k].data);
        }
      }
      return None;
    }
  }

  function FirstLocations(entries: seq<Entry>, k: nat): seq<Location>
    requires k <= |entries|
  {
    seq(k, j requires 0 <= j < k => LocationOf(entries, j))
  }

  lemma EmptyBuffer()
    ensures BufferBytes([]) == 0
  {
  }

  lemma NothingWritten(id: nat, entries: seq<Entry>)
    ensures Header(id) == Header(id) + EntriesBytes(entries[..0])
    ensures OffsetOf(entries, 0) == HEADER_SIZE && FirstLocations(entries, 0) == []
  {
  }

  lemma WriteOne(id: nat, entries: seq<Entry>, k: nat)
    requires k < |entries|
    ensures Header(id) + EntriesBytes(entries[..k]) + EntryBytes(entries[k]) == Header(id) + EntriesBytes(entries[..k + 1])
    ensures OffsetOf(entries, k + 1) == OffsetOf(entries, k) + CHUNK_OVERHEAD + |entries[k].data|
    ensures FirstLocations(entries, k + 1) ==
            FirstLocations(entries, k) + [Location(entries[k].hash, OffsetOf(entries, k), |entries[k].data|)]
  {
    hide EntryBytes, Header;
    assert entries[..k + 1][..k] == entries[..k];
    NextOffset(entries, k);
    ConcatAssoc(Header(id), EntriesBytes(entries[..k]), EntryBytes(entries[k]));
  }

  lemma WriteEnd(sha: Sha, id: nat, entries: seq<Entry>)
    ensures entries[..|entries|] == entries
    ensures var body := Header(id) + EntriesBytes(entries) + [END_MARKER];
            body + sha(body) == PackFile(sha, id, entries)
    ensures FirstLocations(entries, |entries|) == Locations(entries)
  {
    hide EntryBytes, Header;
  }

  // ── Opening ──────────────────────────────────────────────────────────────

  /** The largest pack id on disk, or 0. */
  method MaxPackId(packs: Packs) returns (m: nat)
    ensures forall id :: id in packs ==> id <= m
    ensures m == 0 || m in packs
  {
    m := 0;
    var rest := packs.Keys;
    while rest != {}
      invariant rest <= packs.Keys
      invariant forall id :: id in packs && id !in rest ==> id <= m
      invariant m == 0 || m in packs
      decreases |rest|
    {
      var id :| id in rest;
      if id > m {
        m := id;
      }
      rest := rest - {id};
    }
  }

  /** No saved entry claims to be still in a write buffer. */
  predicate NothingPending(index: Index) {
    forall h :: h in index ==> index[h].packId != 0
  }

  predicate PositiveIds(packs: Packs) {
    0 !in packs
  }

  /** The repository as `Open` leaves it. */
  predicate IsOpened(s: Store, packs: Packs, saved: Option<Index>, target: nat) {
    && s.packs == packs && s.buffer == [] && s.target == target
    && s.index == (match saved case Some(i) => i case None => map[])
    && s.nextId > 0
    && (forall id :: id in packs ==> id < s.nextId)
    && (s.nextId == 1 || s.nextId - 1 in packs)
  }

  class Repository {
    const sha: Sha
    const disk: Disk
    const writer: PackWriter
    var index: Index

    ghost predicate Consistent()
      reads this, writer
    {
      writer.sha == sha && writer.disk == disk && writer.Valid()
    }

    /** The state of the repository as a value. */
    ghost function State(): Store
      reads this, writer, disk
    {
      Store(disk.packs, index, writer.buffer, writer.nextPackId, writer.targetSize)
    }

    ghost predicate Valid()
      reads this, writer, disk
    {
      Consistent() && Inv(sha, State())
    }

    constructor Open(sha: Sha, disk: Disk, target: nat)
      ensures Consistent() && fresh(writer)
      ensures this.sha == sha && this.disk == disk && disk.packs == old(disk.packs)
      ensures IsOpened(State(), disk.packs, disk.index, target)
      ensures PositiveIds(disk.packs) && NothingPending(State().index) ==> Valid()
    {
      hide Inv;
      this.sha, this.disk := sha, disk;
      index := match disk.index case Some(i) => i case None => map[];
      var m := MaxPackId(disk.packs);
      writer := new PackWriter(sha, disk, m + 1, target);
      new;
      OpenedInv(sha, State());
    }

    /** Point the index at the locations of a flush. */
    method Relocate(result: FlushResult)
      modifies this`index
      ensures index == Relocated(old(index), result.packId, result.chunkLocations, |result.chunkLocations|)
    {
      for k := 0 to |result.chunkLocations|
        invariant index == Relocated(old(index), result.packId, result.chunkLocations, k)
      {
        var loc := result.chunkLocations[k];
        if loc.hash in index {
          index := index[loc.hash := Moved(index[loc.hash], result.packId, loc)];
        }
      }
    }

    method StoreChunk(data: Bytes) returns (hash: Hash)
      requires Valid() && |data| < MAX_STORED
      modifies this, writer, disk`packs, disk`history
      ensures Valid() && hash == HashOfChunk(sha, data)
      ensures State() == ChunkStore.StoreChunk(sha, old(State()), data)
      ensures OneWrite(old(disk.history), disk.history, disk.Now())
    {
      hide HashOfChunk, Inv, PackFile, Locations, ShouldFlush, Relocated, FirstLocation, ChunkStore.StoreChunk,
        BufferBytes, SizesFit;
      hash := HashOfChunk(sha, data);
      StoreKeepsInv(sha, State(), data);
      StoreCases(sha, State(), data);
      if hash in index {
        index := index[hash := index[hash].(refs := index[hash].refs + 1)];
        return;
      }
      BufferFits(sha, State(), hash, data);
      var myPackId, myPackOffset := 0, 0;
      var shouldFlush := writer.AddChunk(hash, data);
      if shouldFlush {
        var flushed := writer.Flush();
        Relocate(flushed.value);
        var loc := FirstLocation(flushed.value.chunkLocations, hash);
        if loc.Some? {
          myPackId := flushed.value.packId;
          myPackOffset := loc.value.offset;
        }
      }
      index := index[hash := NewMeta(|data|, myPackId, myPackOffset)];
    }

    method ReadChunk(hash: Hash) returns (r: Result<Bytes, ReadError>)
      ensures Consistent() ==> r == ChunkStore.ReadChunk(sha, State(), hash)
    {
      var pending := writer.GetPending(hash);
      if pending.Some? {
        return Ok(pending.value);
      }
      if hash !in index {
        return Err(NotFound);
      }
      if index[hash].packId == 0 {
        return Err(PendingLost);
      }
      r := ReadPacked(sha, disk.packs, index[hash], hash);
    }

    method FlushPending()
      requires Valid()
      modifies this, writer, disk`packs, disk`history
      ensures Valid() && State() == ChunkStore.FlushPending(sha, old(State()))
      ensures OneWrite(old(disk.history), disk.history, disk.Now())
    {
      hide HashOfChunk, Inv, PackFile, Locations, Relocated, ChunkStore.FlushPending, BufferBytes, SizesFit;
      FlushKeepsInv(sha, State());
      FlushCases(sha, State());
      InvFits(sha, State());
      var flushed := writer.Flush();
      if flushed.Some? {
        Relocate(flushed.value);
      }
    }

    method SaveIndex()
      modifies disk`index, disk`history
      ensures disk.index == Some(index) && disk.history == old(disk.history) + [disk.Now()]
    {
      disk.PutIndex(index);
    }
  }

  lemma BufferFits(sha: Sha, s: Store, hash: Hash, data: Bytes)
    requires Inv(sha, s) && |data| < MAX_STORED
    ensures SizesFit(s.buffer + [Entry(hash, data)])
  {
  }

  lemma OpenedInv(sha: Sha, s: Store)
    requires s.buffer == [] && s.nextId > 0
    requires forall id :: id in s.packs ==> id < s.nextId
    ensures PositiveIds(s.packs) && NothingPending(s.index) ==> Inv(sha, s)
  {
  }

  lemma InvFits(sha: Sha, s: Store)
    requires Inv(sha, s)
    ensures SizesFit(s.buffer)
  {
  }

  lemma FlushCases(sha: Sha, s: Store)
    ensures s.buffer == [] ==> ChunkStore.FlushPending(sha, s) == s
    ensures s.buffer != [] ==>
              var locs := Locations(s.buffer);
              ChunkStore.FlushPending(sha, s) ==
              Store(s.packs[s.nextId := PackFile(sha, s.nextId, s.buffer)],
                    Relocated(s.index, s.nextId, locs, |locs|), [], s.nextId + 1, s.target)
  {
    hide PackFile, Locations, Relocated;
  }

  /** The cases of storing a chunk, spelled out for the method. */
  lemma StoreCases(sha: Sha, s: Store, data: Bytes)
    ensures var hash, t := HashOfChunk(sha, data), ChunkStore.StoreChunk(sha, s, data);
            var buffer := s.buffer + [Entry(hash, data)];
            var locs := Locations(buffer);
            if hash in s.index then
              t == s.(index := s.index[hash := s.index[hash].(refs := s.index[hash].refs + 1)])
            else if ShouldFlush(buffer, s.target) then
              var loc := FirstLocation(locs, hash);
              var meta := if loc.Some? then NewMeta(|data|, s.nextId, loc.value.offset) else NewMeta(|data|, 0, 0);
              t == Store(s.packs[s.nextId := PackFile(sha, s.nextId, buffer)],
                         Relocated(s.index, s.nextId, locs, |locs|)[hash := meta], [], s.nextId + 1, s.target)
            else
              t == Store(s.packs, s.index[hash := NewMeta(|data|, 0, 0)], buffer, s.nextId, s.target)
  {
    hide HashOfChunk, PackFile, Locations, Relocated, ShouldFlush, FirstLocation;
  }
}
