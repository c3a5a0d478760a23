/**
 When the chunk index tells the truth: every entry names a pack on disk and the offset of a
 chunk that was really written there.  Being readable is not enough, since the content of one
 chunk can look like another entry; listing and compaction see only real entries.
 */
module IndexSoundness {
  import opened Wrappers
  import opened Bytes
  import opened Digest
  import opened PackFormat
  import opened ChunkStore

  /** Pack `id` was written from `entries`, and entry `k` of it is chunk `h` at `offset`. */
  ghost predicate EntryAt(sha: Sha, packs: Packs, id: nat, offset: nat, h: Hash, entries: seq<Entry>, k: nat) {
    && id in packs && packs[id] == PackFile(sha, id, entries)
    && SizesFit(entries) && HashesMatch(sha, entries)
    && k < |entries| && entries[k].hash == h && offset == OffsetOf(entries, k)
  }

  ghost predicate Located(sha: Sha, packs: Packs, id: nat, offset: nat, h: Hash) {
    exists entries: seq<Entry>, k: nat :: EntryAt(sha, packs, id, offset, h, entries, k)
  }

  ghost predicate EntrySound(sha: Sha, packs: Packs, index: Index, h: Hash)
    requires h in index
  {
    Located(sha, packs, index[h].packId, index[h].packOffset, h)
  }

  /** Every index entry is the location of its chunk. */
  ghost predicate IndexSound(sha: Sha, packs: Packs, index: Index) {
    forall h :: h in index ==> EntrySound(sha, packs, index, h)
  }

  /** The same for an open repository, whose index also names chunks in the write buffer. */
  ghost predicate StoreSound(sha: Sha, s: Store) {
    forall h :: h in s.index && s.index[h].packId != 0 ==> EntrySound(sha, s.packs, s.index, h)
  }

  /** Packs on disk stay as they are. */
  ghost predicate Extends(after: Packs, before: Packs) {
    forall id :: id in before ==> id in after && after[id] == before[id]
  }

  // ── Reading ──────────────────────────────────────────────────────────────

  /** What was readable reads the same when packs are added. */
  lemma IntactReads(sha: Sha, packs: Packs, index: Index, packs': Packs, h: Hash)
    requires Intact(sha, packs, index, h) && Extends(packs', packs)
    ensures ReadStored(sha, packs', index, h) == ReadStored(sha, packs, index, h)
  {
    hide ReadChunkAt, HashOfChunk;
  }

  /** Reading looks at the place only. */
  lemma SamePlaceReads(sha: Sha, packs: Packs, index: Index, index': Index, h: Hash)
    requires h in index <==> h in index'
    requires h in index ==> index'[h].packId == index[h].packId && index'[h].packOffset == index[h].packOffset
    ensures ReadStored(sha, packs, index', h) == ReadStored(sha, packs, index, h)
  {
    hide ReadChunkAt, HashOfChunk;
  }

  // ── Consequences of being located ────────────────────────────────────────

  /** A located chunk reads back with the content its name promises. */
  lemma LocatedReads(sha: Sha, packs: Packs, id: nat, offset: nat, h: Hash)
    requires Located(sha, packs, id, offset, h)
    ensures id in packs && ReadChunkAt(sha, packs[id], offset, h).Ok?
  {
    hide PackFile, OffsetOf, HashOfChunk, ReadChunkAt, HashesMatch, SizesFit;
    var entries, k: nat :| EntryAt(sha, packs, id, offset, h, entries, k);
    ReadBack(sha, id, entries, k);
  }

  /** A located chunk appears in the listing of its pack. */
  lemma LocatedIsListed(sha: Sha, packs: Packs, id: nat, offset: nat, h: Hash)
    requires Located(sha, packs, id, offset, h)
    ensures id in packs && ListFrom(packs[id], HEADER_SIZE).Ok?
    ensures exists j :: 0 <= j < |ListFrom(packs[id], HEADER_SIZE).value| && ListFrom(packs[id], HEADER_SIZE).value[j].hash == h
  {
    hide PackFile, OffsetOf, HashOfChunk, ListFrom, HashesMatch, SizesFit;
    var entries, k: nat :| EntryAt(sha, packs, id, offset, h, entries, k);
    ListRoundTrip(sha, id, entries);
    assert Locations(entries)[k].hash == h;
  }

  lemma LocatedExtends(sha: Sha, before: Packs, after: Packs, id: nat, offset: nat, h: Hash)
    requires Located(sha, before, id, offset, h)
    requires id in before && id in after && before[id] == after[id]
    ensures Located(sha, after, id, offset, h)
  {
    hide PackFile, OffsetOf, HashOfChunk, HashesMatch, SizesFit;
    var entries, k: nat :| EntryAt(sha, before, id, offset, h, entries, k);
    assert EntryAt(sha, after, id, offset, h, entries, k);
  }

  lemma SoundExtends(sha: Sha, before: Packs, after: Packs, index: Index)
    requires IndexSound(sha, before, index) && Extends(after, before)
    ensures IndexSound(sha, after, index)
  {
    hide Located;
    forall h | h in index
      ensures EntrySound(sha, after, index, h)
    {
      LocatedInPack(sha, before, index[h].packId, index[h].packOffset, h);
      LocatedExtends(sha, before, after, index[h].packId, index[h].packOffset, h);
    }
  }

  lemma LocatedInPack(sha: Sha, packs: Packs, id: nat, offset: nat, h: Hash)
    requires Located(sha, packs, id, offset, h)
    ensures id in packs
  {
  }

  /** Every chunk of a freshly written pack is located in it. */
  lemma WrittenIsLocated(sha: Sha, packs: Packs, id: nat, entries: seq<Entry>, k: nat)
    requires id in packs && packs[id] == PackFile(sha, id, entries)
    requires SizesFit(entries) && HashesMatch(sha, entries) && k < |entries|
    ensures Located(sha, packs, id, OffsetOf(entries, k), entries[k].hash)
  {
    hide PackFile, OffsetOf, HashOfChunk, HashesMatch, SizesFit;
    assert EntryAt(sha, packs, id, OffsetOf(entries, k), entries[k].hash, entries, k);
  }

  // ── Kept by the operations of an open repository ─────────────────────────

  lemma FlushExtends(sha: Sha, s: Store)
    requires Inv(sha, s)
    ensures Extends(FlushPending(sha, s).packs, s.packs)
  {
    hide PackFile, Relocated, Locations;
  }

  /** After a flush the whole index is located on disk. */
  lemma FlushIsSound(sha: Sha, s: Store)
    requires Inv(sha, s) && StoreSound(sha, s)
    ensures IndexSound(sha, FlushPending(sha, s).packs, FlushPending(sha, s).index)
  {
    hide PackFile, Relocated, Locations, Located, FlushPending, LocationOf, HashesMatch, SizesFit, DistinctHashes;
    var t := FlushPending(sha, s);
    FlushExtends(sha, s);
    FlushKeepsInv(sha, s);
    forall h | h in t.index
      ensures EntrySound(sha, t.packs, t.index, h)
    {
      FlushedEntry(sha, s, h);
    }
  }

  lemma FlushedEntry(sha: Sha, s: Store, h: Hash)
    requires Inv(sha, s) && StoreSound(sha, s) && h in s.index
    ensures var t := FlushPending(sha, s); h in t.index && EntrySound(sha, t.packs, t.index, h)
  {
    hide *;
    FlushKeepsInv(sha, s);
    if Buffered(s.buffer, h) {
      FlushedBuffered(sha, s, h);
    } else {
      FlushedUnbuffered(sha, s, h);
    }
  }

  lemma FlushedBuffered(sha: Sha, s: Store, h: Hash)
    requires Inv(sha, s) && StoreSound(sha, s) && h in s.index && Buffered(s.buffer, h)
    ensures var t := FlushPending(sha, s); h in t.index && EntrySound(sha, t.packs, t.index, h)
  {
    hide PackFile, Relocated, Locations, Located, LocationOf, OffsetOf, HashOfChunk;
    var t := FlushPending(sha, s);
    var k :| 0 <= k < |s.buffer| && s.buffer[k].hash == h;
    RelocatedAt(s.index, s.nextId, s.buffer, |s.buffer|, h);
    LocationHash(s.buffer, k);
    WrittenIsLocated(sha, t.packs, s.nextId, s.buffer, k);
    assert t.index[h] == Moved(s.index[h], s.nextId, LocationOf(s.buffer, k));
  }

  lemma FlushedUnbuffered(sha: Sha, s: Store, h: Hash)
    requires Inv(sha, s) && StoreSound(sha, s) && h in s.index && !Buffered(s.buffer, h)
    ensures var t := FlushPending(sha, s); h in t.index && EntrySound(sha, t.packs, t.index, h)
  {
    hide PackFile, Relocated, Locations, Located, LocationOf, OffsetOf, HashOfChunk;
    var t := FlushPending(sha, s);
    RelocatedAt(s.index, s.nextId, s.buffer, |s.buffer|, h);
    assert t.index[h] == s.index[h];
    FlushExtends(sha, s);
    LocatedInPack(sha, s.packs, s.index[h].packId, s.index[h].packOffset, h);
    LocatedExtends(sha, s.packs, t.packs, s.index[h].packId, s.index[h].packOffset, h);
  }

  /** Storing a chunk, with or without an automatic flush, keeps the index truthful and every pack intact. */
  lemma StoreIsSound(sha: Sha, s: Store, data: Bytes)
    requires Inv(sha, s) && StoreSound(sha, s) && |data| < MAX_STORED
    ensures var t := StoreChunk(sha, s, data); StoreSound(sha, t) && Extends(t.packs, s.packs)
  {
    hide *;
    if HashOfChunk(sha, data) in s.index {
      IncrementIsSound(sha, s, data);
    } else {
      NewChunkIsSound(sha, s, data, HashOfChunk(sha, data));
    }
  }

  lemma NewChunkIsSound(sha: Sha, s: Store, data: Bytes, hash: Hash)
    requires Inv(sha, s) && StoreSound(sha, s) && |data| < MAX_STORED
    requires hash == HashOfChunk(sha, data) && hash !in s.index
    ensures var t := StoreChunk(sha, s, data); StoreSound(sha, t) && Extends(t.packs, s.packs)
  {
    hide *;
    var added := Added(s, hash, data);
    StoreIsAddThenFlush(sha, s, data);
    AddedInv(sha, s, data);
    AddedIsSound(sha, s, hash, data);
    FlushIsSound(sha, added);
    FlushExtends(sha, added);
    SoundWithoutBuffer(sha, FlushPending(sha, added));
    ExtendsItself(s.packs);
  }

  lemma ExtendsItself(packs: Packs)
    ensures Extends(packs, packs)
  {
  }

  lemma IncrementIsSound(sha: Sha, s: Store, data: Bytes)
    requires StoreSound(sha, s) && HashOfChunk(sha, data) in s.index
    ensures var t := StoreChunk(sha, s, data); StoreSound(sha, t) && Extends(t.packs, s.packs)
  {
    hide HashOfChunk, Located;
    var t := StoreChunk(sha, s, data);
    forall h | h in t.index && t.index[h].packId != 0
      ensures EntrySound(sha, t.packs, t.index, h)
    {
      assert EntrySound(sha, s.packs, s.index, h);
    }
  }

  lemma AddedIsSound(sha: Sha, s: Store, hash: Hash, data: Bytes)
    requires StoreSound(sha, s) && HashOfChunk(sha, data) == hash
    ensures StoreSound(sha, Added(s, hash, data)) && Added(s, hash, data).packs == s.packs
  {
    hide Located;
    var t := Added(s, hash, data);
    forall h | h in t.index && t.index[h].packId != 0
      ensures EntrySound(sha, t.packs, t.index, h)
    {
      assert EntrySound(sha, s.packs, s.index, h);
    }
  }

  lemma SoundWithoutBuffer(sha: Sha, s: Store)
    requires IndexSound(sha, s.packs, s.index)
    ensures StoreSound(sha, s)
  {
    hide Located;
    forall h | h in s.index
      ensures EntrySound(sha, s.packs, s.index, h)
    {
      assert EntrySound(sha, s.packs, s.index, h);
    }
  }
}
