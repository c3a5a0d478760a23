/**
 Storing and flushing field by field (crates/core/src/repository.rs): when a pack is written, what it
 holds, and every field of the index entries.
 */
module StoreSteps {
  import opened Wrappers
  import opened Bytes
  import opened Digest
  import opened PackFormat
  import opened ChunkStore
  import opened ByteLayouts

  /**
   A new chunk goes into the buffer; the buffer is written as the next pack exactly when that file reaches the
   target size, and no sooner.  The chunk's entry has its length, one reference and no group.
   */
  lemma NewChunkIs(sha: Sha, s: Store, data: Bytes)
    requires Inv(sha, s) && |data| < MAX_STORED && HashOfChunk(sha, data) !in s.index
    ensures var h, t := HashOfChunk(sha, data), StoreChunk(sha, s, data);
            var buffer := s.buffer + [Entry(h, data)];
            var file := PackFile(sha, s.nextId, buffer);
            && h in t.index && t.target == s.target
            && (|file| < s.target ==>
                  && t.buffer == buffer && t.packs == s.packs && t.nextId == s.nextId
                  && t.index[h] == ChunkMeta(|data|, |data|, 1, 0, 0, 0))
            && (|file| >= s.target ==>
                  && t.buffer == [] && t.packs == s.packs[s.nextId := file] && t.nextId == s.nextId + 1
                  && t.index[h] == ChunkMeta(|data|, |data|, 1, 0, s.nextId, OffsetOf(buffer, |s.buffer|)))
  {
    hide HashOfChunk, PackFile, OffsetOf, BufferBytes, StoreChunk, Relocated, Inv, Locations;
    var h := HashOfChunk(sha, data);
    var added := Added(s, h, data);
    StoreIsAddThenFlush(sha, s, data);
    PackIs(sha, s.nextId, added.buffer);
    AddedInv(sha, s, data);
    if ShouldFlush(added.buffer, s.target) {
      LastMoves(sha, added, data);
    }
  }

  lemma LastMoves(sha: Sha, s: Store, data: Bytes)
    requires Inv(sha, s) && |s.buffer| > 0 && s.buffer[|s.buffer| - 1] == Entry(HashOfChunk(sha, data), data)
    requires s.index[HashOfChunk(sha, data)] == ChunkMeta(|data|, |data|, 1, 0, 0, 0)
    ensures var h, t := HashOfChunk(sha, data), FlushPending(sha, s);
            && t.buffer == [] && t.packs == s.packs[s.nextId := PackFile(sha, s.nextId, s.buffer)] && t.nextId == s.nextId + 1
            && h in t.index && t.target == s.target
            && t.index[h] == ChunkMeta(|data|, |data|, 1, 0, s.nextId, OffsetOf(s.buffer, |s.buffer| - 1))
  {
    hide HashOfChunk, PackFile, OffsetOf, Relocated, Locations;
    FlushedIs(sha, s, HashOfChunk(sha, data));
  }

  /** A known chunk gets one more reference, and nothing else happens. */
  lemma KnownChunkIs(sha: Sha, s: Store, data: Bytes)
    requires HashOfChunk(sha, data) in s.index
    ensures var h := HashOfChunk(sha, data);
            var m := s.index[h];
            StoreChunk(sha, s, data) ==
            s.(index := s.index[h := ChunkMeta(m.size, m.compressedSize, m.refs + 1, m.parityGroup, m.packId, m.packOffset)])
  {
    hide HashOfChunk;
  }

  /** A flush moves exactly the buffered chunks: place and stored length, no other field. */
  lemma FlushedIs(sha: Sha, s: Store, h: Hash)
    requires Inv(sha, s) && h in s.index
    ensures var m, t := s.index[h], FlushPending(sha, s);
            && h in t.index
            && (forall k :: 0 <= k < |s.buffer| && s.buffer[k].hash == h ==>
                  t.index[h] == ChunkMeta(m.size, |s.buffer[k].data|, m.refs, m.parityGroup, s.nextId, OffsetOf(s.buffer, k)))
            && ((forall k :: 0 <= k < |s.buffer| ==> s.buffer[k].hash != h) ==> t.index[h] == m)
  {
    hide HashOfChunk, PackFile, OffsetOf, Relocated, Locations;
    RelocatedAt(s.index, s.nextId, s.buffer, |s.buffer|, h);
  }
}
