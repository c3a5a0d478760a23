/**
 Recorded sizes.  The size in an index entry decides where the scrubber cuts a rebuilt shard
 (crates/verify/src/scrub.rs); here is what keeps it the length of what is read under the name.
 */
module TrueSizes {
  import opened Wrappers
  import opened Bytes
  import opened Digest
  import opened PackFormat
  import opened ChunkStore
  import opened IndexSoundness

  /** What is read under the name is as long as the entry says. */
  predicate Sized(sha: Sha, packs: Packs, index: Index, h: Hash) {
    var r := ReadStored(sha, packs, index, h);
    r.Ok? ==> |r.value| == index[h].size
  }

  /** The same for an open repository. */
  predicate SizedIn(sha: Sha, s: Store, h: Hash) {
    h in s.index && ReadChunk(sha, s, h).Ok? ==> |ReadChunk(sha, s, h).value| == s.index[h].size
  }

  // ── Packs come and go, counts change ─────────────────────────────────────

  lemma IntactHasPack(sha: Sha, packs: Packs, index: Index, h: Hash)
    requires Intact(sha, packs, index, h)
    ensures h in index && index[h].packId != 0
  {
  }

  lemma SoundIsIntact(sha: Sha, packs: Packs, index: Index, h: Hash)
    requires IndexSound(sha, packs, index) && h in index
    ensures index[h].packId != 0 ==> Intact(sha, packs, index, h)
  {
    hide Located, ReadChunkAt, HashOfChunk;
    assert EntrySound(sha, packs, index, h);
    LocatedReads(sha, packs, index[h].packId, index[h].packOffset, h);
  }

  lemma SamePlaceSized(sha: Sha, packs: Packs, index: Index, index': Index, h: Hash)
    requires Sized(sha, packs, index, h) && (h in index' ==> h in index)
    requires h in index' ==> index'[h].packId == index[h].packId && index'[h].packOffset == index[h].packOffset
                             && index'[h].size == index[h].size
    ensures Sized(sha, packs, index', h)
  {
    hide ReadStored;
    if h in index' {
      SamePlaceReads(sha, packs, index, index', h);
    }
  }

  // ── An open repository ───────────────────────────────────────────────────

  lemma UnbufferedSized(sha: Sha, s: Store, h: Hash)
    requires s.buffer == []
    ensures SizedIn(sha, s, h) <==> Sized(sha, s.packs, s.index, h)
  {
    hide ReadPacked, HashOfChunk;
  }

  /** Everything that a truthful open repository indexes can be read. */
  lemma SoundStoreReads(sha: Sha, s: Store, h: Hash)
    requires Inv(sha, s) && StoreSound(sha, s) && h in s.index
    ensures ReadChunk(sha, s, h).Ok?
  {
    hide Located, ReadChunkAt, HashOfChunk, HashesMatch, SizesFit, DistinctHashes;
    if !Buffered(s.buffer, h) {
      assert EntrySound(sha, s.packs, s.index, h);
      LocatedReads(sha, s.packs, s.index[h].packId, s.index[h].packOffset, h);
    }
  }

  lemma FlushedSize(sha: Sha, s: Store, h: Hash)
    requires Inv(sha, s) && h in s.index
    ensures var t := FlushPending(sha, s); h in t.index && t.index[h].size == s.index[h].size
  {
    hide PackFile, LocationOf, Locations, Relocated, HashOfChunk;
    RelocatedAt(s.index, s.nextId, s.buffer, |s.buffer|, h);
    if k :| 0 <= k < |s.buffer| && s.buffer[k].hash == h {
      assert FlushPending(sha, s).index[h] == Moved(s.index[h], s.nextId, LocationOf(s.buffer, k));
    }
  }

  lemma FlushKeepsSize(sha: Sha, s: Store, h: Hash)
    requires Inv(sha, s) && StoreSound(sha, s) && SizedIn(sha, s, h)
    ensures SizedIn(sha, FlushPending(sha, s), h)
  {
    hide FlushPending, ReadChunk, Inv, StoreSound;
    FlushKeepsInv(sha, s);
    if h in s.index {
      SoundStoreReads(sha, s, h);
      FlushKeepsReads(sha, s, h);
      FlushedSize(sha, s, h);
    }
  }

  /** A new chunk enters with its own length. */
  lemma AddedKeepsSize(sha: Sha, s: Store, hash: Hash, data: Bytes, h: Hash)
    requires Inv(sha, s) && StoreSound(sha, s) && SizedIn(sha, s, h) && hash == HashOfChunk(sha, data) && hash !in s.index
    ensures SizedIn(sha, Added(s, hash, data), h)
  {
    hide ReadChunk, Inv, StoreSound, HashOfChunk;
    AddedReads(sha, s, data, h);
    if h in s.index {
      SoundStoreReads(sha, s, h);
    }
  }

  /** Storing keeps every recorded size true, and a new chunk gets its own. */
  lemma StoreKeepsSize(sha: Sha, s: Store, data: Bytes, h: Hash)
    requires Inv(sha, s) && StoreSound(sha, s) && |data| < MAX_STORED && SizedIn(sha, s, h)
    ensures SizedIn(sha, StoreChunk(sha, s, data), h)
  {
    hide ReadChunk, Inv, StoreSound, HashOfChunk, FlushPending, Added, SizedIn, StoreChunk;
    var hash := HashOfChunk(sha, data);
    if hash in s.index {
      CountedSize(sha, s, data, h);
    } else {
      StoreIsAddThenFlush(sha, s, data);
      AddedInv(sha, s, data);
      AddedIsSound(sha, s, hash, data);
      AddedKeepsSize(sha, s, hash, data, h);
      FlushKeepsSize(sha, Added(s, hash, data), h);
    }
  }

  lemma CountedSize(sha: Sha, s: Store, data: Bytes, h: Hash)
    requires HashOfChunk(sha, data) in s.index && SizedIn(sha, s, h)
    ensures SizedIn(sha, StoreChunk(sha, s, data), h)
  {
    hide HashOfChunk, ReadChunkAt, Pending;
  }

  /** Changing counts or groups changes no size. */
  lemma SamePlacesSize(sha: Sha, s: Store, t: Store, h: Hash)
    requires SizedIn(sha, s, h) && t == s.(index := t.index) && t.index.Keys == s.index.Keys
    requires h in s.index ==> t.index[h].packId == s.index[h].packId && t.index[h].packOffset == s.index[h].packOffset
                              && t.index[h].size == s.index[h].size
    ensures SizedIn(sha, t, h)
  {
    hide HashOfChunk, ReadChunkAt, Pending;
  }

  // ── From one state to a later one ────────────────────────────────────────

  /** Sizes that were true then are true in the open repository. */
  ghost predicate SizesKept(sha: Sha, packs: Packs, index: Index, s: Store) {
    forall h :: Sized(sha, packs, index, h) ==> SizedIn(sha, s, h)
  }

  /** Sizes that were true then are true now. */
  ghost predicate SizesCarry(sha: Sha, packs: Packs, index: Index, packs': Packs, index': Index) {
    forall h :: Sized(sha, packs, index, h) ==> Sized(sha, packs', index', h)
  }

  lemma OpenedKeeps(sha: Sha, s: Store)
    requires s.buffer == []
    ensures SizesKept(sha, s.packs, s.index, s)
  {
    hide Sized, SizedIn;
    forall h | Sized(sha, s.packs, s.index, h)
      ensures SizedIn(sha, s, h)
    {
      UnbufferedSized(sha, s, h);
    }
  }

  lemma StoreKeepsSizes(sha: Sha, packs: Packs, index: Index, s: Store, data: Bytes)
    requires Inv(sha, s) && StoreSound(sha, s) && |data| < MAX_STORED && SizesKept(sha, packs, index, s)
    ensures SizesKept(sha, packs, index, StoreChunk(sha, s, data))
  {
    hide Sized, SizedIn, Inv, StoreSound, StoreChunk;
    forall h | Sized(sha, packs, index, h)
      ensures SizedIn(sha, StoreChunk(sha, s, data), h)
    {
      StoreKeepsSize(sha, s, data, h);
    }
  }

  lemma SamePlacesKeep(sha: Sha, packs: Packs, index: Index, s: Store, t: Store)
    requires SizesKept(sha, packs, index, s) && t == s.(index := t.index) && t.index.Keys == s.index.Keys
    requires forall h :: h in s.index ==> t.index[h].packId == s.index[h].packId
                                          && t.index[h].packOffset == s.index[h].packOffset && t.index[h].size == s.index[h].size
    ensures SizesKept(sha, packs, index, t)
  {
    hide Sized, SizedIn;
    forall h | Sized(sha, packs, index, h)
      ensures SizedIn(sha, t, h)
    {
      SamePlacesSize(sha, s, t, h);
    }
  }

  lemma FlushCarries(sha: Sha, packs: Packs, index: Index, s: Store)
    requires Inv(sha, s) && StoreSound(sha, s) && SizesKept(sha, packs, index, s)
    ensures var t := FlushPending(sha, s); SizesCarry(sha, packs, index, t.packs, t.index)
  {
    hide Sized, SizedIn, Inv, StoreSound, FlushPending;
    FlushKeepsInv(sha, s);
    var t := FlushPending(sha, s);
    forall h | Sized(sha, packs, index, h)
      ensures Sized(sha, t.packs, t.index, h)
    {
      FlushKeepsSize(sha, s, h);
      UnbufferedSized(sha, t, h);
    }
  }
}
