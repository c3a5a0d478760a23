/**
 The content-addressed store as values: what storing, flushing and reading do to the chunk
 index, the write buffer and the packs (crates/core/src/repository.rs, crates/core/src/pack.rs).
 */
module ChunkStore {
  import opened Wrappers
  import opened Bytes
  import opened Digest
  import opened PackFormat

  datatype ChunkMeta = ChunkMeta(size: nat, compressedSize: nat, refs: nat, parityGroup: nat,
                                 packId: nat, packOffset: nat)

  type Index = map<Hash, ChunkMeta>

  type Packs = map<nat, Bytes>

  /** An open repository: the packs on disk, the index in memory, the write buffer, the next pack id. */
  datatype Store = Store(packs: Packs, index: Index, buffer: seq<Entry>, nextId: nat, target: nat)

  datatype ReadError = NotFound | PendingLost | Pack(error: PackError)

  // ── The write buffer ─────────────────────────────────────────────────────

  function BufferBytes(buffer: seq<Entry>): nat {
    if |buffer| == 0 then 0
    else BufferBytes(buffer[..|buffer| - 1]) + CHUNK_OVERHEAD + |buffer[|buffer| - 1].data|
  }

  /** The estimated pack size has reached the target. */
  predicate ShouldFlush(buffer: seq<Entry>, target: nat) {
    HEADER_SIZE + BufferBytes(buffer) + FOOTER_SIZE >= target
  }

  /** The first buffered chunk of that name. */
  function Pending(buffer: seq<Entry>, hash: Hash): (r: Option<Bytes>)
    ensures r.Some? <==> exists k :: 0 <= k < |buffer| && buffer[k].hash == hash
  {
    if |buffer| == 0 then None
    else if buffer[0].hash == hash then Some(buffer[0].data)
    else Pending(buffer[1..], hash)
  }

  // ── Flushing ─────────────────────────────────────────────────────────────

  function Moved(meta: ChunkMeta, id: nat, loc: Location): ChunkMeta {
    meta.(packId := id, packOffset := loc.offset, compressedSize := loc.size)
  }

  /** Index entries of the first `n` flushed chunks now point into pack `id`. */
  function Relocated(index: Index, id: nat, locs: seq<Location>, n: nat): (r: Index)
    requires n <= |locs|
    ensures r.Keys == index.Keys
    decreases n
  {
    if n == 0 then index
    else
      var before := Relocated(index, id, locs, n - 1);
      var loc := locs[n - 1];
      if loc.hash in before then before[loc.hash := Moved(before[loc.hash], id, loc)] else before
  }

  function FlushPending(sha: Sha, s: Store): Store {
    if s.buffer == [] then s
    else
      var locs := Locations(s.buffer);
      s.(packs := s.packs[s.nextId := PackFile(sha, s.nextId, s.buffer)],
         index := Relocated(s.index, s.nextId, locs, |locs|),
         buffer := [],
         nextId := s.nextId + 1)
  }

  // ── Storing ──────────────────────────────────────────────────────────────

  function NewMeta(size: nat, id: nat, offset: nat): ChunkMeta {
    ChunkMeta(size, size, 1, 0, id, offset)
  }

  function FirstLocation(locs: seq<Location>, hash: Hash): (r: Option<Location>)
    ensures r.Some? <==> exists k :: 0 <= k < |locs| && locs[k].hash == hash
    ensures r.Some? ==> r.value in locs && r.value.hash == hash
  {
    if |locs| == 0 then None
    else if locs[0].hash == hash then Some(locs[0])
    else FirstLocation(locs[1..], hash)
  }

  function StoreChunk(sha: Sha, s: Store, data: Bytes): Store {
    var hash := HashOfChunk(sha, data);
    if hash in s.index then
      var meta := s.index[hash];
      s.(index := s.index[hash := meta.(refs := meta.refs + 1)])
    else
      var added := s.(buffer := s.buffer + [Entry(hash, data)]);
      if ShouldFlush(added.buffer, s.target) then
        var flushed := FlushPending(sha, added);
        var loc := FirstLocation(Locations(added.buffer), hash);
        var meta := match loc
          case Some(l) => NewMeta(|data|, s.nextId, l.offset)
          case None => NewMeta(|data|, 0, 0);
        flushed.(index := flushed.index[hash := meta])
      else
        added.(index := s.index[hash := NewMeta(|data|, 0, 0)])
  }

  // ── Reading ──────────────────────────────────────────────────────────────

  function ReadPacked(sha: Sha, packs: Packs, meta: ChunkMeta, hash: Hash): (r: Result<Bytes, ReadError>)
    ensures r.Ok? ==> HashOfChunk(sha, r.value) == hash
  {
    if meta.packId !in packs then Err(Pack(MissingPack(meta.packId)))
    else
      match ReadChunkAt(sha, packs[meta.packId], meta.packOffset, hash)
      case Err(e) => Err(Pack(e))
      case Ok(data) => Ok(data)
  }

  function ReadChunk(sha: Sha, s: Store, hash: Hash): Result<Bytes, ReadError> {
    match Pending(s.buffer, hash)
    case Some(data) => Ok(data)
    case None =>
      if hash !in s.index then Err(NotFound)
      else if s.index[hash].packId == 0 then Err(PendingLost)
      else ReadPacked(sha, s.packs, s.index[hash], hash)
  }

  /** Reading by an index from packs only, without a write buffer. */
  function ReadStored(sha: Sha, packs: Packs, index: Index, h: Hash): (r: Result<Bytes, ReadError>)
    ensures r.Ok? ==> h in index && HashOfChunk(sha, r.value) == h
  {
    if h !in index then Err(NotFound)
    else if index[h].packId == 0 then Err(PendingLost)
    else ReadPacked(sha, packs, index[h], h)
  }

  predicate Intact(sha: Sha, packs: Packs, index: Index, h: Hash) {
    ReadStored(sha, packs, index, h).Ok?
  }

  // ── Invariant of an open repository ──────────────────────────────────────

  predicate DistinctHashes(buffer: seq<Entry>) {
    forall i, j :: 0 <= i < j < |buffer| ==> buffer[i].hash != buffer[j].hash
  }

  predicate Buffered(buffer: seq<Entry>, hash: Hash) {
    exists k :: 0 <= k < |buffer| && buffer[k].hash == hash
  }

  /** Pack ids on disk are positive and below the next one. */
  predicate IdsBelow(packs: Packs, nextId: nat) {
    && nextId > 0
    && forall id :: id in packs ==> 0 < id < nextId
  }

  /** The index says "still buffered" of exactly the buffered chunks. */
  ghost predicate Inv(sha: Sha, s: Store) {
    && IdsBelow(s.packs, s.nextId)
    && DistinctHashes(s.buffer)
    && SizesFit(s.buffer)
    && HashesMatch(sha, s.buffer)
    && (forall k :: 0 <= k < |s.buffer| ==> s.buffer[k].hash in s.index && s.index[s.buffer[k].hash].packId == 0)
    && (forall h :: h in s.index && s.index[h].packId == 0 ==> Buffered(s.buffer, h))
  }

  /** Everything in the index can be read. */
  ghost predicate Complete(sha: Sha, s: Store) {
    forall h :: h in s.index ==> ReadChunk(sha, s, h).Ok?
  }

  // ── Lemmas about the pieces ──────────────────────────────────────────────

  lemma {:induction false} PendingAt(buffer: seq<Entry>, k: nat)
    requires DistinctHashes(buffer) && k < |buffer|
    ensures Pending(buffer, buffer[k].hash) == Some(buffer[k].data)
    decreases |buffer|
  {
    if k > 0 {
      assert buffer[0].hash != buffer[k].hash;
      PendingAt(buffer[1..], k - 1);
    }
  }

  /** Entry `h` after the first `n` flushed chunks: moved to its location, or as it was. */
  ghost predicate RelocatedTo(index: Index, r: Index, id: nat, buffer: seq<Entry>, n: nat, h: Hash)
    requires n <= |buffer|
  {
    && h in index && h in r
    && ((forall k :: 0 <= k < n ==> buffer[k].hash != h) ==> r[h] == index[h])
    && (forall k :: 0 <= k < n && buffer[k].hash == h ==> r[h] == Moved(index[h], id, LocationOf(buffer, k)))
  }

  lemma RelocatedOne(index: Index, id: nat, buffer: seq<Entry>, n: nat, h: Hash)
    requires n < |buffer| && DistinctHashes(buffer)
    requires RelocatedTo(index, Relocated(index, id, Locations(buffer), n), id, buffer, n, h)
    ensures RelocatedTo(index, Relocated(index, id, Locations(buffer), n + 1), id, buffer, n + 1, h)
  {
    hide LocationOf;
    LocationHash(buffer, n);
    assert forall k :: 0 <= k < n ==> buffer[k].hash != buffer[n].hash;
  }

  lemma NotYetRelocated(index: Index, id: nat, buffer: seq<Entry>, h: Hash)
    requires h in index
    ensures RelocatedTo(index, Relocated(index, id, Locations(buffer), 0), id, buffer, 0, h)
  {
  }

  /** Relocation leaves other chunks alone and moves each flushed one to its location. */
  lemma RelocatedAt(index: Index, id: nat, buffer: seq<Entry>, n: nat, h: Hash)
    requires n <= |buffer| && DistinctHashes(buffer) && h in index
    ensures var r := Relocated(index, id, Locations(buffer), n);
            && ((forall k :: 0 <= k < n ==> buffer[k].hash != h) ==> r[h] == index[h])
            && (forall k :: 0 <= k < n && buffer[k].hash == h ==> r[h] == Moved(index[h], id, LocationOf(buffer, k)))
  {
    hide LocationOf, Relocated, RelocatedTo, DistinctHashes, Locations, Moved;
    NotYetRelocated(index, id, buffer, h);
    for k := 0 to n
      invariant RelocatedTo(index, Relocated(index, id, Locations(buffer), k), id, buffer, k, h)
    {
      RelocatedOne(index, id, buffer, k, h);
    }
    RelocatedParts(index, Relocated(index, id, Locations(buffer), n), id, buffer, n, h);
  }

  lemma RelocatedParts(index: Index, r: Index, id: nat, buffer: seq<Entry>, n: nat, h: Hash)
    requires n <= |buffer| && RelocatedTo(index, r, id, buffer, n, h)
    ensures h in index && h in r
    ensures (forall k :: 0 <= k < n ==> buffer[k].hash != h) ==> r[h] == index[h]
    ensures forall k :: 0 <= k < n && buffer[k].hash == h ==> r[h] == Moved(index[h], id, LocationOf(buffer, k))
  {
  }

  lemma LocationHash(buffer: seq<Entry>, k: nat)
    requires k < |buffer|
    ensures Locations(buffer)[k] == LocationOf(buffer, k)
    ensures LocationOf(buffer, k).hash == buffer[k].hash && LocationOf(buffer, k).offset == OffsetOf(buffer, k)
  {
  }

  // ── Flushing keeps every chunk readable ──────────────────────────────────

  lemma FlushKeepsInv(sha: Sha, s: Store)
    requires Inv(sha, s)
    ensures Inv(sha, FlushPending(sha, s))
    ensures FlushPending(sha, s).buffer == []
    ensures FlushPending(sha, s).index.Keys == s.index.Keys
    ensures forall h :: h in s.index ==> FlushPending(sha, s).index[h].packId != 0
  {
    hide PackFile, LocationOf;
    if s.buffer != [] {
      var t := FlushPending(sha, s);
      forall h | h in s.index
        ensures t.index[h].packId != 0
      {
        RelocatedAt(s.index, s.nextId, s.buffer, |s.buffer|, h);
      }
    }
  }

  /** A buffered chunk is read from its new pack afterwards. */
  lemma FlushedChunk(sha: Sha, s: Store, k: nat)
    requires Inv(sha, s) && k < |s.buffer|
    ensures ReadChunk(sha, FlushPending(sha, s), s.buffer[k].hash) == Ok(s.buffer[k].data)
  {
    hide PackFile, LocationOf, ReadChunkAt, Locations, Relocated, HashOfChunk;
    var h := s.buffer[k].hash;
    RelocatedAt(s.index, s.nextId, s.buffer, |s.buffer|, h);
    LocationHash(s.buffer, k);
    ReadBack(sha, s.nextId, s.buffer, k);
    assert FlushPending(sha, s).index[h] == Moved(s.index[h], s.nextId, LocationOf(s.buffer, k));
  }

  /** A chunk that was not buffered is found where it was. */
  lemma UnbufferedChunk(sha: Sha, s: Store, h: Hash)
    requires Inv(sha, s) && !Buffered(s.buffer, h) && ReadChunk(sha, s, h).Ok?
    ensures ReadChunk(sha, FlushPending(sha, s), h) == ReadChunk(sha, s, h)
  {
    hide PackFile, LocationOf, ReadChunkAt, Locations, Relocated, HashOfChunk;
    RelocatedAt(s.index, s.nextId, s.buffer, |s.buffer|, h);
    if s.buffer != [] {
      assert s.nextId !in s.packs;
    }
  }

  lemma FlushKeepsReads(sha: Sha, s: Store, h: Hash)
    requires Inv(sha, s)
    ensures ReadChunk(sha, s, h).Ok? ==> ReadChunk(sha, FlushPending(sha, s), h) == ReadChunk(sha, s, h)
  {
    hide FlushPending, HashOfChunk, ReadPacked;
    if Buffered(s.buffer, h) {
      var k :| 0 <= k < |s.buffer| && s.buffer[k].hash == h;
      PendingAt(s.buffer, k);
      FlushedChunk(sha, s, k);
    } else if ReadChunk(sha, s, h).Ok? {
      UnbufferedChunk(sha, s, h);
    }
  }

  // ── Storing is inserting into a map ──────────────────────────────────────

  /** The store after the new chunk has entered the buffer and the index, before any flush. */
  function Added(s: Store, hash: Hash, data: Bytes): Store {
    s.(buffer := s.buffer + [Entry(hash, data)], index := s.index[hash := NewMeta(|data|, 0, 0)])
  }

  lemma AddedInv(sha: Sha, s: Store, data: Bytes)
    requires Inv(sha, s) && |data| < MAX_STORED && HashOfChunk(sha, data) !in s.index
    ensures Inv(sha, Added(s, HashOfChunk(sha, data), data))
  {
    hide HashOfChunk;
    var hash := HashOfChunk(sha, data);
    var t := Added(s, hash, data);
    forall h | h in t.index && t.index[h].packId == 0
      ensures Buffered(t.buffer, h)
    {
      if h == hash {
        assert t.buffer[|s.buffer|].hash == hash;
      } else {
        var k :| 0 <= k < |s.buffer| && s.buffer[k].hash == h;
        assert t.buffer[k].hash == h;
      }
    }
  }

  lemma {:induction false} PendingAppend(buffer: seq<Entry>, e: Entry, h: Hash)
    ensures Pending(buffer + [e], h) ==
            if Pending(buffer, h).Some? then Pending(buffer, h) else if e.hash == h then Some(e.data) else None
    decreases |buffer|
  {
    if |buffer| == 0 {
      assert buffer + [e] == [e];
      assert [e][1..] == [];
    } else {
      assert (buffer + [e])[1..] == buffer[1..] + [e];
      PendingAppend(buffer[1..], e, h);
    }
  }

  lemma AddedReads(sha: Sha, s: Store, data: Bytes, h: Hash)
    requires Inv(sha, s) && HashOfChunk(sha, data) !in s.index
    ensures var hash := HashOfChunk(sha, data);
            ReadChunk(sha, Added(s, hash, data), h) == if h == hash then Ok(data) else ReadChunk(sha, s, h)
  {
    hide HashOfChunk, ReadPacked;
    PendingAppend(s.buffer, Entry(HashOfChunk(sha, data), data), h);
  }

  /** Relocation and insertion of the chunk that triggered the flush can be swapped. */
  lemma {:induction false} RelocatedFresh(index: Index, id: nat, locs: seq<Location>, n: nat, hash: Hash, meta: ChunkMeta)
    requires n <= |locs| && hash !in index
    requires forall k :: 0 <= k < n ==> locs[k].hash != hash
    ensures Relocated(index[hash := meta], id, locs, n) == Relocated(index, id, locs, n)[hash := meta]
    decreases n
  {
    if n > 0 {
      RelocatedFresh(index, id, locs, n - 1, hash, meta);
      assert locs[n - 1].hash != hash;
    }
  }

  lemma {:induction false} LastLocation(entries: seq<Entry>, locs: seq<Location>, from: nat)
    requires from < |entries| == |locs| && DistinctHashes(entries)
    requires forall k :: 0 <= k < |locs| ==> locs[k].hash == entries[k].hash
    ensures FirstLocation(locs[from..], entries[|entries| - 1].hash) == Some(locs[|locs| - 1])
    decreases |entries| - from
  {
    if from < |entries| - 1 {
      assert entries[from].hash != entries[|entries| - 1].hash;
      assert locs[from..][1..] == locs[from + 1..];
      LastLocation(entries, locs, from + 1);
    }
  }

  /** The program's store of a new chunk is: add to buffer and index, then flush if the buffer is full. */
  lemma StoreIsAddThenFlush(sha: Sha, s: Store, data: Bytes)
    requires Inv(sha, s) && |data| < MAX_STORED && HashOfChunk(sha, data) !in s.index
    ensures var added := Added(s, HashOfChunk(sha, data), data);
            StoreChunk(sha, s, data) ==
            if ShouldFlush(added.buffer, s.target) then FlushPending(sha, added) else added
  {
    hide HashOfChunk, PackFile, OffsetOf, ShouldFlush, FirstLocation;
    var hash := HashOfChunk(sha, data);
    var added := Added(s, hash, data);
    if ShouldFlush(added.buffer, s.target) {
      var locs, n := Locations(added.buffer), |s.buffer|;
      AddedInv(sha, s, data);
      assert locs[0..] == locs;
      LastLocation(added.buffer, locs, 0);
      FlushedIndex(s, added.buffer, hash, |data|);
    }
  }

  lemma FlushedIndex(s: Store, buffer: seq<Entry>, hash: Hash, size: nat)
    requires |buffer| > 0 && DistinctHashes(buffer) && hash !in s.index
    requires buffer[|buffer| - 1].hash == hash && |buffer[|buffer| - 1].data| == size
    ensures var locs, n := Locations(buffer), |buffer| - 1;
            Relocated(s.index[hash := NewMeta(size, 0, 0)], s.nextId, locs, |locs|) ==
            Relocated(s.index, s.nextId, locs, |locs|)[hash := NewMeta(size, s.nextId, locs[n].offset)]
  {
    hide OffsetOf;
    var locs, n := Locations(buffer), |buffer| - 1;
    var meta := NewMeta(size, 0, 0);
    forall k | 0 <= k < n
      ensures locs[k].hash != hash
    {
      assert buffer[k].hash != buffer[n].hash;
    }
    RelocatedFresh(s.index, s.nextId, locs, n, hash, meta);
    var before := Relocated(s.index, s.nextId, locs, n);
    assert locs[n].hash == hash && locs[n].size == size;
    assert Relocated(s.index, s.nextId, locs, |locs|) == before;
    assert Moved(meta, s.nextId, locs[n]) == NewMeta(size, s.nextId, locs[n].offset);
    var once: Index := before[hash := meta];
    assert once[hash := Moved(meta, s.nextId, locs[n])] == before[hash := Moved(meta, s.nextId, locs[n])];
  }

  /** Storing keeps the invariant. */
  lemma StoreKeepsInv(sha: Sha, s: Store, data: Bytes)
    requires Inv(sha, s) && |data| < MAX_STORED
    ensures Inv(sha, StoreChunk(sha, s, data))
    ensures StoreChunk(sha, s, data).index.Keys == s.index.Keys + {HashOfChunk(sha, data)}
  {
    hide HashOfChunk;
    var hash := HashOfChunk(sha, data);
    if hash !in s.index {
      NewChunkInv(sha, s, data);
    } else {
      hide Inv;
      IncrementKeepsInv(sha, s, hash);
    }
  }

  lemma NewChunkInv(sha: Sha, s: Store, data: Bytes)
    requires Inv(sha, s) && |data| < MAX_STORED && HashOfChunk(sha, data) !in s.index
    ensures Inv(sha, StoreChunk(sha, s, data))
    ensures StoreChunk(sha, s, data).index.Keys == s.index.Keys + {HashOfChunk(sha, data)}
  {
    hide *;
    StoreIsAddThenFlush(sha, s, data);
    AddedInv(sha, s, data);
    AddedKeys(s, HashOfChunk(sha, data), data);
    FlushKeepsInv(sha, Added(s, HashOfChunk(sha, data), data));
  }

  lemma AddedKeys(s: Store, hash: Hash, data: Bytes)
    ensures Added(s, hash, data).index.Keys == s.index.Keys + {hash}
  {
  }

  lemma IncrementKeepsInv(sha: Sha, s: Store, hash: Hash)
    requires Inv(sha, s) && hash in s.index
    ensures Inv(sha, s.(index := s.index[hash := s.index[hash].(refs := s.index[hash].refs + 1)]))
  {
  }

  /** A new chunk reads back; every chunk that was readable still reads the same. */
  lemma StoreReads(sha: Sha, s: Store, data: Bytes, h: Hash)
    requires Inv(sha, s) && |data| < MAX_STORED
    ensures var hash, t := HashOfChunk(sha, data), StoreChunk(sha, s, data);
            && (hash !in s.index ==> ReadChunk(sha, t, hash) == Ok(data))
            && (h != hash || hash in s.index ==>
                  (ReadChunk(sha, s, h).Ok? ==> ReadChunk(sha, t, h) == ReadChunk(sha, s, h)))
  {
    var hash := HashOfChunk(sha, data);
    if hash !in s.index {
      StoreIsAddThenFlush(sha, s, data);
      hide StoreChunk, FlushPending, HashOfChunk, Added, ReadChunk;
      AddedInv(sha, s, data);
      AddedReads(sha, s, data, hash);
      AddedReads(sha, s, data, h);
      FlushKeepsReads(sha, Added(s, hash, data), hash);
      FlushKeepsReads(sha, Added(s, hash, data), h);
    } else {
      hide HashOfChunk, ReadPacked, Pending;
      IncrementKeepsReads(sha, s, hash, h);
    }
  }

  lemma IncrementKeepsReads(sha: Sha, s: Store, hash: Hash, h: Hash)
    requires hash in s.index
    ensures ReadChunk(sha, s.(index := s.index[hash := s.index[hash].(refs := s.index[hash].refs + 1)]), h)
         == ReadChunk(sha, s, h)
  {
  }

  // ── Refinement ───────────────────────────────────────────────────────────

  /** The abstract store: a finite map from names to contents. */
  ghost function View(sha: Sha, s: Store): (v: map<Hash, Bytes>)
    requires Complete(sha, s)
    ensures v.Keys == s.index.Keys
    ensures forall h :: h in v ==> ReadChunk(sha, s, h) == Ok(v[h])
  {
    map h | h in s.index :: ReadChunk(sha, s, h).value
  }

  /** Whatever is read has the name it was asked for. */
  lemma ReadIsNamed(sha: Sha, s: Store, h: Hash)
    requires Inv(sha, s) && ReadChunk(sha, s, h).Ok?
    ensures HashOfChunk(sha, ReadChunk(sha, s, h).value) == h
  {
    hide HashOfChunk;
    if Buffered(s.buffer, h) {
      var k :| 0 <= k < |s.buffer| && s.buffer[k].hash == h;
      PendingAt(s.buffer, k);
    }
  }

  /** Storing is insertion of a new key; flushing changes nothing. */
  lemma StoreRefinesMap(sha: Sha, s: Store, data: Bytes)
    requires Inv(sha, s) && Complete(sha, s) && |data| < MAX_STORED
    ensures var hash, t := HashOfChunk(sha, data), StoreChunk(sha, s, data);
            && Complete(sha, t)
            && View(sha, t) == if hash in s.index then View(sha, s) else View(sha, s)[hash := data]
  {
    hide *;
    var hash, t := HashOfChunk(sha, data), StoreChunk(sha, s, data);
    StoreKeepsInv(sha, s, data);
    var before := View(sha, s);
    var after: map<Hash, Bytes> := if hash in s.index then before else before[hash := data];
    forall h | h in t.index
      ensures ReadChunk(sha, t, h) == Ok(after[h])
    {
      StoreReads(sha, s, data, h);
    }
    ViewIs(sha, t, after);
  }

  lemma ViewIs(sha: Sha, s: Store, v: map<Hash, Bytes>)
    requires v.Keys == s.index.Keys
    requires forall h :: h in s.index ==> ReadChunk(sha, s, h) == Ok(v[h])
    ensures Complete(sha, s) && View(sha, s) == v
  {
    hide ReadChunk;
  }

  lemma FlushRefinesMap(sha: Sha, s: Store)
    requires Inv(sha, s) && Complete(sha, s)
    ensures Complete(sha, FlushPending(sha, s)) && View(sha, FlushPending(sha, s)) == View(sha, s)
  {
    hide HashOfChunk, FlushPending, ReadChunk, Inv;
    FlushKeepsInv(sha, s);
    forall h | h in s.index
      ensures ReadChunk(sha, FlushPending(sha, s), h) == ReadChunk(sha, s, h)
    {
      FlushKeepsReads(sha, s, h);
    }
  }

  // ── Interleavings ────────────────────────────────────────────────────────

  datatype Operation = Put(data: Bytes) | FlushAll

  function Step(sha: Sha, s: Store, op: Operation): Store {
    match op
    case Put(data) => StoreChunk(sha, s, data)
    case FlushAll => FlushPending(sha, s)
  }

  /** The store after the first `n` operations. */
  function Perform(sha: Sha, s: Store, ops: seq<Operation>, n: nat): Store
    requires n <= |ops|
    decreases n
  {
    if n == 0 then s else Step(sha, Perform(sha, s, ops, n - 1), ops[n - 1])
  }

  /** What the operations mean for a map from names to contents: the first content of a name stays. */
  function Meaning(sha: Sha, v: map<Hash, Bytes>, ops: seq<Operation>, n: nat): map<Hash, Bytes>
    requires n <= |ops|
    decreases n
  {
    if n == 0 then v
    else
      var before := Meaning(sha, v, ops, n - 1);
      match ops[n - 1]
      case Put(data) =>
        var hash := HashOfChunk(sha, data);
        if hash in before then before else before[hash := data]
      case FlushAll => before
  }

  predicate PutsFit(ops: seq<Operation>) {
    forall i :: 0 <= i < |ops| && ops[i].Put? ==> |ops[i].data| < MAX_STORED
  }

  /** Whatever the order of stores, automatic flushes and explicit flushes, the store is that map. */
  lemma {:induction false} InterleavingsRefineMap(sha: Sha, s: Store, ops: seq<Operation>, n: nat)
    requires Inv(sha, s) && Complete(sha, s) && n <= |ops| && PutsFit(ops)
    ensures Inv(sha, Perform(sha, s, ops, n)) && Complete(sha, Perform(sha, s, ops, n))
    ensures View(sha, Perform(sha, s, ops, n)) == Meaning(sha, View(sha, s), ops, n)
  {
    hide Inv, Complete, View, HashOfChunk, StoreChunk, FlushPending;
    if n > 0 {
      InterleavingsRefineMap(sha, s, ops, n - 1);
      OneStepRefines(sha, Perform(sha, s, ops, n - 1), ops[n - 1]);
      ViewDomain(sha, Perform(sha, s, ops, n - 1));
    }
  }

  lemma ViewDomain(sha: Sha, s: Store)
    requires Complete(sha, s)
    ensures View(sha, s).Keys == s.index.Keys
  {
  }

  lemma OneStepRefines(sha: Sha, s: Store, op: Operation)
    requires Inv(sha, s) && Complete(sha, s) && (op.Put? ==> |op.data| < MAX_STORED)
    ensures Inv(sha, Step(sha, s, op)) && Complete(sha, Step(sha, s, op))
    ensures op.FlushAll? ==> View(sha, Step(sha, s, op)) == View(sha, s)
    ensures op.Put? ==>
              var hash := HashOfChunk(sha, op.data);
              View(sha, Step(sha, s, op)) == if hash in s.index then View(sha, s) else View(sha, s)[hash := op.data]
  {
    hide Inv, Complete, View, HashOfChunk, StoreChunk, FlushPending;
    match op
    case Put(data) =>
      StoreKeepsInv(sha, s, data);
      StoreRefinesMap(sha, s, data);
    case FlushAll =>
      FlushKeepsInv(sha, s);
      FlushRefinesMap(sha, s);
  }

  /** `data` is the only content of its name among the operations and in the map. */
  ghost predicate NoRival(sha: Sha, v: map<Hash, Bytes>, ops: seq<Operation>, data: Bytes) {
    var hash := HashOfChunk(sha, data);
    && (hash in v ==> v[hash] == data)
    && forall i :: 0 <= i < |ops| && ops[i].Put? && HashOfChunk(sha, ops[i].data) == hash ==> ops[i].data == data
  }

  /** After `n` operations the map has `data`, or nothing, under the name of `data`. */
  predicate KnownOnlyAs(sha: Sha, v: map<Hash, Bytes>, ops: seq<Operation>, n: nat, data: Bytes)
    requires n <= |ops|
  {
    var hash, m := HashOfChunk(sha, data), Meaning(sha, v, ops, n);
    hash in m ==> m[hash] == data
  }

  /** After `n` operations the map has `data` under its name. */
  predicate Held(sha: Sha, v: map<Hash, Bytes>, ops: seq<Operation>, n: nat, data: Bytes)
    requires n <= |ops|
  {
    var hash, m := HashOfChunk(sha, data), Meaning(sha, v, ops, n);
    hash in m && m[hash] == data
  }

  lemma OneOperation(sha: Sha, v: map<Hash, Bytes>, ops: seq<Operation>, n: nat, data: Bytes)
    requires n < |ops| && NoRival(sha, v, ops, data)
    ensures KnownOnlyAs(sha, v, ops, n, data) ==> KnownOnlyAs(sha, v, ops, n + 1, data)
    ensures KnownOnlyAs(sha, v, ops, n, data) && ops[n] == Put(data) ==> Held(sha, v, ops, n + 1, data)
    ensures Held(sha, v, ops, n, data) ==> Held(sha, v, ops, n + 1, data)
  {
    hide HashOfChunk;
  }

  lemma BeforeOperations(sha: Sha, v: map<Hash, Bytes>, ops: seq<Operation>, data: Bytes)
    requires NoRival(sha, v, ops, data)
    ensures KnownOnlyAs(sha, v, ops, 0, data)
  {
    hide HashOfChunk;
  }

  lemma MeaningHolds(sha: Sha, v: map<Hash, Bytes>, ops: seq<Operation>, n: nat, i: nat, data: Bytes)
    requires i < n <= |ops| && ops[i] == Put(data) && NoRival(sha, v, ops, data)
    ensures Held(sha, v, ops, n, data)
  {
    hide *;
    BeforeOperations(sha, v, ops, data);
    for k := 0 to n
      invariant KnownOnlyAs(sha, v, ops, k, data) && (i < k ==> Held(sha, v, ops, k, data))
    {
      OneOperation(sha, v, ops, k, data);
    }
  }

  /** After any interleaving every stored chunk reads back under its name, unless another one collides with it. */
  lemma StoredChunksRead(sha: Sha, s: Store, ops: seq<Operation>, n: nat, i: nat, data: Bytes)
    requires Inv(sha, s) && Complete(sha, s) && PutsFit(ops)
    requires i < n <= |ops| && ops[i] == Put(data) && NoRival(sha, View(sha, s), ops, data)
    ensures ReadChunk(sha, Perform(sha, s, ops, n), HashOfChunk(sha, data)) == Ok(data)
  {
    hide *;
    MeaningHolds(sha, View(sha, s), ops, n, i, data);
    InterleavingsRefineMap(sha, s, ops, n);
    ReadsHeld(sha, s, ops, n, data);
  }

  lemma ReadsHeld(sha: Sha, s: Store, ops: seq<Operation>, n: nat, data: Bytes)
    requires Complete(sha, s) && n <= |ops| && Complete(sha, Perform(sha, s, ops, n))
    requires View(sha, Perform(sha, s, ops, n)) == Meaning(sha, View(sha, s), ops, n)
    requires Held(sha, View(sha, s), ops, n, data)
    ensures ReadChunk(sha, Perform(sha, s, ops, n), HashOfChunk(sha, data)) == Ok(data)
  {
    hide HashOfChunk, ReadChunk, Perform, Meaning, Complete;
    ReadsView(sha, Perform(sha, s, ops, n), HashOfChunk(sha, data));
  }

  lemma ReadsView(sha: Sha, s: Store, h: Hash)
    requires Complete(sha, s) && h in View(sha, s)
    ensures ReadChunk(sha, s, h) == Ok(View(sha, s)[h])
  {
  }

  // ── Reference counts ─────────────────────────────────────────────────────

  function Refs(index: Index, h: Hash): nat {
    if h in index then index[h].refs else 0
  }

  lemma {:induction false} RelocatedRefs(index: Index, id: nat, locs: seq<Location>, n: nat, h: Hash)
    requires n <= |locs|
    ensures Refs(Relocated(index, id, locs, n), h) == Refs(index, h)
  {
    if n > 0 {
      RelocatedRefs(index, id, locs, n - 1, h);
    }
  }

  /** Storing adds one reference to its chunk and touches no other count. */
  lemma StoreRefs(sha: Sha, s: Store, data: Bytes, h: Hash)
    requires Inv(sha, s) && |data| < MAX_STORED
    ensures Refs(StoreChunk(sha, s, data).index, h) == Refs(s.index, h) + if h == HashOfChunk(sha, data) then 1 else 0
  {
    hide HashOfChunk, PackFile, Locations;
    var hash := HashOfChunk(sha, data);
    if hash !in s.index {
      StoreIsAddThenFlush(sha, s, data);
      var added := Added(s, hash, data);
      hide StoreChunk;
      FlushRefs(sha, added, h);
    }
  }

  lemma FlushRefs(sha: Sha, s: Store, h: Hash)
    ensures Refs(FlushPending(sha, s).index, h) == Refs(s.index, h)
  {
    hide PackFile, Locations;
    if s.buffer != [] {
      RelocatedRefs(s.index, s.nextId, Locations(s.buffer), |Locations(s.buffer)|, h);
    }
  }
}
