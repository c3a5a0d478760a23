/**
 `scrub_and_repair` (crates/verify/src/scrub.rs) and the write path it uses in
 crates/core/src/repository.rs: find what cannot be read, rebuild it group by group, write back
 only what has the right name.
 */
module Scrub {
  import opened Wrappers
  import opened Bytes
  import opened Digest
  import opened PackFormat
  import opened ChunkStore
  import opened Repositories
  import opened Deletion
  import opened LinearAlgebra
  import opened ErasureCode
  import opened ReedSolomonCodec
  import opened Recovery
  import opened ParityRepair
  import opened ParityGroups
  import opened GroupRepair
  import opened IndexSoundness
  import opened CrashRuns

  const DEFAULT_PACK_SIZE: nat := 20 * 1024 * 1024

  datatype WriteError = HashMismatch(expected: Hash, computed: Hash)

  // ── What a repair session may change ─────────────────────────────────────

  /** A pack that holds one chunk under its own name. */
  ghost predicate SingleChunkPack(sha: Sha, id: nat, file: Bytes) {
    exists e: Entry :: file == PackFile(sha, id, [e]) && HashOfChunk(sha, e.data) == e.hash
  }

  ghost predicate AddedSingles(sha: Sha, before: Packs, after: Packs) {
    forall id :: id in after && id !in before ==> SingleChunkPack(sha, id, after[id]) && AboveAll(before, id)
  }

  predicate AboveAll(packs: Packs, id: nat) {
    forall k :: k in packs ==> k < id
  }

  /** Only the place of a touched chunk changes, and no chunk becomes unreadable. */
  predicate EntryKept(sha: Sha, packs: Packs, index: Index, packs': Packs, index': Index, touched: set<Hash>, h: Hash)
    requires h in index && h in index'
  {
    && index'[h].refs == index[h].refs && index'[h].size == index[h].size
    && (h !in touched ==> index'[h] == index[h])
    && (Intact(sha, packs, index, h) ==> Intact(sha, packs', index', h))
  }

  ghost predicate Progress(sha: Sha, packs: Packs, index: Index, packs': Packs, index': Index, touched: set<Hash>) {
    && Extends(packs', packs)
    && AddedSingles(sha, packs, packs')
    && index'.Keys == index.Keys
    && forall h :: h in index && h in index' ==> EntryKept(sha, packs, index, packs', index', touched, h)
  }

  lemma NoProgress(sha: Sha, packs: Packs, index: Index, touched: set<Hash>)
    ensures Progress(sha, packs, index, packs, index, touched)
  {
    hide Intact;
  }

  lemma ProgressChains(sha: Sha, p0: Packs, i0: Index, p1: Packs, i1: Index, p2: Packs, i2: Index, touched: set<Hash>)
    requires Progress(sha, p0, i0, p1, i1, touched) && Progress(sha, p1, i1, p2, i2, touched)
    ensures Progress(sha, p0, i0, p2, i2, touched)
  {
    AddedChains(sha, p0, p1, p2);
    ExtendsChains(p0, p1, p2);
    hide EntryKept, AddedSingles, Extends;
    forall h | h in i0 && h in i2
      ensures EntryKept(sha, p0, i0, p2, i2, touched, h)
    {
      KeptChains(sha, p0, i0, p1, i1, p2, i2, touched, h);
    }
  }

  lemma KeptChains(sha: Sha, p0: Packs, i0: Index, p1: Packs, i1: Index, p2: Packs, i2: Index, touched: set<Hash>, h: Hash)
    requires h in i0 && h in i1 && h in i2
    requires EntryKept(sha, p0, i0, p1, i1, touched, h) && EntryKept(sha, p1, i1, p2, i2, touched, h)
    ensures EntryKept(sha, p0, i0, p2, i2, touched, h)
  {
    hide Intact;
  }

  lemma ExtendsChains(p0: Packs, p1: Packs, p2: Packs)
    requires Extends(p1, p0) && Extends(p2, p1)
    ensures Extends(p2, p0)
  {
  }

  lemma AddedChains(sha: Sha, p0: Packs, p1: Packs, p2: Packs)
    requires Extends(p1, p0) && Extends(p2, p1) && AddedSingles(sha, p0, p1) && AddedSingles(sha, p1, p2)
    ensures AddedSingles(sha, p0, p2)
  {
    hide SingleChunkPack;
  }

  lemma TouchLess(sha: Sha, p0: Packs, i0: Index, p1: Packs, i1: Index, a: set<Hash>, b: set<Hash>)
    requires Progress(sha, p0, i0, p1, i1, a) && a <= b
    ensures Progress(sha, p0, i0, p1, i1, b)
  {
    hide Intact, AddedSingles;
    forall h | h in i0 && h in i1
      ensures EntryKept(sha, p0, i0, p1, i1, b, h)
    {
      assert EntryKept(sha, p0, i0, p1, i1, a, h);
    }
  }

  /** A chunk that was readable and is not touched reads the same bytes as before. */
  lemma ProgressKeepsReads(sha: Sha, packs: Packs, index: Index, packs': Packs, index': Index, touched: set<Hash>, h: Hash)
    requires Progress(sha, packs, index, packs', index', touched)
    requires Intact(sha, packs, index, h) && h !in touched
    ensures ReadStored(sha, packs', index', h) == ReadStored(sha, packs, index, h)
  {
    hide ReadChunkAt, HashOfChunk, AddedSingles;
    assert EntryKept(sha, packs, index, packs', index', touched, h);
  }

  // ── Crash points of a repair ─────────────────────────────────────────────

  /** Whatever was readable is readable from this image. */
  ghost predicate ImageKeeps(sha: Sha, packs: Packs, index: Index, img: Image) {
    forall h :: Intact(sha, packs, index, h) ==> Intact(sha, img.packs, SavedIndex(img.index), h)
  }

  /** Every write recorded since `before` left such an image. */
  ghost predicate Keeps(sha: Sha, packs: Packs, index: Index, before: seq<Image>, after: seq<Image>) {
    && before <= after
    && forall i :: |before| <= i < |after| ==> ImageKeeps(sha, packs, index, after[i])
  }

  lemma KeepsNow(sha: Sha, packs: Packs, index: Index, history: seq<Image>)
    ensures Keeps(sha, packs, index, history, history)
  {
  }

  lemma ProgressImage(sha: Sha, packs: Packs, index: Index, packs': Packs, index': Index, touched: set<Hash>, img: Image)
    requires Progress(sha, packs, index, packs', index', touched)
    requires img.packs == packs' && SavedIndex(img.index) == index'
    ensures ImageKeeps(sha, packs, index, img)
  {
    hide ReadStored, Extends, AddedSingles;
    forall h | Intact(sha, packs, index, h)
      ensures Intact(sha, packs', index', h)
    {
      IntactIsIndexed(sha, packs, index, h);
      assert EntryKept(sha, packs, index, packs', index', touched, h);
    }
  }

  lemma IntactIsIndexed(sha: Sha, packs: Packs, index: Index, h: Hash)
    requires Intact(sha, packs, index, h)
    ensures h in index
  {
  }

  /** Later writes, judged from an earlier state. */
  lemma KeepsChains(sha: Sha, p0: Packs, i0: Index, p1: Packs, i1: Index, touched: set<Hash>,
                    h0: seq<Image>, h1: seq<Image>, h2: seq<Image>)
    requires Progress(sha, p0, i0, p1, i1, touched)
    requires Keeps(sha, p0, i0, h0, h1) && Keeps(sha, p1, i1, h1, h2)
    ensures Keeps(sha, p0, i0, h0, h2)
  {
    hide Progress, Intact;
    forall i | |h0| <= i < |h2|
      ensures ImageKeeps(sha, p0, i0, h2[i])
    {
      if i < |h1| {
        assert h2[i] == h1[i];
      } else {
        LaterImage(sha, p0, i0, p1, i1, touched, h2[i]);
      }
    }
  }

  lemma LaterImage(sha: Sha, p0: Packs, i0: Index, p1: Packs, i1: Index, touched: set<Hash>, img: Image)
    requires Progress(sha, p0, i0, p1, i1, touched) && ImageKeeps(sha, p1, i1, img)
    ensures ImageKeeps(sha, p0, i0, img)
  {
    ProgressImage(sha, p0, i0, p1, i1, touched, Image(p1, Some(i1), map[]));
    hide Progress, Intact;
  }

  // ── Writing one repaired chunk ───────────────────────────────────────────

  ghost function MaxId(ids: set<nat>): (m: nat)
    ensures forall id :: id in ids ==> id <= m
    ensures m == 0 || m in ids
  {
    if ids == {} then 0
    else
      var id :| id in ids;
      var rest := MaxId(ids - {id});
      assert forall k :: k in ids ==> k == id || k in ids - {id};
      if id >= rest then id else rest
  }

  /** The id that a new pack gets. */
  ghost function NextId(packs: Packs): (id: nat)
    ensures IsNextId(packs, id)
  {
    MaxId(packs.Keys) + 1
  }

  lemma NextIdIs(packs: Packs, id: nat)
    requires IsNextId(packs, id)
    ensures id == NextId(packs)
  {
  }

  /** Packs and index after a repaired chunk was written. */
  ghost function Written(sha: Sha, packs: Packs, index: Index, h: Hash, data: Bytes): (Packs, Index) {
    var id := NextId(packs);
    (packs[id := PackFile(sha, id, [Entry(h, data)])], Repointed(index, id, h, data))
  }

  /**
   The repaired chunk is at byte 14 of a pack with a larger id than any before; its entry keeps its size, its
   references and its group, the other entries and packs stay as they are.
   */
  lemma WrittenIs(sha: Sha, packs: Packs, index: Index, h: Hash, data: Bytes, packs': Packs, index': Index) returns (id: nat)
    requires HashOfChunk(sha, data) == h && |data| < 0x1_0000_0000 && (packs', index') == Written(sha, packs, index, h, data)
    ensures (forall k :: k in packs ==> k < id) && (id == 1 || id - 1 in packs)
    ensures packs'.Keys == packs.Keys + {id} && (forall k :: k in packs ==> packs'[k] == packs[k])
    ensures ReadChunkAt(sha, packs'[id], 14, h) == Ok(data)
    ensures index'.Keys == index.Keys && (forall k :: k in index && k != h ==> index'[k] == index[k])
    ensures h in index ==> index'[h] == index[h].(packId := id, packOffset := 14, compressedSize := |data|)
  {
    hide HashOfChunk, ReadChunkAt, PackFile, Repointed, MaxId;
    id := NextId(packs);
    SingleReads(sha, id, h, data);
    RepointedIs(index, id, h, data);
  }

  lemma SingleReads(sha: Sha, id: nat, h: Hash, data: Bytes)
    requires HashOfChunk(sha, data) == h && |data| < MAX_STORED
    ensures ReadChunkAt(sha, PackFile(sha, id, [Entry(h, data)]), 14, h) == Ok(data)
  {
    SingleEntry(sha, h, data);
    hide *;
    ReadBack(sha, id, [Entry(h, data)], 0);
  }

  lemma RepointedIs(index: Index, id: nat, h: Hash, data: Bytes)
    ensures var i := Repointed(index, id, h, data);
            && i.Keys == index.Keys && (forall k :: k in index && k != h ==> i[k] == index[k])
            && (h in index ==> i[h] == index[h].(packId := id, packOffset := 14, compressedSize := |data|))
  {
  }

  /** A pack of its own for one chunk, with the largest id on disk plus one. */
  method WriteSingle(sha: Sha, disk: Disk, h: Hash, data: Bytes) returns (id: nat, offset: nat)
    requires HashOfChunk(sha, data) == h && |data| < MAX_STORED
    modifies disk`packs, disk`history
    ensures IsNextId(old(disk.packs), id) && offset == HEADER_SIZE
    ensures disk.packs == old(disk.packs)[id := PackFile(sha, id, [Entry(h, data)])]
    ensures disk.history == old(disk.history) + [disk.Now()]
  {
    hide HashOfChunk, PackFile, BufferBytes, ShouldFlush, Locations, SizesFit;
    var m := MaxPackId(disk.packs);
    var writer := new PackWriter(sha, disk, m + 1, DEFAULT_PACK_SIZE);
    var full := writer.AddChunk(h, data);
    FirstOfOne(sha, h, data);
    assert writer.buffer == [Entry(h, data)];
    var flushed := writer.Flush();
    id, offset := flushed.value.packId, flushed.value.chunkLocations[0].offset;
  }

  /** Refuse other contents; write the pack, repoint the entry, save the index. */
  method WriteRepairedChunk(repo: Repository, h: Hash, data: Bytes) returns (r: Result<(), WriteError>)
    requires repo.Consistent() && |data| < MAX_STORED && SavedIndex(repo.disk.index) == repo.index
    modifies repo`index, repo.disk`packs, repo.disk`index, repo.disk`history
    ensures repo.Consistent()
    ensures HashOfChunk(repo.sha, data) != h ==>
              && r == Err(HashMismatch(h, HashOfChunk(repo.sha, data)))
              && repo.index == old(repo.index) && repo.disk.packs == old(repo.disk.packs) && repo.disk.index == old(repo.disk.index)
              && repo.disk.history == old(repo.disk.history)
    ensures HashOfChunk(repo.sha, data) == h ==>
              && r.Ok? && repo.disk.index == Some(repo.index)
              && (repo.disk.packs, repo.index) == Written(repo.sha, old(repo.disk.packs), old(repo.index), h, data)
              && repo.disk.history == old(repo.disk.history) + [Image(repo.disk.packs, old(repo.disk.index), repo.disk.snapshots),
                                                                repo.disk.Now()]
  {
    hide HashOfChunk, PackFile, IsNextId, NextId;
    ghost var packs := repo.disk.packs;
    var computed := HashOfChunk(repo.sha, data);
    if computed != h {
      return Err(HashMismatch(h, computed));
    }
    var id, offset := WriteSingle(repo.sha, repo.disk, h, data);
    if h in repo.index {
      repo.index := repo.index[h := repo.index[h].(packId := id, packOffset := offset, compressedSize := |data|)];
    }
    repo.SaveIndex();
    NextIdIs(packs, id);
    r := Ok(());
  }

  lemma FirstOfOne(sha: Sha, h: Hash, data: Bytes)
    requires HashOfChunk(sha, data) == h && |data| < MAX_STORED
    ensures SizesFit([Entry(h, data)])
    ensures |Locations([Entry(h, data)])| == 1 && Locations([Entry(h, data)])[0].offset == HEADER_SIZE
  {
    SingleEntry(sha, h, data);
    hide HashOfChunk, OffsetOf;
    LocationHash([Entry(h, data)], 0);
  }

  ghost predicate WroteAs(sha: Sha, packs: Packs, index: Index, h: Hash, data: Bytes, packs': Packs, index': Index, id: nat) {
    && IsNextId(packs, id)
    && packs' == packs[id := PackFile(sha, id, [Entry(h, data)])]
    && index' == Repointed(index, id, h, data)
  }

  /** The written chunk is readable, every other one reads as before. */
  lemma WroteProgress(sha: Sha, packs: Packs, index: Index, h: Hash, data: Bytes, packs': Packs, index': Index)
    requires (packs', index') == Written(sha, packs, index, h, data) && HashOfChunk(sha, data) == h && |data| < MAX_STORED
    ensures Progress(sha, packs, index, packs', index', {h})
    ensures h in index ==> Intact(sha, packs', index', h)
  {
    hide HashOfChunk, Intact, Progress, IsNextId, NextId, PackFile, Repointed;
    var id := NextId(packs);
    WroteIsIntact(sha, packs, index, h, data, packs', index', id);
    WroteKeeps(sha, packs, index, h, data, packs', index', id);
  }

  /** Neither write of a repaired chunk loses anything. */
  lemma WroteKeepsImages(sha: Sha, packs: Packs, index: Index, h: Hash, data: Bytes, packs': Packs, index': Index,
                         saved: Option<Index>, snapshots: Snapshots, before: seq<Image>, after: seq<Image>)
    requires (packs', index') == Written(sha, packs, index, h, data) && HashOfChunk(sha, data) == h && |data| < MAX_STORED
    requires SavedIndex(saved) == index
    requires after == before + [Image(packs', saved, snapshots), Image(packs', Some(index'), snapshots)]
    ensures Keeps(sha, packs, index, before, after)
  {
    hide *;
    var i1, i2 := Image(packs', saved, snapshots), Image(packs', Some(index'), snapshots);
    WroteProgress(sha, packs, index, h, data, packs', index');
    SavedSome(index');
    ProgressImage(sha, packs, index, packs', index', {h}, i2);
    ProgressExtends(sha, packs, index, packs', index', {h});
    ExtendedImage(sha, packs, index, i1);
    KeepsNow(sha, packs, index, before);
    KeepsOneMore(sha, packs, index, before, before, i1);
    KeepsOneMore(sha, packs, index, before, before + [i1], i2);
    assert before + [i1] + [i2] == before + [i1, i2];
  }

  lemma SavedSome(index: Index)
    ensures SavedIndex(Some(index)) == index
  {
  }

  lemma ProgressExtends(sha: Sha, packs: Packs, index: Index, packs': Packs, index': Index, touched: set<Hash>)
    requires Progress(sha, packs, index, packs', index', touched)
    ensures Extends(packs', packs)
  {
    hide EntryKept, AddedSingles;
  }

  /** The new pack is there, the index still the old one. */
  lemma ExtendedImage(sha: Sha, packs: Packs, index: Index, img: Image)
    requires Extends(img.packs, packs) && SavedIndex(img.index) == index
    ensures ImageKeeps(sha, packs, index, img)
  {
    hide Intact;
    forall h | Intact(sha, packs, index, h)
      ensures Intact(sha, img.packs, index, h)
    {
      IntactIsIndexed(sha, packs, index, h);
      OthersIntact(sha, packs, index, img.packs, index, h);
    }
  }

  lemma WroteIsIntact(sha: Sha, packs: Packs, index: Index, h: Hash, data: Bytes, packs': Packs, index': Index, id: nat)
    requires WroteAs(sha, packs, index, h, data, packs', index', id) && HashOfChunk(sha, data) == h && |data| < MAX_STORED
    ensures h in index ==> Intact(sha, packs', index', h)
  {
    hide PackFile, HashOfChunk, Intact, SizesFit, HashesMatch, OffsetOf, ReadChunkAt;
    SingleEntry(sha, h, data);
    ReadBack(sha, id, [Entry(h, data)], 0);
    WrittenIsIntact(sha, packs', index', id, h, data);
  }

  lemma WroteKeeps(sha: Sha, packs: Packs, index: Index, h: Hash, data: Bytes, packs': Packs, index': Index, id: nat)
    requires WroteAs(sha, packs, index, h, data, packs', index', id) && HashOfChunk(sha, data) == h
    requires h in index ==> Intact(sha, packs', index', h)
    ensures Progress(sha, packs, index, packs', index', {h})
  {
    hide PackFile, HashOfChunk, Intact, IsNextId, AddedSingles, Extends, Repointed, EntryKept;
    WroteOnlySingles(sha, packs, index, h, data, packs', index', id);
    SameKeysRepointed(index, id, h, data);
    forall x | x in index && x in index'
      ensures EntryKept(sha, packs, index, packs', index', {h}, x)
    {
      RepointedKept(sha, packs, index, h, data, packs', id, x);
    }
  }

  lemma SameKeysRepointed(index: Index, id: nat, h: Hash, data: Bytes)
    ensures Repointed(index, id, h, data).Keys == index.Keys
  {
  }

  lemma RepointedKept(sha: Sha, packs: Packs, index: Index, h: Hash, data: Bytes, packs': Packs, id: nat, x: Hash)
    requires Extends(packs', packs) && x in index && x in Repointed(index, id, h, data)
    requires h in index ==> Intact(sha, packs', Repointed(index, id, h, data), h)
    ensures EntryKept(sha, packs, index, packs', Repointed(index, id, h, data), {h}, x)
  {
    hide Intact, Extends;
    if x != h {
      OthersIntact(sha, packs, index, packs', Repointed(index, id, h, data), x);
    }
  }

  lemma WroteOnlySingles(sha: Sha, packs: Packs, index: Index, h: Hash, data: Bytes, packs': Packs, index': Index, id: nat)
    requires WroteAs(sha, packs, index, h, data, packs', index', id) && HashOfChunk(sha, data) == h
    ensures AddedSingles(sha, packs, packs') && Extends(packs', packs)
  {
    hide PackFile, HashOfChunk, Repointed;
    assert SingleChunkPack(sha, id, packs'[id]) by {
      assert packs'[id] == PackFile(sha, id, [Entry(h, data)]);
    }
    hide SingleChunkPack;
  }

  lemma WrittenIsIntact(sha: Sha, packs: Packs, index: Index, id: nat, h: Hash, data: Bytes)
    requires id > 0 && id in packs && ReadChunkAt(sha, packs[id], HEADER_SIZE, h) == Ok(data)
    requires h in index ==> index[h].packId == id && index[h].packOffset == HEADER_SIZE
    ensures h in index ==> Intact(sha, packs, index, h)
  {
    hide ReadChunkAt, HashOfChunk;
  }

  lemma OthersIntact(sha: Sha, packs: Packs, index: Index, packs': Packs, index': Index, x: Hash)
    requires x in index && x in index' && index'[x] == index[x] && Extends(packs', packs)
    ensures Intact(sha, packs, index, x) ==> Intact(sha, packs', index', x)
  {
    hide ReadChunkAt, HashOfChunk;
  }

  // ── Finding the bad chunks ───────────────────────────────────────────────

  /** Every chunk of the index that cannot be read back under its name. */
  method FindBad(sha: Sha, packs: Packs, index: Index) returns (bad: set<Hash>)
    ensures forall h :: h in bad <==> h in index && !Intact(sha, packs, index, h)
  {
    hide ReadStored, HashOfChunk;
    bad := {};
    var rest := index.Keys;
    while rest != {}
      invariant rest <= index.Keys
      invariant forall h :: h in bad <==> h in index && h !in rest && !Intact(sha, packs, index, h)
      decreases |rest|
    {
      var h :| h in rest;
      var read := ReadStored(sha, packs, index, h);
      if read.Err? || HashOfChunk(sha, read.value) != h {
        bad := bad + {h};
      }
      rest := rest - {h};
    }
  }

  /** The bad chunks of each group: a chunk counts for the first group that has it. */
  method GroupBad(groups: seq<ParityGroup>, bad: set<Hash>) returns (todo: map<nat, set<Hash>>)
    ensures forall id, h :: id in todo && h in todo[id] ==>
              h in bad && FindGroupByHash(groups, h).Some? && FindGroupByHash(groups, h).value.groupId == id
    ensures forall h :: h in bad && FindGroupByHash(groups, h).Some? ==>
              var id := FindGroupByHash(groups, h).value.groupId; id in todo && h in todo[id]
  {
    hide FindGroupByHash;
    todo := map[];
    var rest := bad;
    while rest != {}
      invariant rest <= bad
      invariant forall id, h :: id in todo && h in todo[id] ==>
                  h in bad && FindGroupByHash(groups, h).Some? && FindGroupByHash(groups, h).value.groupId == id
      invariant forall h :: h in bad && h !in rest && FindGroupByHash(groups, h).Some? ==>
                  var id := FindGroupByHash(groups, h).value.groupId; id in todo && h in todo[id]
      decreases |rest|
    {
      var h :| h in rest;
      var group := FindGroupByHash(groups, h);
      if group.Some? {
        var id: nat := group.value.groupId;
        todo := todo[id := (if id in todo then todo[id] else {}) + {h}];
      }
      rest := rest - {h};
    }
  }

  // ── One group ────────────────────────────────────────────────────────────

  method ReadMembers(sha: Sha, packs: Packs, index: Index, members: seq<Hash>, bad: set<Hash>)
    returns (available: seq<(nat, Bytes)>)
    ensures available == Available(sha, packs, index, members, bad, |members|)
  {
    hide ReadStored, Available;
    available := [];
    NothingAvailable(sha, packs, index, members, bad);
    for idx := 0 to |members|
      invariant available == Available(sha, packs, index, members, bad, idx)
    {
      AvailableUnfold(sha, packs, index, members, bad, idx);
      if members[idx] !in bad {
        var read := ReadStored(sha, packs, index, members[idx]);
        if read.Ok? {
          available := available + [(idx, read.value)];
        }
      }
    }
  }

  lemma NothingAvailable(sha: Sha, packs: Packs, index: Index, members: seq<Hash>, bad: set<Hash>)
    ensures Available(sha, packs, index, members, bad, 0) == []
  {
  }

  /** Cut a rebuilt shard to the recorded size of the chunk. */
  function Trimmed(index: Index, h: Hash, shard: Bytes): (data: Bytes)
    ensures |data| <= |shard|
  {
    if h in index && index[h].size <= |shard| then shard[..index[h].size] else shard
  }

  /** Position `i` is a bad chunk whose rebuilt shard has the right name once trimmed. */
  predicate RebuiltAt(sha: Sha, index: Index, members: seq<Hash>, bad: set<Hash>, shards: seq<Bytes>, i: nat) {
    && i < |members| && i < |shards| && members[i] in bad
    && HashOfChunk(sha, Trimmed(index, members[i], shards[i])) == members[i]
  }

  /** Packs and index after the first `n` members: every rebuilt chunk has got a pack of its own, in member order. */
  ghost function WrittenState(sha: Sha, packs: Packs, index: Index, index0: Index, members: seq<Hash>, bad: set<Hash>,
                              shards: seq<Bytes>, n: nat): (Packs, Index)
    requires n <= |members|
  {
    if n == 0 then (packs, index)
    else
      var before := WrittenState(sha, packs, index, index0, members, bad, shards, n - 1);
      if RebuiltAt(sha, index0, members, bad, shards, n - 1) then
        Written(sha, before.0, before.1, members[n - 1], Trimmed(index0, members[n - 1], shards[n - 1]))
      else before
  }

  lemma WrittenStep(sha: Sha, packs: Packs, index: Index, index0: Index, members: seq<Hash>, bad: set<Hash>, shards: seq<Bytes>, n: nat)
    requires n < |members|
    ensures WrittenState(sha, packs, index, index0, members, bad, shards, n + 1) ==
            (var before := WrittenState(sha, packs, index, index0, members, bad, shards, n);
             if RebuiltAt(sha, index0, members, bad, shards, n) then
               Written(sha, before.0, before.1, members[n], Trimmed(index0, members[n], shards[n]))
             else before)
  {
    hide Written, RebuiltAt, Trimmed;
  }

  /** The write-back loop after `n` members. */
  ghost predicate WrittenBack(sha: Sha, p0: Packs, i0: Index, h0: seq<Image>, index0: Index, members: seq<Hash>, bad: set<Hash>,
                              shards: seq<Bytes>, packs: Packs, index: Index, history: seq<Image>, n: nat)
    requires n <= |members|
  {
    && Progress(sha, p0, i0, packs, index, bad)
    && Keeps(sha, p0, i0, h0, history)
    && (packs, index) == WrittenState(sha, p0, i0, index0, members, bad, shards, n)
  }

  lemma NothingWrittenBack(sha: Sha, packs: Packs, index: Index, history: seq<Image>, index0: Index, members: seq<Hash>,
                           bad: set<Hash>, shards: seq<Bytes>)
    ensures WrittenBack(sha, packs, index, history, index0, members, bad, shards, packs, index, history, 0)
  {
    hide Progress, Keeps;
    NoProgress(sha, packs, index, bad);
    KeepsNow(sha, packs, index, history);
  }

  /** One rebuilt chunk, if its name checks out. */
  method WriteOneBack(repo: Repository, index0: Index, members: seq<Hash>, bad: set<Hash>, shards: seq<Bytes>, idx: nat,
                      ghost p0: Packs, ghost i0: Index, ghost h0: seq<Image>) returns (written: bool)
    requires repo.Consistent() && SavedIndex(repo.disk.index) == repo.index
    requires idx < |members| && idx < |shards| && members[idx] in bad && |shards[idx]| < MAX_STORED
    requires WrittenBack(repo.sha, p0, i0, h0, index0, members, bad, shards, repo.disk.packs, repo.index, repo.disk.history, idx)
    modifies repo`index, repo.disk`packs, repo.disk`index, repo.disk`history
    ensures repo.Consistent() && SavedIndex(repo.disk.index) == repo.index
    ensures WrittenBack(repo.sha, p0, i0, h0, index0, members, bad, shards, repo.disk.packs, repo.index, repo.disk.history, idx + 1)
  {
    hide HashOfChunk, Intact, Trimmed, Progress, Written, WrittenState, Repository.Consistent, Keeps;
    ghost var p1, i1, h1, saved := repo.disk.packs, repo.index, repo.disk.history, repo.disk.index;
    var data := Trimmed(index0, members[idx], shards[idx]);
    written := HashOfChunk(repo.sha, data) == members[idx];
    WrittenStep(repo.sha, p0, i0, index0, members, bad, shards, idx);
    if written {
      var r := WriteRepairedChunk(repo, members[idx], data);
      WroteKeepsImages(repo.sha, p1, i1, members[idx], data, repo.disk.packs, repo.index, saved, repo.disk.snapshots,
                       h1, repo.disk.history);
      KeepsChains(repo.sha, p0, i0, p1, i1, bad, h0, h1, repo.disk.history);
      OneWritten(repo.sha, p0, i0, p1, i1, members[idx], data, bad, repo.disk.packs, repo.index);
    }
  }

  lemma OneWritten(sha: Sha, p0: Packs, i0: Index, p1: Packs, i1: Index, h: Hash, data: Bytes, bad: set<Hash>, p2: Packs, i2: Index)
    requires h in bad && HashOfChunk(sha, data) == h && |data| < MAX_STORED
    requires Progress(sha, p0, i0, p1, i1, bad) && (p2, i2) == Written(sha, p1, i1, h, data)
    ensures Progress(sha, p0, i0, p2, i2, bad) && Progress(sha, p1, i1, p2, i2, bad)
    ensures h in i1 ==> Intact(sha, p2, i2, h)
  {
    hide *;
    WroteProgress(sha, p1, i1, h, data, p2, i2);
    TouchLess(sha, p1, i1, p2, i2, {h}, bad);
    ProgressChains(sha, p0, i0, p1, i1, p2, i2, bad);
  }

  /** Write every rebuilt bad chunk whose name checks out. */
  method WriteBack(repo: Repository, index0: Index, members: seq<Hash>, bad: set<Hash>, shards: seq<Bytes>)
    returns (repaired: nat)
    requires repo.Consistent() && SavedIndex(repo.disk.index) == repo.index
    requires forall i :: 0 <= i < |shards| ==> |shards[i]| < MAX_STORED
    modifies repo`index, repo.disk`packs, repo.disk`index, repo.disk`history
    ensures repo.Consistent() && SavedIndex(repo.disk.index) == repo.index
    ensures WrittenBack(repo.sha, old(repo.disk.packs), old(repo.index), old(repo.disk.history), index0, members, bad, shards,
                        repo.disk.packs, repo.index, repo.disk.history, |members|)
  {
    hide WrittenBack, Repository.Consistent;
    repaired := 0;
    ghost var p0, i0, h0 := repo.disk.packs, repo.index, repo.disk.history;
    NothingWrittenBack(repo.sha, p0, i0, h0, index0, members, bad, shards);
    for idx := 0 to |members|
      invariant repo.Consistent() && SavedIndex(repo.disk.index) == repo.index
      invariant WrittenBack(repo.sha, p0, i0, h0, index0, members, bad, shards, repo.disk.packs, repo.index, repo.disk.history, idx)
    {
      if members[idx] in bad && idx < |shards| {
        var written := WriteOneBack(repo, index0, members, bad, shards, idx, p0, i0, h0);
        repaired := repaired + if written then 1 else 0;
      } else {
        SkippedBack(repo.sha, p0, i0, h0, index0, members, bad, shards, repo.disk.packs, repo.index, repo.disk.history, idx);
      }
    }
  }

  lemma SkippedBack(sha: Sha, p0: Packs, i0: Index, h0: seq<Image>, index0: Index, members: seq<Hash>, bad: set<Hash>,
                    shards: seq<Bytes>, packs: Packs, index: Index, history: seq<Image>, n: nat)
    requires n < |members| && !(members[n] in bad && n < |shards|)
    requires WrittenBack(sha, p0, i0, h0, index0, members, bad, shards, packs, index, history, n)
    ensures WrittenBack(sha, p0, i0, h0, index0, members, bad, shards, packs, index, history, n + 1)
  {
    hide Progress, Keeps, WrittenState, Written, Trimmed, HashOfChunk;
    WrittenStep(sha, p0, i0, index0, members, bad, shards, n);
  }

  ghost predicate RepairedUpTo(sha: Sha, index0: Index, members: seq<Hash>, bad: set<Hash>, shards: seq<Bytes>,
                               packs: Packs, index: Index, n: nat)
    requires n <= |members|
  {
    forall i :: 0 <= i < n && RebuiltAt(sha, index0, members, bad, shards, i) && members[i] in index ==>
      Intact(sha, packs, index, members[i])
  }

  ghost predicate GoodSoFar(sha: Sha, packs: Packs, index: Index, index0: Index, members: seq<Hash>, bad: set<Hash>,
                            shards: seq<Bytes>, n: nat)
    requires n <= |members|
  {
    var now := WrittenState(sha, packs, index, index0, members, bad, shards, n);
    && Progress(sha, packs, index, now.0, now.1, bad)
    && RepairedUpTo(sha, index0, members, bad, shards, now.0, now.1, n)
  }

  /** After the write-back every rebuilt chunk of the index is readable. */
  lemma WrittenRepairs(sha: Sha, packs: Packs, index: Index, index0: Index, members: seq<Hash>, bad: set<Hash>, shards: seq<Bytes>)
    requires forall i :: 0 <= i < |shards| ==> |shards[i]| < MAX_STORED
    ensures GoodSoFar(sha, packs, index, index0, members, bad, shards, |members|)
  {
    hide GoodSoFar;
    NothingWritten(sha, packs, index, index0, members, bad, shards);
    for n := 0 to |members|
      invariant GoodSoFar(sha, packs, index, index0, members, bad, shards, n)
    {
      GoodStep(sha, packs, index, index0, members, bad, shards, n);
    }
  }

  lemma GoodStep(sha: Sha, packs: Packs, index: Index, index0: Index, members: seq<Hash>, bad: set<Hash>, shards: seq<Bytes>, n: nat)
    requires n < |members| && forall i :: 0 <= i < |shards| ==> |shards[i]| < MAX_STORED
    requires GoodSoFar(sha, packs, index, index0, members, bad, shards, n)
    ensures GoodSoFar(sha, packs, index, index0, members, bad, shards, n + 1)
  {
    hide WrittenState, Progress, RepairedUpTo, RebuiltAt, Trimmed, Written;
    var now := WrittenState(sha, packs, index, index0, members, bad, shards, n);
    var next := WrittenState(sha, packs, index, index0, members, bad, shards, n + 1);
    WrittenStep(sha, packs, index, index0, members, bad, shards, n);
    OneMore(sha, index0, members, bad, shards, packs, index, now.0, now.1, next.0, next.1, n);
  }

  lemma NothingWritten(sha: Sha, packs: Packs, index: Index, index0: Index, members: seq<Hash>, bad: set<Hash>, shards: seq<Bytes>)
    ensures GoodSoFar(sha, packs, index, index0, members, bad, shards, 0)
  {
    hide Progress, Intact;
    NoProgress(sha, packs, index, bad);
  }

  lemma OneMore(sha: Sha, index0: Index, members: seq<Hash>, bad: set<Hash>, shards: seq<Bytes>, p0: Packs, i0: Index,
                p1: Packs, i1: Index, p2: Packs, i2: Index, n: nat)
    requires n < |members| && forall i :: 0 <= i < |shards| ==> |shards[i]| < MAX_STORED
    requires Progress(sha, p0, i0, p1, i1, bad) && RepairedUpTo(sha, index0, members, bad, shards, p1, i1, n)
    requires (p2, i2) == if RebuiltAt(sha, index0, members, bad, shards, n) then
                           Written(sha, p1, i1, members[n], Trimmed(index0, members[n], shards[n]))
                         else (p1, i1)
    ensures Progress(sha, p0, i0, p2, i2, bad) && RepairedUpTo(sha, index0, members, bad, shards, p2, i2, n + 1)
  {
    hide HashOfChunk, Intact, Trimmed, Written, Progress;
    if RebuiltAt(sha, index0, members, bad, shards, n) {
      var data := Trimmed(index0, members[n], shards[n]);
      OneWritten(sha, p0, i0, p1, i1, members[n], data, bad, p2, i2);
      forall i | 0 <= i < n + 1 && RebuiltAt(sha, index0, members, bad, shards, i) && members[i] in i2
        ensures Intact(sha, p2, i2, members[i])
      {
        StaysReadable(sha, p1, i1, p2, i2, bad, members[i]);
      }
    }
  }

  lemma StaysReadable(sha: Sha, p1: Packs, i1: Index, p2: Packs, i2: Index, touched: set<Hash>, h: Hash)
    requires Progress(sha, p1, i1, p2, i2, touched)
    ensures h in i1 <==> h in i2
    ensures Intact(sha, p1, i1, h) ==> Intact(sha, p2, i2, h)
  {
    hide ReadStored, Extends, AddedSingles;
    if Intact(sha, p1, i1, h) {
      IntactIsIndexed(sha, p1, i1, h);
      assert EntryKept(sha, p1, i1, p2, i2, touched, h);
    }
  }

  // ── One group's turn ─────────────────────────────────────────────────────

  /**
   What the turn of `g` makes of `packs` and `index`: nothing when too few members are readable by the
   index `index0` of the start or the codec refuses; otherwise every rebuilt chunk on its list is written.
   */
  ghost predicate Turn(sha: Sha, packs: Packs, index: Index, index0: Index, g: ParityGroup, d: nat, p: nat, bad: set<Hash>,
                       packs': Packs, index': Index) {
    var members := Members(g);
    var available := Available(sha, packs, index0, members, bad, |members|);
    if |available| < |g.dataChunkHashes| then (packs', index') == (packs, index)
    else exists r: Result<seq<Vec>, ParityError> :: TurnAnswer(sha, packs, index, index0, g, d, p, bad, available, r, packs', index')
  }

  /** The codec answers `r`, and this is what the turn does about it. */
  ghost predicate TurnAnswer(sha: Sha, packs: Packs, index: Index, index0: Index, g: ParityGroup, d: nat, p: nat, bad: set<Hash>,
                             available: seq<(nat, Bytes)>, r: Result<seq<Vec>, ParityError>, packs': Packs, index': Index) {
    && RepairAnswer(available, d, p, |Members(g)|, g.chunkSize, r)
    && (packs', index') == match r
                           case Err(_) => (packs, index)
                           case Ok(shards) => WrittenState(sha, packs, index, index0, Members(g), bad, shards, |Members(g)|)
  }

  method RepairGroup(repo: Repository, manager: ParityManager, index0: Index, g: ParityGroup, bad: set<Hash>) returns (repaired: nat)
    requires repo.Consistent() && SavedIndex(repo.disk.index) == repo.index
    requires manager.Valid() && g.chunkSize < MAX_STORED
    modifies repo`index, repo.disk`packs, repo.disk`index, repo.disk`history
    ensures repo.Consistent() && SavedIndex(repo.disk.index) == repo.index
    ensures Turn(repo.sha, old(repo.disk.packs), old(repo.index), index0, g, manager.rs.dataShards, manager.rs.parityShards, bad,
                 repo.disk.packs, repo.index)
    ensures Progress(repo.sha, old(repo.disk.packs), old(repo.index), repo.disk.packs, repo.index, bad)
    ensures Keeps(repo.sha, old(repo.disk.packs), old(repo.index), old(repo.disk.history), repo.disk.history)
  {
    hide *;
    ghost var packs, index := repo.disk.packs, repo.index;
    ghost var d, p := manager.rs.dataShards, manager.rs.parityShards;
    repaired := 0;
    NoProgress(repo.sha, packs, index, bad);
    KeepsNow(repo.sha, packs, index, repo.disk.history);
    MembersAreAll(g);
    ManagerFacts(manager);
    var members := Members(g);
    var total := |g.dataChunkHashes| + |g.parityChunkHashes|;
    var available := ReadMembers(repo.sha, repo.disk.packs, index0, members, bad);
    if |available| < |g.dataChunkHashes| {
      TurnSkipped(repo.sha, packs, index, index0, g, d, p, bad, available);
      return;
    }
    var r := manager.RepairChunks(available, total, g.chunkSize);
    match r {
      case Err(_) =>
        TurnAnswered(repo.sha, packs, index, index0, g, d, p, bad, available, r, packs, index);
      case Ok(shards) =>
        AnswerLengths(available, d, p, total, g.chunkSize, r);
        ghost var history := repo.disk.history;
        repaired := WriteBack(repo, index0, members, bad, shards);
        WrittenBackParts(repo.sha, packs, index, history, index0, members, bad, shards, repo.disk.packs, repo.index,
                         repo.disk.history);
        TurnAnswered(repo.sha, packs, index, index0, g, d, p, bad, available, r, repo.disk.packs, repo.index);
    }
  }

  lemma TurnSkipped(sha: Sha, packs: Packs, index: Index, index0: Index, g: ParityGroup, d: nat, p: nat, bad: set<Hash>,
                    available: seq<(nat, Bytes)>)
    requires available == Available(sha, packs, index0, Members(g), bad, |Members(g)|) && |available| < |g.dataChunkHashes|
    ensures Turn(sha, packs, index, index0, g, d, p, bad, packs, index)
  {
    hide Available;
  }

  lemma TurnAnswered(sha: Sha, packs: Packs, index: Index, index0: Index, g: ParityGroup, d: nat, p: nat, bad: set<Hash>,
                     available: seq<(nat, Bytes)>, r: Result<seq<Vec>, ParityError>, packs': Packs, index': Index)
    requires available == Available(sha, packs, index0, Members(g), bad, |Members(g)|) && |available| >= |g.dataChunkHashes|
    requires RepairAnswer(available, d, p, |Members(g)|, g.chunkSize, r)
    requires r.Err? ==> (packs', index') == (packs, index)
    requires r.Ok? ==> (packs', index') == WrittenState(sha, packs, index, index0, Members(g), bad, r.value, |Members(g)|)
    ensures Turn(sha, packs, index, index0, g, d, p, bad, packs', index')
  {
    hide Available, RepairAnswer, WrittenState, Members;
    assert TurnAnswer(sha, packs, index, index0, g, d, p, bad, available, r, packs', index');
  }

  lemma AnswerLengths(available: seq<(nat, Vec)>, d: nat, p: nat, total: nat, len: nat, r: Result<seq<Vec>, ParityError>)
    requires d > 0 && RepairAnswer(available, d, p, total, len, r) && r.Ok?
    ensures forall i :: 0 <= i < |r.value| ==> |r.value[i]| <= len
  {
    hide RepairSpec;
    RepairLengths(available, d, p, len, r);
  }

  lemma WrittenBackParts(sha: Sha, p0: Packs, i0: Index, h0: seq<Image>, index0: Index, members: seq<Hash>, bad: set<Hash>,
                         shards: seq<Bytes>, packs: Packs, index: Index, history: seq<Image>)
    requires WrittenBack(sha, p0, i0, h0, index0, members, bad, shards, packs, index, history, |members|)
    ensures Progress(sha, p0, i0, packs, index, bad) && Keeps(sha, p0, i0, h0, history)
    ensures (packs, index) == WrittenState(sha, p0, i0, index0, members, bad, shards, |members|)
  {
    hide Progress, Keeps, WrittenState;
  }

  lemma MembersAreAll(g: ParityGroup)
    ensures |Members(g)| == |g.dataChunkHashes| + |g.parityChunkHashes|
  {
  }

  lemma ManagerFacts(manager: ParityManager)
    requires manager.Valid()
    ensures manager.rs.dataShards > 0
  {
  }

  // ── When a turn restores a chunk ─────────────────────────────────────────

  /** `g` records `chunks`, and no readable member outside `bad` has other contents of the same name. */
  ghost predicate Genuine(sha: Sha, packs: Packs, index: Index, g: ParityGroup, chunks: seq<Vec>, d: nat, p: nat, bad: set<Hash>) {
    Records(sha, g, chunks, d, p) && NoImpostor(sha, packs, index, g, chunks, d, bad)
  }

  /** Member `i` is a bad chunk of the index with the right recorded size. */
  ghost predicate Wanted(index: Index, g: ParityGroup, chunks: seq<Vec>, d: nat, bad: set<Hash>, i: nat) {
    && |chunks| == d && i < |Members(g)|
    && Members(g)[i] in bad && Members(g)[i] in index
    && index[Members(g)[i]].size == |MemberChunk(chunks, d, g.chunkSize, i)|
  }

  /** What the codec gives back passes every test on the way to the write. */
  lemma AnswerIsRebuilt(sha: Sha, packs: Packs, index: Index, g: ParityGroup, chunks: seq<Vec>, d: nat, p: nat,
                        bad: set<Hash>, r: Result<seq<Vec>, ParityError>, i: nat)
    requires Genuine(sha, packs, index, g, chunks, d, p, bad) && Wanted(index, g, chunks, d, bad, i)
    requires RepairSpec(Available(sha, packs, index, Members(g), bad, |Members(g)|), d, p, g.chunkSize, r)
    ensures r.Ok? <==> Solvable(TurnFlags(sha, packs, index, Members(g), bad), d)
    ensures r.Ok? ==> RebuiltAt(sha, index, Members(g), bad, r.value, i)
    ensures r.Ok? ==> Trimmed(index, Members(g)[i], r.value[i]) == MemberChunk(chunks, d, g.chunkSize, i)
  {
    hide Available, Intact, HashOfChunk, MemberChunk, Records, NoImpostor, RepairSpec, TurnFlags, Solvable, Members;
    GroupComesBack(sha, packs, index, g, chunks, d, p, bad, r);
    MemberCount(sha, g, chunks, d, p);
    MembersAreAll(g);
    MemberNamed(sha, g, chunks, d, p, i);
  }

  /** A recorded group has the right total, and fewer readable members than `d` are not enough. */
  lemma TurnIsTried(sha: Sha, packs: Packs, index: Index, g: ParityGroup, chunks: seq<Vec>, d: nat, p: nat, bad: set<Hash>,
                    r: Result<seq<Vec>, ParityError>)
    requires Genuine(sha, packs, index, g, chunks, d, p, bad)
    ensures |Members(g)| == d + p && |g.dataChunkHashes| == d > 0
    ensures var available := Available(sha, packs, index, Members(g), bad, |Members(g)|);
            && (RepairAnswer(available, d, p, |Members(g)|, g.chunkSize, r) ==> RepairSpec(available, d, p, g.chunkSize, r))
            && (|available| < d ==> !Solvable(TurnFlags(sha, packs, index, Members(g), bad), d))
  {
    hide Available, Intact, HashOfChunk, Records, NoImpostor, Injective, UsedIndices, FirstOutOfRange, IndicesWhere, RepairSpec, Members;
    MemberCount(sha, g, chunks, d, p);
    MembersAreAll(g);
    PlacedFlags(sha, packs, index, Members(g), bad, g.chunkSize);
  }

  /** A wanted chunk is readable after the turn when the members collected in it are enough for the codec. */
  lemma TurnRestores(sha: Sha, packs: Packs, index: Index, index0: Index, g: ParityGroup, chunks: seq<Vec>, d: nat, p: nat,
                     bad: set<Hash>, packs': Packs, index': Index, i: nat)
    requires Turn(sha, packs, index, index0, g, d, p, bad, packs', index') && index.Keys == index0.Keys
    requires Genuine(sha, packs, index0, g, chunks, d, p, bad) && Wanted(index0, g, chunks, d, bad, i) && g.chunkSize < MAX_STORED
    ensures i < |Members(g)|
    ensures if Solvable(TurnFlags(sha, packs, index0, Members(g), bad), d) then Intact(sha, packs', index', Members(g)[i])
            else (packs', index') == (packs, index)
  {
    hide *;
    WantedIsMember(index0, g, chunks, d, bad, i);
    var available := Available(sha, packs, index0, Members(g), bad, |Members(g)|);
    TurnIsTried(sha, packs, index0, g, chunks, d, p, bad, Err(WrongTotal(0, 0)));
    if |available| < d {
      TooFewRead(sha, packs, index, index0, g, d, p, bad, packs', index');
    } else {
      var r := TurnHasAnswer(sha, packs, index, index0, g, d, p, bad, packs', index');
      TurnIsTried(sha, packs, index0, g, chunks, d, p, bad, r);
      AnswerIsRebuilt(sha, packs, index0, g, chunks, d, p, bad, r, i);
      if r.Ok? {
        RepairLengths(available, d, p, g.chunkSize, r);
        WrittenRepairs(sha, packs, index, index0, Members(g), bad, r.value);
        IsRepaired(sha, packs, index, index0, Members(g), bad, r.value, packs', index', i);
      }
    }
  }

  lemma IsRepaired(sha: Sha, packs: Packs, index: Index, index0: Index, members: seq<Hash>, bad: set<Hash>, shards: seq<Bytes>,
                   packs': Packs, index': Index, i: nat)
    requires GoodSoFar(sha, packs, index, index0, members, bad, shards, |members|)
    requires (packs', index') == WrittenState(sha, packs, index, index0, members, bad, shards, |members|)
    requires RebuiltAt(sha, index0, members, bad, shards, i) && members[i] in index0 && index.Keys == index0.Keys
    ensures Intact(sha, packs', index', members[i])
  {
    hide Intact, EntryKept, Extends, AddedSingles, Trimmed, HashOfChunk, WrittenState;
  }

  lemma TooFewRead(sha: Sha, packs: Packs, index: Index, index0: Index, g: ParityGroup, d: nat, p: nat, bad: set<Hash>,
                   packs': Packs, index': Index)
    requires Turn(sha, packs, index, index0, g, d, p, bad, packs', index')
    requires |Available(sha, packs, index0, Members(g), bad, |Members(g)|)| < |g.dataChunkHashes|
    ensures (packs', index') == (packs, index)
  {
    hide Available, TurnAnswer;
  }

  lemma TurnHasAnswer(sha: Sha, packs: Packs, index: Index, index0: Index, g: ParityGroup, d: nat, p: nat, bad: set<Hash>,
                      packs': Packs, index': Index) returns (r: Result<seq<Vec>, ParityError>)
    requires Turn(sha, packs, index, index0, g, d, p, bad, packs', index')
    requires |Available(sha, packs, index0, Members(g), bad, |Members(g)|)| >= |g.dataChunkHashes|
    ensures RepairAnswer(Available(sha, packs, index0, Members(g), bad, |Members(g)|), d, p, |Members(g)|, g.chunkSize, r)
    ensures r.Err? ==> (packs', index') == (packs, index)
    ensures r.Ok? ==> (packs', index') == WrittenState(sha, packs, index, index0, Members(g), bad, r.value, |Members(g)|)
  {
    hide Available, RepairAnswer, WrittenState, Members;
    var available := Available(sha, packs, index0, Members(g), bad, |Members(g)|);
    r :| TurnAnswer(sha, packs, index, index0, g, d, p, bad, available, r, packs', index');
  }

  /** When it is the only chunk on the list, the turn writes that chunk and nothing else. */
  lemma TurnWritesOne(sha: Sha, packs: Packs, index: Index, index0: Index, g: ParityGroup, chunks: seq<Vec>, d: nat, p: nat,
                      bad: set<Hash>, packs': Packs, index': Index, i: nat)
    requires Turn(sha, packs, index, index0, g, d, p, bad, packs', index')
    requires Genuine(sha, packs, index0, g, chunks, d, p, bad) && Wanted(index0, g, chunks, d, bad, i)
    requires i < |Members(g)| && forall k :: 0 <= k < |Members(g)| && k != i ==> Members(g)[k] !in bad
    requires Solvable(TurnFlags(sha, packs, index0, Members(g), bad), d)
    ensures |chunks| == d
    ensures (packs', index') == Written(sha, packs, index, Members(g)[i], MemberChunk(chunks, d, g.chunkSize, i))
  {
    hide Turn, Genuine, Members, Solvable, TurnFlags, Available, RepairAnswer, RepairSpec, RebuiltAt, Trimmed, WrittenState, Written,
      MemberChunk;
    var available := Available(sha, packs, index0, Members(g), bad, |Members(g)|);
    TurnIsTried(sha, packs, index0, g, chunks, d, p, bad, Err(WrongTotal(0, 0)));
    var r := TurnHasAnswer(sha, packs, index, index0, g, d, p, bad, packs', index');
    TurnIsTried(sha, packs, index0, g, chunks, d, p, bad, r);
    AnswerIsRebuilt(sha, packs, index0, g, chunks, d, p, bad, r, i);
    OnlyOneWritten(sha, packs, index, index0, Members(g), bad, r.value, i);
  }

  lemma OnlyOneWritten(sha: Sha, packs: Packs, index: Index, index0: Index, members: seq<Hash>, bad: set<Hash>, shards: seq<Bytes>, i: nat)
    requires RebuiltAt(sha, index0, members, bad, shards, i)
    requires forall k :: 0 <= k < |members| && k != i ==> members[k] !in bad
    ensures i < |members| && i < |shards|
    ensures WrittenState(sha, packs, index, index0, members, bad, shards, |members|) ==
            Written(sha, packs, index, members[i], Trimmed(index0, members[i], shards[i]))
  {
    hide Written, Trimmed, HashOfChunk, WrittenState;
    WrittenOnce(sha, packs, index, index0, members, bad, shards, i, |members|,
                Written(sha, packs, index, members[i], Trimmed(index0, members[i], shards[i])));
  }

  lemma {:induction false} WrittenOnce(sha: Sha, packs: Packs, index: Index, index0: Index, members: seq<Hash>, bad: set<Hash>,
                                       shards: seq<Bytes>, i: nat, n: nat, after: (Packs, Index))
    requires RebuiltAt(sha, index0, members, bad, shards, i) && n <= |members|
    requires after == Written(sha, packs, index, members[i], Trimmed(index0, members[i], shards[i]))
    requires forall k :: 0 <= k < |members| && k != i ==> members[k] !in bad
    ensures WrittenState(sha, packs, index, index0, members, bad, shards, n) == if n <= i then (packs, index) else after
  {
    hide Written, Trimmed, HashOfChunk;
    if n > 0 {
      WrittenOnce(sha, packs, index, index0, members, bad, shards, i, n - 1, after);
    }
  }

  /** Whatever a turn does is progress. */
  lemma TurnIsProgress(sha: Sha, packs: Packs, index: Index, index0: Index, g: ParityGroup, d: nat, p: nat, bad: set<Hash>,
                       packs': Packs, index': Index)
    requires Turn(sha, packs, index, index0, g, d, p, bad, packs', index') && d > 0 && g.chunkSize < MAX_STORED
    ensures Progress(sha, packs, index, packs', index', bad)
  {
    hide *;
    NoProgress(sha, packs, index, bad);
    var available := Available(sha, packs, index0, Members(g), bad, |Members(g)|);
    if |available| < |g.dataChunkHashes| {
      TooFewRead(sha, packs, index, index0, g, d, p, bad, packs', index');
    } else {
      var r := TurnHasAnswer(sha, packs, index, index0, g, d, p, bad, packs', index');
      if r.Ok? {
        AnswerLengths(available, d, p, |Members(g)|, g.chunkSize, r);
        WrittenRepairs(sha, packs, index, index0, Members(g), bad, r.value);
        GoodIsProgress(sha, packs, index, index0, Members(g), bad, r.value, packs', index');
      }
    }
  }

  lemma GoodIsProgress(sha: Sha, packs: Packs, index: Index, index0: Index, members: seq<Hash>, bad: set<Hash>, shards: seq<Bytes>,
                       packs': Packs, index': Index)
    requires GoodSoFar(sha, packs, index, index0, members, bad, shards, |members|)
    requires (packs', index') == WrittenState(sha, packs, index, index0, members, bad, shards, |members|)
    ensures Progress(sha, packs, index, packs', index', bad)
  {
    hide Progress, RepairedUpTo, WrittenState;
  }

  /** At the turn's own state this is exact: an unreadable wanted chunk comes back if and only if that is so. */
  lemma TurnRestoresIff(sha: Sha, packs: Packs, index: Index, index0: Index, g: ParityGroup, chunks: seq<Vec>, d: nat, p: nat,
                        bad: set<Hash>, packs': Packs, index': Index, i: nat)
    requires Turn(sha, packs, index, index0, g, d, p, bad, packs', index') && index.Keys == index0.Keys
    requires Genuine(sha, packs, index0, g, chunks, d, p, bad) && Wanted(index0, g, chunks, d, bad, i) && g.chunkSize < MAX_STORED
    requires i < |Members(g)| && !Intact(sha, packs, index, Members(g)[i])
    ensures Intact(sha, packs', index', Members(g)[i]) <==> Solvable(TurnFlags(sha, packs, index0, Members(g), bad), d)
  {
    hide *;
    TurnRestores(sha, packs, index, index0, g, chunks, d, p, bad, packs', index', i);
  }

  lemma WantedIsMember(index: Index, g: ParityGroup, chunks: seq<Vec>, d: nat, bad: set<Hash>, i: nat)
    requires Wanted(index, g, chunks, d, bad, i)
    ensures i < |Members(g)| && Members(g)[i] in index
  {
  }

  // ── The whole scrub ──────────────────────────────────────────────────────

  /** The place that the index names is a pack on disk, or an id that new packs will not get. */
  predicate Settled(packs: Packs, index: Index, h: Hash) {
    h in index ==> index[h].packId in packs || !AboveAll(packs, index[h].packId)
  }

  /** The scrub looks for `h` in the turn of `g`. */
  predicate TurnOf(groups: seq<ParityGroup>, g: ParityGroup, h: Hash) {
    FindGroupByHash(groups, h).Some? && FindGroupByHash(groups, h).value.groupId == g.groupId
  }

  /**
   Packs written in the turns of other groups cannot change whether `g`'s turn collects `h`: it is readable
   already, or is not read because it is one of those to repair, or its place is settled.
   */
  predicate SteadyMember(sha: Sha, packs: Packs, index: Index, groups: seq<ParityGroup>, g: ParityGroup, h: Hash) {
    Intact(sha, packs, index, h) || TurnOf(groups, g, h) || Settled(packs, index, h)
  }

  /** The members that `g`'s turn may come to collect: all that are readable before the scrub, and any others that are not steady. */
  ghost predicate Between(sha: Sha, packs: Packs, index: Index, groups: seq<ParityGroup>, g: ParityGroup, flags: seq<bool>) {
    && |flags| == |Members(g)|
    && forall i :: 0 <= i < |flags| ==> MayCollect(sha, packs, index, groups, g, Members(g)[i], flags[i])
  }

  predicate MayCollect(sha: Sha, packs: Packs, index: Index, groups: seq<ParityGroup>, g: ParityGroup, h: Hash, collected: bool) {
    && (Intact(sha, packs, index, h) ==> collected)
    && (collected ==> Intact(sha, packs, index, h) || !SteadyMember(sha, packs, index, groups, g, h))
  }

  /** Whatever happens in the turns before, the codec will be able to rebuild `g`. */
  ghost predicate Robust(sha: Sha, packs: Packs, index: Index, groups: seq<ParityGroup>, g: ParityGroup, d: nat) {
    forall flags: seq<bool> :: Between(sha, packs, index, groups, g, flags) ==> Solvable(flags, d)
  }

  lemma AbsentIsSettled(packs: Packs, index: Index, h: Hash)
    requires h !in index
    ensures Settled(packs, index, h)
  {
  }

  /** Reading a settled chunk by the old index is not disturbed by packs written since. */
  lemma SettledReads(sha: Sha, packs: Packs, index: Index, packs': Packs, h: Hash)
    requires Settled(packs, index, h) && Extends(packs', packs) && AddedSingles(sha, packs, packs')
    ensures ReadStored(sha, packs', index, h) == ReadStored(sha, packs, index, h)
  {
    hide ReadChunkAt, HashOfChunk, SingleChunkPack;
    if h in index {
      var id := index[h].packId;
      assert id in packs' && id !in packs ==> AboveAll(packs, id);
    }
  }

  /** What `g`'s turn collects is between those bounds. */
  lemma TurnIsBetween(sha: Sha, packs: Packs, index: Index, packs': Packs, groups: seq<ParityGroup>, g: ParityGroup,
                      mine: set<Hash>)
    requires Extends(packs', packs) && AddedSingles(sha, packs, packs')
    requires forall h :: h in mine ==> !Intact(sha, packs, index, h)
    requires forall h :: TurnOf(groups, g, h) && h in index && !Intact(sha, packs, index, h) ==> h in mine
    ensures Between(sha, packs, index, groups, g, TurnFlags(sha, packs', index, Members(g), mine))
  {
    hide ReadStored, Extends, AddedSingles, Members, TurnOf, Settled, Intact, SteadyMember;
    forall i | 0 <= i < |Members(g)|
      ensures MayCollect(sha, packs, index, groups, g, Members(g)[i],
                         Members(g)[i] !in mine && Intact(sha, packs', index, Members(g)[i]))
    {
      CollectedOne(sha, packs, index, packs', groups, g, mine, Members(g)[i]);
    }
  }

  lemma CollectedOne(sha: Sha, packs: Packs, index: Index, packs': Packs, groups: seq<ParityGroup>, g: ParityGroup,
                     mine: set<Hash>, h: Hash)
    requires Extends(packs', packs) && AddedSingles(sha, packs, packs')
    requires h in mine ==> !Intact(sha, packs, index, h)
    requires TurnOf(groups, g, h) && h in index && !Intact(sha, packs, index, h) ==> h in mine
    ensures MayCollect(sha, packs, index, groups, g, h, h !in mine && Intact(sha, packs', index, h))
  {
    hide ReadStored, Extends, AddedSingles, TurnOf, Settled;
    if Intact(sha, packs, index, h) {
      IntactReads(sha, packs, index, packs', h);
    } else if h !in index {
      AbsentIsSettled(packs, index, h);
      SettledReads(sha, packs, index, packs', h);
    } else if Settled(packs, index, h) {
      SettledReads(sha, packs, index, packs', h);
    }
  }

  /** Contents that are named well at the end were so at every turn. */
  lemma GenuineBefore(sha: Sha, packs: Packs, index: Index, packs': Packs, g: ParityGroup, chunks: seq<Vec>, d: nat, p: nat,
                       bad: set<Hash>)
    requires Genuine(sha, packs', index, g, chunks, d, p, {}) && Extends(packs', packs)
    ensures Genuine(sha, packs, index, g, chunks, d, p, bad)
  {
    hide ReadStored, Extends, Members, Records, SameUnlessCollision, MemberChunk;
    MemberCount(sha, g, chunks, d, p);
    forall i | 0 <= i < |Members(g)| && Members(g)[i] !in bad && Intact(sha, packs, index, Members(g)[i])
      ensures SameUnlessCollision(sha, ReadStored(sha, packs, index, Members(g)[i]).value, MemberChunk(chunks, d, g.chunkSize, i))
    {
      IntactReads(sha, packs, index, packs', Members(g)[i]);
    }
  }

  /** Whatever chunks the group records, the wanted ones are readable now. */
  ghost predicate GroupRestored(sha: Sha, index0: Index, g: ParityGroup, d: nat, p: nat, bad: set<Hash>,
                                packs: Packs, index: Index) {
    forall chunks: seq<Vec>, i: nat ::
      Genuine(sha, packs, index0, g, chunks, d, p, {}) && Wanted(index0, g, chunks, d, bad, i) ==>
        Intact(sha, packs, index, Members(g)[i])
  }

  /** The turn of a robust group restores it. */
  lemma RobustIsRestored(sha: Sha, packs0: Packs, index0: Index, groups: seq<ParityGroup>, g: ParityGroup, d: nat, p: nat,
                         bad: set<Hash>, p1: Packs, i1: Index, p2: Packs, i2: Index)
    requires Robust(sha, packs0, index0, groups, g, d) && g.chunkSize < MAX_STORED && i1.Keys == index0.Keys
    requires Between(sha, packs0, index0, groups, g, TurnFlags(sha, p1, index0, Members(g), bad))
    requires Turn(sha, p1, i1, index0, g, d, p, bad, p2, i2) && Extends(p2, p1)
    ensures GroupRestored(sha, index0, g, d, p, bad, p2, i2)
  {
    hide Intact, Genuine, Wanted, Turn, Extends, Between, TurnFlags, Solvable, Members;
    forall chunks: seq<Vec>, i: nat | Genuine(sha, p2, index0, g, chunks, d, p, {}) && Wanted(index0, g, chunks, d, bad, i)
      ensures i < |Members(g)| && Intact(sha, p2, i2, Members(g)[i])
    {
      GenuineBefore(sha, p1, index0, p2, g, chunks, d, p, bad);
      TurnRestores(sha, p1, i1, index0, g, chunks, d, p, bad, p2, i2, i);
    }
  }

  /** Later groups do not undo it. */
  lemma StaysRestored(sha: Sha, index0: Index, g: ParityGroup, d: nat, p: nat, bad: set<Hash>,
                      p1: Packs, i1: Index, p2: Packs, i2: Index, touched: set<Hash>)
    requires GroupRestored(sha, index0, g, d, p, bad, p1, i1) && Progress(sha, p1, i1, p2, i2, touched)
    ensures GroupRestored(sha, index0, g, d, p, bad, p2, i2)
  {
    hide Intact, Genuine, Wanted, Progress, Extends, AddedSingles, Members;
    ProgressExtends(sha, p1, i1, p2, i2, touched);
    forall chunks: seq<Vec>, i: nat | Genuine(sha, p2, index0, g, chunks, d, p, {}) && Wanted(index0, g, chunks, d, bad, i)
      ensures i < |Members(g)| && Intact(sha, p2, i2, Members(g)[i])
    {
      GenuineBefore(sha, p1, index0, p2, g, chunks, d, p, {});
      WantedIsMember(index0, g, chunks, d, bad, i);
      StaysReadable(sha, p1, i1, p2, i2, touched, Members(g)[i]);
    }
  }

  /** Every robust group whose turn has come is restored. */
  ghost predicate AllRestored(sha: Sha, packs0: Packs, index0: Index, groups: seq<ParityGroup>, d: nat, p: nat,
                              todo: map<nat, set<Hash>>, rest: set<nat>, packs: Packs, index: Index) {
    forall id :: id in todo && id !in rest && RobustTurn(sha, packs0, index0, groups, d, id) ==>
      GroupRestored(sha, index0, FindGroup(groups, id).value, d, p, todo[id], packs, index)
  }

  ghost predicate RobustTurn(sha: Sha, packs: Packs, index: Index, groups: seq<ParityGroup>, d: nat, id: nat) {
    FindGroup(groups, id).Some? && Robust(sha, packs, index, groups, FindGroup(groups, id).value, d)
  }

  ghost predicate SubsetsOf(todo: map<nat, set<Hash>>, bad: set<Hash>) {
    forall id :: id in todo ==> todo[id] <= bad
  }

  /** The bad chunks are listed in the turn of the first group that has them. */
  ghost predicate Listed(groups: seq<ParityGroup>, todo: map<nat, set<Hash>>, bad: set<Hash>) {
    forall h :: h in bad && FindGroupByHash(groups, h).Some? ==>
      var id := FindGroupByHash(groups, h).value.groupId; id in todo && h in todo[id]
  }

  /** `bad` are exactly the chunks of the index that cannot be read. */
  ghost predicate IsBad(sha: Sha, packs: Packs, index: Index, bad: set<Hash>) {
    forall h :: h in bad <==> h in index && !Intact(sha, packs, index, h)
  }

  /** A turn in the middle of the scrub collects what it may. */
  lemma TurnCollects(sha: Sha, packs0: Packs, index0: Index, groups: seq<ParityGroup>, todo: map<nat, set<Hash>>, bad: set<Hash>,
                     id: nat, p1: Packs, i1: Index)
    requires id in todo && SubsetsOf(todo, bad) && Listed(groups, todo, bad) && IsBad(sha, packs0, index0, bad)
    requires FindGroup(groups, id).Some? && Progress(sha, packs0, index0, p1, i1, bad)
    ensures var g := FindGroup(groups, id).value;
            Between(sha, packs0, index0, groups, g, TurnFlags(sha, p1, index0, Members(g), todo[id]))
  {
    hide Intact, Extends, AddedSingles, EntryKept, Between, TurnFlags, FindGroup, FindGroupByHash, Members;
    TurnIsBetween(sha, packs0, index0, p1, groups, FindGroup(groups, id).value, todo[id]);
  }

  /** One group's turn in the middle of the scrub. */
  lemma OneGroupTurn(sha: Sha, packs0: Packs, index0: Index, groups: seq<ParityGroup>, d: nat, p: nat, todo: map<nat, set<Hash>>,
                     bad: set<Hash>, id: nat, p1: Packs, i1: Index, p2: Packs, i2: Index)
    requires id in todo && SubsetsOf(todo, bad) && Listed(groups, todo, bad) && IsBad(sha, packs0, index0, bad)
    requires FindGroup(groups, id).Some? && FindGroup(groups, id).value.chunkSize < MAX_STORED
    requires Progress(sha, packs0, index0, p1, i1, bad)
    requires Turn(sha, p1, i1, index0, FindGroup(groups, id).value, d, p, todo[id], p2, i2)
    requires Progress(sha, p1, i1, p2, i2, todo[id])
    ensures RobustTurn(sha, packs0, index0, groups, d, id) ==>
              GroupRestored(sha, index0, FindGroup(groups, id).value, d, p, todo[id], p2, i2)
  {
    hide Progress, SubsetsOf, Listed, IsBad, Turn, Between, TurnFlags, FindGroup, GroupRestored, Robust, Extends;
    if RobustTurn(sha, packs0, index0, groups, d, id) {
      TurnCollects(sha, packs0, index0, groups, todo, bad, id, p1, i1);
      SameKeys(sha, packs0, index0, p1, i1, bad);
      ProgressExtends(sha, p1, i1, p2, i2, todo[id]);
      RobustIsRestored(sha, packs0, index0, groups, FindGroup(groups, id).value, d, p, todo[id], p1, i1, p2, i2);
    }
  }

  lemma OneGroupDone(sha: Sha, packs0: Packs, index0: Index, groups: seq<ParityGroup>, d: nat, p: nat,
                     todo: map<nat, set<Hash>>, rest: set<nat>, bad: set<Hash>, id: nat,
                     p1: Packs, i1: Index, p2: Packs, i2: Index)
    requires id in todo && SubsetsOf(todo, bad)
    requires Progress(sha, packs0, index0, p1, i1, bad) && Progress(sha, p1, i1, p2, i2, todo[id])
    requires AllRestored(sha, packs0, index0, groups, d, p, todo, rest, p1, i1)
    requires RobustTurn(sha, packs0, index0, groups, d, id) ==>
               GroupRestored(sha, index0, FindGroup(groups, id).value, d, p, todo[id], p2, i2)
    ensures Progress(sha, packs0, index0, p2, i2, bad)
    ensures AllRestored(sha, packs0, index0, groups, d, p, todo, rest - {id}, p2, i2)
  {
    hide GroupRestored, FindGroup, Progress, Robust;
    TouchLess(sha, p1, i1, p2, i2, todo[id], bad);
    ProgressChains(sha, packs0, index0, p1, i1, p2, i2, bad);
    forall k | k in todo && k !in rest - {id} && RobustTurn(sha, packs0, index0, groups, d, k)
      ensures GroupRestored(sha, index0, FindGroup(groups, k).value, d, p, todo[k], p2, i2)
    {
      if k != id {
        StaysRestored(sha, index0, FindGroup(groups, k).value, d, p, todo[k], p1, i1, p2, i2, bad);
      }
    }
  }

  /** The group loop, in any order. */
  method RepairAll(repo: Repository, manager: ParityManager, groups: seq<ParityGroup>, todo: map<nat, set<Hash>>,
                   ghost bad: set<Hash>) returns (repaired: nat)
    requires repo.Consistent() && SavedIndex(repo.disk.index) == repo.index
    requires manager.Valid() && SubsetsOf(todo, bad) && Listed(groups, todo, bad)
    requires forall i :: 0 <= i < |groups| ==> groups[i].chunkSize < MAX_STORED
    requires IsBad(repo.sha, repo.disk.packs, repo.index, bad)
    modifies repo`index, repo.disk`packs, repo.disk`index, repo.disk`history
    ensures repo.Consistent() && SavedIndex(repo.disk.index) == repo.index
    ensures Progress(repo.sha, old(repo.disk.packs), old(repo.index), repo.disk.packs, repo.index, bad)
    ensures Keeps(repo.sha, old(repo.disk.packs), old(repo.index), old(repo.disk.history), repo.disk.history)
    ensures AllRestored(repo.sha, old(repo.disk.packs), old(repo.index), groups, manager.rs.dataShards,
                        manager.rs.parityShards, todo, {}, repo.disk.packs, repo.index)
  {
    hide IsBad, Listed, Progress, GroupRestored, Robust, Repository.Consistent, ParityManager.Valid, FindGroup, AllRestored, Keeps,
      Turn;
    ghost var p0, i0, h0 := repo.disk.packs, repo.index, repo.disk.history;
    KeepsNow(repo.sha, p0, i0, h0);
    var index0 := repo.index;
    repaired := 0;
    var rest := todo.Keys;
    NoProgress(repo.sha, p0, i0, bad);
    NoneRestored(repo.sha, p0, i0, groups, manager.rs.dataShards, manager.rs.parityShards, todo);
    while rest != {}
      invariant rest <= todo.Keys
      invariant repo.Consistent() && manager.Valid() && SavedIndex(repo.disk.index) == repo.index
      invariant Progress(repo.sha, p0, i0, repo.disk.packs, repo.index, bad)
      invariant Keeps(repo.sha, p0, i0, h0, repo.disk.history)
      invariant AllRestored(repo.sha, p0, i0, groups, manager.rs.dataShards, manager.rs.parityShards, todo, rest,
                            repo.disk.packs, repo.index)
      decreases |rest|
    {
      ghost var p1, i1, h1 := repo.disk.packs, repo.index, repo.disk.history;
      KeepsNow(repo.sha, p1, i1, h1);
      var id :| id in rest;
      SameKeys(repo.sha, p0, i0, p1, i1, bad);
      NoProgress(repo.sha, p1, i1, todo[id]);
      var group := FindGroup(groups, id);
      if group.Some? {
        var n := RepairGroup(repo, manager, index0, group.value, todo[id]);
        repaired := repaired + n;
        OneGroupTurn(repo.sha, p0, i0, groups, manager.rs.dataShards, manager.rs.parityShards, todo, bad, id, p1, i1,
                     repo.disk.packs, repo.index);
      }
      KeepsChains(repo.sha, p0, i0, p1, i1, bad, h0, h1, repo.disk.history);
      OneGroupDone(repo.sha, p0, i0, groups, manager.rs.dataShards, manager.rs.parityShards, todo, rest, bad, id,
                   p1, i1, repo.disk.packs, repo.index);
      rest := rest - {id};
    }
  }

  lemma SameKeys(sha: Sha, p0: Packs, i0: Index, p1: Packs, i1: Index, touched: set<Hash>)
    requires Progress(sha, p0, i0, p1, i1, touched)
    ensures i1.Keys == i0.Keys
  {
  }

  lemma NoneRestored(sha: Sha, packs: Packs, index: Index, groups: seq<ParityGroup>, d: nat, p: nat, todo: map<nat, set<Hash>>)
    ensures AllRestored(sha, packs, index, groups, d, p, todo, todo.Keys, packs, index)
  {
    hide GroupRestored, RobustTurn, FindGroup;
  }

  /**
   Chunk `h` was lost, and the group that is tried for it is robust and records it at position `i`; no
   member found in `packs` has other contents of the same name.
   */
  ghost predicate Repairable(sha: Sha, packs0: Packs, index: Index, groups: seq<ParityGroup>, d: nat, p: nat, h: Hash,
                             chunks: seq<Vec>, i: nat, packs: Packs) {
    && h in index && !Intact(sha, packs0, index, h)
    && FindGroupByHash(groups, h).Some?
    && var g := FindGroupByHash(groups, h).value;
       && FindGroup(groups, g.groupId) == Some(g)
       && Robust(sha, packs0, index, groups, g, d)
       && Genuine(sha, packs, index, g, chunks, d, p, {})
       && |chunks| == d && i < |Members(g)| && Members(g)[i] == h
       && index[h].size == |MemberChunk(chunks, d, g.chunkSize, i)|
  }

  /** After the scrub every repairable chunk is readable. */
  ghost predicate Completed(sha: Sha, packs0: Packs, index0: Index, groups: seq<ParityGroup>, d: nat, p: nat,
                            packs: Packs, index: Index) {
    forall h: Hash, chunks: seq<Vec>, i: nat ::
      Repairable(sha, packs0, index0, groups, d, p, h, chunks, i, packs) ==> Intact(sha, packs, index, h)
  }

  lemma RestoredIsCompleted(sha: Sha, packs0: Packs, index0: Index, groups: seq<ParityGroup>, d: nat, p: nat, bad: set<Hash>,
                            todo: map<nat, set<Hash>>, packs: Packs, index: Index)
    requires AllRestored(sha, packs0, index0, groups, d, p, todo, {}, packs, index)
    requires IsBad(sha, packs0, index0, bad) && Listed(groups, todo, bad)
    ensures Completed(sha, packs0, index0, groups, d, p, packs, index)
  {
    hide Intact, Genuine, FindGroup, FindGroupByHash, MemberChunk, Members, Robust;
    forall h: Hash, chunks: seq<Vec>, i: nat | Repairable(sha, packs0, index0, groups, d, p, h, chunks, i, packs)
      ensures Intact(sha, packs, index, h)
    {
      var g := FindGroupByHash(groups, h).value;
      assert RobustTurn(sha, packs0, index0, groups, d, g.groupId);
      assert Wanted(index0, g, chunks, d, todo[g.groupId], i);
    }
  }

  /**
   Repair is safe for any damage and any parity records: packs are only added, each with one chunk
   under its own name, and nothing that was readable is lost, not even by a crash after any of the
   writes.  It is complete for every robust group, in whatever order the groups are taken.
   */
  method ScrubAndRepair(sha: Sha, disk: Disk, groups: seq<ParityGroup>, manager: ParityManager, target: nat)
    returns (bad: set<Hash>, repaired: nat)
    requires manager.Valid() && forall i :: 0 <= i < |groups| ==> groups[i].chunkSize < MAX_STORED
    modifies disk`packs, disk`index, disk`history
    ensures var index0 := SavedIndex(old(disk.index));
            && IsBad(sha, old(disk.packs), index0, bad)
            && Progress(sha, old(disk.packs), index0, disk.packs, SavedIndex(disk.index), bad)
            && Keeps(sha, old(disk.packs), index0, old(disk.history), disk.history)
            && Completed(sha, old(disk.packs), index0, groups, manager.rs.dataShards, manager.rs.parityShards,
                         disk.packs, SavedIndex(disk.index))
  {
    hide Progress, Completed, Intact, AllRestored, IsOpened, FindGroupByHash, ParityManager.Valid, Keeps, ImageKeeps;
    ghost var packs0, index0, history0 := disk.packs, SavedIndex(disk.index), disk.history;
    KeepsNow(sha, packs0, index0, history0);
    repaired := 0;
    var index := SavedIndex(disk.index);
    bad := FindBad(sha, disk.packs, index);
    NoProgress(sha, packs0, index0, bad);
    var todo := GroupBad(groups, bad);
    if bad == {} {
      NothingToRepair(sha, packs0, index0, groups, manager.rs.dataShards, manager.rs.parityShards);
      return;
    }
    var repo := OpenForRepair(sha, disk, target);
    repaired := RepairAll(repo, manager, groups, todo, bad);
    ghost var history1 := disk.history;
    repo.SaveIndex();
    ProgressImage(sha, packs0, index0, disk.packs, repo.index, bad, disk.Now());
    KeepsOneMore(sha, packs0, index0, history0, history1, disk.Now());
    RestoredIsCompleted(sha, packs0, index0, groups, manager.rs.dataShards, manager.rs.parityShards, bad, todo,
                        disk.packs, repo.index);
  }

  lemma KeepsOneMore(sha: Sha, packs: Packs, index: Index, before: seq<Image>, after: seq<Image>, now: Image)
    requires Keeps(sha, packs, index, before, after) && ImageKeeps(sha, packs, index, now)
    ensures Keeps(sha, packs, index, before, after + [now])
  {
    hide ImageKeeps;
  }

  method OpenForRepair(sha: Sha, disk: Disk, target: nat) returns (repo: Repository)
    ensures fresh(repo) && fresh(repo.writer) && repo.Consistent() && repo.sha == sha && repo.disk == disk
    ensures repo.index == SavedIndex(disk.index)
  {
    repo := new Repository.Open(sha, disk, target);
  }

  lemma NothingToRepair(sha: Sha, packs: Packs, index: Index, groups: seq<ParityGroup>, d: nat, p: nat)
    requires forall h :: h in index ==> Intact(sha, packs, index, h)
    ensures Completed(sha, packs, index, groups, d, p, packs, index)
  {
    hide Intact, Genuine, FindGroup, FindGroupByHash, MemberChunk, Members, Robust;
  }
}
