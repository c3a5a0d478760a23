/**
 What compaction guarantees: nothing is lost or counted twice, old packs are untouched until
 the index is saved, and after that every live chunk is read from the new packs.
 */
module CompactionSafety {
  import opened Wrappers
  import opened Bytes
  import opened Digest
  import opened PackFormat
  import opened ChunkStore
  import opened IndexSoundness
  import opened Compaction

  // ── The old packs as one list of entries ─────────────────────────────────

  function Listed(file: Bytes): seq<Location> {
    match ListFrom(file, HEADER_SIZE)
    case Ok(locs) => locs
    case Err(_) => []
  }

  /** All entries listed in the first `n` packs, in order. */
  function AllListed(packs: Packs, ids: seq<nat>, n: nat): seq<Location>
    requires n <= |ids| && forall k :: 0 <= k < |ids| ==> ids[k] in packs
    decreases n
  {
    if n == 0 then [] else AllListed(packs, ids, n - 1) + Listed(packs[ids[n - 1]])
  }

  function LiveNames(locs: seq<Location>, live: set<Hash>): seq<Hash> {
    if |locs| == 0 then []
    else LiveNames(locs[..|locs| - 1], live) + if locs[|locs| - 1].hash in live then [locs[|locs| - 1].hash] else []
  }

  function DeadBytes(locs: seq<Location>, live: set<Hash>): nat {
    if |locs| == 0 then 0
    else DeadBytes(locs[..|locs| - 1], live) + if locs[|locs| - 1].hash in live then 0 else locs[|locs| - 1].size
  }

  function Names(chunks: seq<Entry>): (names: seq<Hash>)
    ensures |names| == |chunks|
  {
    seq(|chunks|, k requires 0 <= k < |chunks| => chunks[k].hash)
  }

  /** What has been collected from the entries `locs`: every entry was either kept or discarded. */
  predicate CollectedFrom(sha: Sha, c: Collected, locs: seq<Location>, live: set<Hash>) {
    && c.kept + c.discarded == |locs|
    && c.kept == |c.chunks|
    && c.freed == DeadBytes(locs, live)
    && Names(c.chunks) == LiveNames(locs, live)
    && HashesMatch(sha, c.chunks)
  }

  lemma CollectOneExact(sha: Sha, file: Bytes, live: set<Hash>, acc: Collected, locs: seq<Location>, loc: Location)
    requires CollectedFrom(sha, acc, locs, live)
    requires CollectOne(sha, file, live, acc, loc).Ok?
    ensures CollectedFrom(sha, CollectOne(sha, file, live, acc, loc).value, locs + [loc], live)
  {
    hide ReadChunkAt, HashOfChunk;
    var c := CollectOne(sha, file, live, acc, loc).value;
    assert (locs + [loc])[..|locs|] == locs;
    if loc.hash in live {
      assert Names(c.chunks) == Names(acc.chunks) + [loc.hash];
    }
  }

  lemma {:induction false} CollectPackExact(sha: Sha, file: Bytes, live: set<Hash>, acc: Collected, before: seq<Location>,
                                            locs: seq<Location>, n: nat)
    requires n <= |locs| && CollectedFrom(sha, acc, before, live)
    requires CollectPack(sha, file, live, acc, locs, n).Ok?
    ensures CollectedFrom(sha, CollectPack(sha, file, live, acc, locs, n).value, before + locs[..n], live)
    decreases n
  {
    hide CollectOne, CollectedFrom;
    if n == 0 {
      assert before + locs[..0] == before;
    } else {
      CollectPackExact(sha, file, live, acc, before, locs, n - 1);
      var c := CollectPack(sha, file, live, acc, locs, n - 1).value;
      CollectOneExact(sha, file, live, c, before + locs[..n - 1], locs[n - 1]);
      assert before + locs[..n - 1] + [locs[n - 1]] == before + locs[..n];
    }
  }

  /** Kept plus discarded is all entries, the freed bytes are the discarded sizes, the copies are the live entries in order. */
  lemma {:induction false} CollectAllExact(sha: Sha, packs: Packs, live: set<Hash>, ids: seq<nat>, n: nat)
    requires n <= |ids| && forall k :: 0 <= k < |ids| ==> ids[k] in packs
    requires CollectAll(sha, packs, live, ids, n).Ok?
    ensures CollectedFrom(sha, CollectAll(sha, packs, live, ids, n).value, AllListed(packs, ids, n), live)
    decreases n
  {
    hide ListFrom, CollectPack, CollectedFrom;
    if n == 0 {
      NothingCollected(sha, live);
    } else {
      CollectAllExact(sha, packs, live, ids, n - 1);
      var before, file := CollectAll(sha, packs, live, ids, n - 1).value, packs[ids[n - 1]];
      var locs := ListFrom(file, HEADER_SIZE).value;
      CollectPackExact(sha, file, live, before, AllListed(packs, ids, n - 1), locs, |locs|);
      assert locs[..|locs|] == locs;
    }
  }

  lemma NothingCollected(sha: Sha, live: set<Hash>)
    ensures CollectedFrom(sha, Collected([], 0, 0, 0), [], live)
  {
  }

  ghost predicate IsListed(packs: Packs, ids: seq<nat>, h: Hash)
    requires forall k :: 0 <= k < |ids| ==> ids[k] in packs
  {
    NamedIn(AllListed(packs, ids, |ids|), h)
  }

  predicate NamedIn(locs: seq<Location>, h: Hash) {
    exists j :: 0 <= j < |locs| && locs[j].hash == h
  }

  lemma {:induction false} LiveNamesMember(locs: seq<Location>, live: set<Hash>, h: Hash)
    ensures h in LiveNames(locs, live) <==> h in live && NamedIn(locs, h)
    decreases |locs|
  {
    if |locs| > 0 {
      var n := |locs| - 1;
      LiveNamesMember(locs[..n], live, h);
      if NamedIn(locs, h) && locs[n].hash != h {
        var j :| 0 <= j < |locs| && locs[j].hash == h;
        assert locs[..n][j].hash == h;
      }
      if NamedIn(locs[..n], h) {
        var j :| 0 <= j < n && locs[..n][j].hash == h;
        assert locs[j].hash == h;
      }
    }
  }

  /** Exactly the live chunks that some listing names are collected. */
  lemma CollectedNames(sha: Sha, packs: Packs, live: set<Hash>, ids: seq<nat>, h: Hash)
    requires forall k :: 0 <= k < |ids| ==> ids[k] in packs
    requires CollectAll(sha, packs, live, ids, |ids|).Ok?
    ensures h in Names(CollectAll(sha, packs, live, ids, |ids|).value.chunks) <==> h in live && IsListed(packs, ids, h)
  {
    hide CollectAll, AllListed, LiveNames, NamedIn, Names, DeadBytes, HashesMatch;
    CollectAllExact(sha, packs, live, ids, |ids|);
    LiveNamesMember(AllListed(packs, ids, |ids|), live, h);
  }

  lemma {:induction false} ListedInOne(packs: Packs, ids: seq<nat>, n: nat, i: nat, h: Hash)
    requires n <= |ids| && forall k :: 0 <= k < |ids| ==> ids[k] in packs
    requires i < n && NamedIn(Listed(packs[ids[i]]), h)
    ensures NamedIn(AllListed(packs, ids, n), h)
    decreases n
  {
    hide Listed;
    var before, last := AllListed(packs, ids, n - 1), Listed(packs[ids[n - 1]]);
    if i == n - 1 {
      var j :| 0 <= j < |last| && last[j].hash == h;
      assert (before + last)[|before| + j].hash == h;
    } else {
      ListedInOne(packs, ids, n - 1, i, h);
      var j :| 0 <= j < |before| && before[j].hash == h;
      assert (before + last)[j].hash == h;
    }
  }

  /** A located chunk is listed. */
  lemma LocatedIsCollected(sha: Sha, packs: Packs, ids: seq<nat>, id: nat, offset: nat, h: Hash)
    requires IsPackList(ids, packs) && (forall k :: 0 <= k < |ids| ==> ids[k] in packs)
    requires Located(sha, packs, id, offset, h)
    ensures IsListed(packs, ids, h)
  {
    hide Located, ListFrom, AllListed;
    LocatedIsListed(sha, packs, id, offset, h);
    var i :| 0 <= i < |ids| && ids[i] == id;
    ListedInOne(packs, ids, |ids|, i, h);
  }

  // ── The new packs ────────────────────────────────────────────────────────

  /** Chunk `e` now sits at `m`. */
  ghost predicate MovedTo(sha: Sha, packs: Packs, m: NewLocation, e: Entry) {
    && m.hash == e.hash
    && Located(sha, packs, m.packId, m.offset, m.hash)
    && m.packId in packs
    && ReadChunkAt(sha, packs[m.packId], m.offset, m.hash) == Ok(e.data)
  }

  predicate NewIds(o: Output, first: nat) {
    && o.nextId == first + |o.newIds|
    && (forall i :: 0 <= i < |o.newIds| ==> o.newIds[i] == first + i)
    && (forall k :: 0 <= k < |o.moved| ==> first <= o.moved[k].packId < o.nextId)
  }

  predicate Fresh(packs: Packs, first: nat) {
    forall id :: id in packs ==> id < first
  }

  /** Packs from `first` on were added, the others are as before. */
  ghost predicate AddedPacks(before: Packs, o: Output, first: nat) {
    && Extends(o.packs, before)
    && (forall id :: id in o.packs ==> id in before || first <= id < o.nextId)
  }

  /** The first `n` chunks are each either at their new location or still buffered, in order. */
  ghost predicate Accounted(sha: Sha, o: Output, chunks: seq<Entry>, n: nat)
    requires n <= |chunks|
    decreases n
  {
    && |o.moved| <= n
    && o.buffer == chunks[|o.moved|..n]
    && (forall k :: 0 <= k < |o.moved| ==> MovedTo(sha, o.packs, o.moved[k], chunks[k]))
  }

  ghost predicate Wrote(sha: Sha, before: Packs, first: nat, o: Output, chunks: seq<Entry>, n: nat)
    requires n <= |chunks|
  {
    && NewIds(o, first)
    && AddedPacks(before, o, first)
    && Accounted(sha, o, chunks, n)
  }

  lemma MovedToExtends(sha: Sha, before: Packs, after: Packs, m: NewLocation, e: Entry)
    requires MovedTo(sha, before, m, e) && Extends(after, before)
    ensures MovedTo(sha, after, m, e)
  {
    hide Located, ReadChunkAt;
    LocatedExtends(sha, before, after, m.packId, m.offset, m.hash);
  }

  lemma FreshlyMoved(sha: Sha, packs: Packs, id: nat, buffer: seq<Entry>, k: nat)
    requires k < |buffer| && SizesFit(buffer) && HashesMatch(sha, buffer)
    requires id in packs && packs[id] == PackFile(sha, id, buffer)
    ensures MovedTo(sha, packs, InPack(id, Locations(buffer))[k], buffer[k])
  {
    hide PackFile, OffsetOf, HashOfChunk, ReadChunkAt, Located, SizesFit, HashesMatch;
    WrittenIsLocated(sha, packs, id, buffer, k);
    ReadBack(sha, id, buffer, k);
    LocationHash(buffer, k);
  }

  lemma FlushKeepsIds(sha: Sha, before: Packs, first: nat, o: Output)
    requires NewIds(o, first) && AddedPacks(before, o, first) && Fresh(before, first)
    ensures NewIds(FlushOutput(sha, o), first) && AddedPacks(before, FlushOutput(sha, o), first)
    ensures Extends(FlushOutput(sha, o).packs, o.packs)
  {
    hide PackFile, Locations;
  }

  lemma FlushKeepsAccounts(sha: Sha, o: Output, chunks: seq<Entry>, n: nat)
    requires n <= |chunks| && SizesFit(chunks) && HashesMatch(sha, chunks)
    requires Accounted(sha, o, chunks, n) && Extends(FlushOutput(sha, o).packs, o.packs)
    ensures Accounted(sha, FlushOutput(sha, o), chunks, n)
  {
    hide PackFile, Locations, MovedTo, SizesFit, HashesMatch, HashOfChunk;
    var t, m := FlushOutput(sha, o), |o.moved|;
    if o.buffer != [] {
      PartFits(sha, chunks, m, n);
      forall k | 0 <= k < n
        ensures MovedTo(sha, t.packs, t.moved[k], chunks[k])
      {
        if k < m {
          MovedToExtends(sha, o.packs, t.packs, o.moved[k], chunks[k]);
        } else {
          FreshlyMoved(sha, t.packs, o.nextId, o.buffer, k - m);
        }
      }
    }
  }

  lemma PartFits(sha: Sha, chunks: seq<Entry>, m: nat, n: nat)
    requires m <= n <= |chunks| && SizesFit(chunks) && HashesMatch(sha, chunks)
    ensures SizesFit(chunks[m..n]) && HashesMatch(sha, chunks[m..n])
  {
    hide HashOfChunk;
  }

  lemma FlushWrote(sha: Sha, before: Packs, first: nat, o: Output, chunks: seq<Entry>, n: nat)
    requires n <= |chunks| && SizesFit(chunks) && HashesMatch(sha, chunks) && Fresh(before, first)
    requires Wrote(sha, before, first, o, chunks, n)
    ensures Wrote(sha, before, first, FlushOutput(sha, o), chunks, n)
    ensures FlushOutput(sha, o).buffer == []
  {
    FlushKeepsIds(sha, before, first, o);
    FlushKeepsAccounts(sha, o, chunks, n);
    hide PackFile, Locations, MovedTo, SizesFit, HashesMatch, Wrote, Extends, NewIds, AddedPacks;
  }

  lemma OneMoreWrote(sha: Sha, before: Packs, first: nat, o: Output, chunks: seq<Entry>, n: nat, target: nat)
    requires n < |chunks| && SizesFit(chunks) && HashesMatch(sha, chunks) && Fresh(before, first)
    requires Wrote(sha, before, first, o, chunks, n)
    ensures Wrote(sha, before, first, WriteOneLive(sha, o, chunks[n], target), chunks, n + 1)
  {
    hide FlushOutput, MovedTo, SizesFit, HashesMatch, Extends, ShouldFlush;
    var added := o.(buffer := o.buffer + [chunks[n]]);
    assert Wrote(sha, before, first, added, chunks, n + 1);
    FlushWrote(sha, before, first, added, chunks, n + 1);
  }

  /** At every point of the rewriting the chunks so far are accounted for and the old packs are untouched. */
  lemma {:induction false} WriteLiveWrote(sha: Sha, before: Packs, first: nat, chunks: seq<Entry>, target: nat, n: nat)
    requires n <= |chunks| && SizesFit(chunks) && HashesMatch(sha, chunks) && Fresh(before, first)
    ensures Wrote(sha, before, first, WriteLive(sha, Output(before, [], first, [], []), chunks, target, n), chunks, n)
    decreases n
  {
    if n > 0 {
      hide Wrote, WriteOneLive, SizesFit, HashesMatch, Fresh;
      WriteLiveWrote(sha, before, first, chunks, target, n - 1);
      OneMoreWrote(sha, before, first, WriteLive(sha, Output(before, [], first, [], []), chunks, target, n - 1), chunks, n - 1,
                   target);
    }
  }

  /** The finished rewriting: chunk `k` is at `moved[k]`, nothing is left over. */
  lemma RewrittenWrote(sha: Sha, before: Packs, first: nat, chunks: seq<Entry>, target: nat)
    requires SizesFit(chunks) && HashesMatch(sha, chunks) && Fresh(before, first)
    ensures var o := Rewritten(sha, before, chunks, first, target);
            && NewIds(o, first) && AddedPacks(before, o, first)
            && |o.moved| == |chunks|
            && (forall k :: 0 <= k < |chunks| ==> MovedTo(sha, o.packs, o.moved[k], chunks[k]))
  {
    hide WriteLive, FlushOutput, MovedTo, SizesFit, HashesMatch, Fresh, NewIds, AddedPacks;
    var o := WriteLive(sha, Output(before, [], first, [], []), chunks, target, |chunks|);
    WriteLiveWrote(sha, before, first, chunks, target, |chunks|);
    FlushWrote(sha, before, first, o, chunks, |chunks|);
  }

  // ── The new index ────────────────────────────────────────────────────────

  /** An entry is repointed to some new location of its chunk, or left alone if there is none. */
  lemma {:induction false} MoveAllAt(index: Index, moved: seq<NewLocation>, n: nat, h: Hash) returns (k: nat)
    requires n <= |moved| && h in index
    ensures var r := MoveAll(index, moved, n);
            if k < n then
              && moved[k].hash == h
              && r[h] == index[h].(packId := moved[k].packId, packOffset := moved[k].offset)
            else
              && r[h] == index[h]
              && forall j :: 0 <= j < n ==> moved[j].hash != h
    decreases n
  {
    if n == 0 {
      k := 0;
    } else if moved[n - 1].hash == h {
      k := n - 1;
      var j := MoveAllAt(index, moved, n - 1, h);
    } else {
      k := MoveAllAt(index, moved, n - 1, h);
      if k >= n - 1 {
        k := n;
      }
    }
  }

  /** The situation after a successful collection. */
  ghost predicate Compacting(sha: Sha, packs: Packs, live: set<Hash>, ids: seq<nat>, c: Collected, first: nat) {
    && IsPackList(ids, packs) && |ids| > 0 && first == ids[|ids| - 1] + 1
    && (forall k :: 0 <= k < |ids| ==> ids[k] in packs)
    && CollectAll(sha, packs, live, ids, |ids|) == Ok(c)
  }

  lemma CompactingFacts(sha: Sha, packs: Packs, live: set<Hash>, ids: seq<nat>, c: Collected, first: nat)
    requires Compacting(sha, packs, live, ids, c, first)
    ensures Fresh(packs, first) && SizesFit(c.chunks) && HashesMatch(sha, c.chunks)
  {
    hide CollectAll, SizesFit, HashesMatch;
    CollectAllFit(sha, packs, live, ids, |ids|);
    CollectAllExact(sha, packs, live, ids, |ids|);
    assert CollectedFrom(sha, c, AllListed(packs, ids, |ids|), live);
    forall id | id in packs
      ensures id < first
    {
      var k :| 0 <= k < |ids| && ids[k] == id;
    }
  }

  /** `n` old packs have been deleted after the new index was saved. */
  function CompactedPacks(sha: Sha, packs: Packs, c: Collected, first: nat, target: nat, ids: seq<nat>, n: nat): Packs
    requires n <= |ids|
  {
    WithoutPacks(Rewritten(sha, packs, c.chunks, first, target).packs, ids, n)
  }

  lemma NewPacksStay(sha: Sha, packs: Packs, ids: seq<nat>, o: Output, first: nat, n: nat, m: NewLocation, e: Entry)
    requires n <= |ids| && MovedTo(sha, o.packs, m, e) && first <= m.packId
    requires forall k :: 0 <= k < |ids| ==> ids[k] < first
    ensures MovedTo(sha, WithoutPacks(o.packs, ids, n), m, e)
  {
    hide Located, ReadChunkAt;
    LocatedExtends(sha, o.packs, WithoutPacks(o.packs, ids, n), m.packId, m.offset, m.hash);
  }

  /**
   After the new index was saved, and however many old packs have been deleted since: the index
   holds exactly the live entries; a listed chunk is found in a new pack; an unlisted one keeps
   its old location.
   */
  lemma CompactedEntry(sha: Sha, packs: Packs, index: Index, live: set<Hash>, ids: seq<nat>, c: Collected, first: nat,
                       target: nat, n: nat, h: Hash)
    requires Compacting(sha, packs, live, ids, c, first) && n <= |ids|
    ensures var i := CompactedIndex(index, Rewritten(sha, packs, c.chunks, first, target).moved, live);
            var p := CompactedPacks(sha, packs, c, first, target, ids, n);
            && (h in i <==> h in index && h in live)
            && (h in i && IsListed(packs, ids, h) ==>
                  && Located(sha, p, i[h].packId, i[h].packOffset, h)
                  && i[h].size == index[h].size && Refs(i, h) == Refs(index, h))
            && (h in i ==> i[h] == index[h].(packId := i[h].packId, packOffset := i[h].packOffset))
            && (h in i && !IsListed(packs, ids, h) ==> i[h] == index[h])
  {
    hide CollectAll, Rewritten, MovedTo, SizesFit, HashesMatch, AllListed, Located, WithoutPacks, NamedIn, MoveAll;
    if h in index && h in live {
      var o := Rewritten(sha, packs, c.chunks, first, target);
      CompactingFacts(sha, packs, live, ids, c, first);
      RewrittenWrote(sha, packs, first, c.chunks, target);
      CollectedNames(sha, packs, live, ids, h);
      var k := MoveAllAt(index, o.moved, |o.moved|, h);
      if k < |o.moved| {
        OldIdsBelow(sha, packs, live, ids, c, first);
        NewPacksStay(sha, packs, ids, o, first, n, o.moved[k], c.chunks[k]);
        MovedIsNamed(sha, o, c.chunks, k, h);
        MovedIsLocated(sha, CompactedPacks(sha, packs, c, first, target, ids, n), o.moved[k], c.chunks[k]);
      } else {
        NotMoved(sha, o, c.chunks, h);
      }
    }
  }

  lemma OldIdsBelow(sha: Sha, packs: Packs, live: set<Hash>, ids: seq<nat>, c: Collected, first: nat)
    requires Compacting(sha, packs, live, ids, c, first)
    ensures forall k :: 0 <= k < |ids| ==> ids[k] < first
  {
    hide CollectAll;
  }

  lemma MovedIsLocated(sha: Sha, packs: Packs, m: NewLocation, e: Entry)
    requires MovedTo(sha, packs, m, e)
    ensures Located(sha, packs, m.packId, m.offset, m.hash)
  {
  }

  lemma MovedIsNamed(sha: Sha, o: Output, chunks: seq<Entry>, k: nat, h: Hash)
    requires k < |o.moved| == |chunks| && MovedTo(sha, o.packs, o.moved[k], chunks[k]) && o.moved[k].hash == h
    ensures h in Names(chunks)
  {
    hide Located, ReadChunkAt;
    assert Names(chunks)[k] == h;
  }

  lemma NotMoved(sha: Sha, o: Output, chunks: seq<Entry>, h: Hash)
    requires |o.moved| == |chunks| && forall k :: 0 <= k < |chunks| ==> MovedTo(sha, o.packs, o.moved[k], chunks[k])
    requires forall k :: 0 <= k < |o.moved| ==> o.moved[k].hash != h
    ensures h !in Names(chunks)
  {
    hide Located, ReadChunkAt;
    forall k | 0 <= k < |chunks|
      ensures Names(chunks)[k] != h
    {
      assert MovedTo(sha, o.packs, o.moved[k], chunks[k]);
    }
  }

  // ── Main results ─────────────────────────────────────────────────────────

  /** The reported numbers: every old entry is counted once, and the freed bytes are those of the discarded entries. */
  lemma CompactionConserves(sha: Sha, packs: Packs, index: Option<Index>, live: set<Hash>, target: nat, ids: seq<nat>,
                            packs': Packs, index': Option<Index>, r: CompactResult)
    requires IsPackList(ids, packs) && (forall k :: 0 <= k < |ids| ==> ids[k] in packs)
    requires CompactSpec(sha, packs, index, live, target, ids, packs', index', Ok(r))
    ensures var locs := AllListed(packs, ids, |ids|);
            && r.chunksKept + r.chunksDiscarded == |locs|
            && r.chunksKept == |LiveNames(locs, live)|
            && r.bytesFreed == DeadBytes(locs, live)
            && r.packsBefore == |ids|
    ensures ids != [] ==> packs'.Keys !! packs.Keys && |packs'.Keys| == r.packsAfter
  {
    hide *;
    if |ids| == 0 {
      NothingListed(packs, ids, live);
      NothingCompacted(sha, packs, index, live, target, ids, packs', index', r);
    } else {
      var c, first := CompactedOk(sha, packs, index, live, target, ids, packs', index', r);
      CollectAllExact(sha, packs, live, ids, |ids|);
      CollectedNumbers(sha, c, AllListed(packs, ids, |ids|), live);
      OnlyNewPacks(sha, packs, live, ids, c, first, target);
    }
  }

  lemma CollectedNumbers(sha: Sha, c: Collected, locs: seq<Location>, live: set<Hash>)
    requires CollectedFrom(sha, c, locs, live)
    ensures c.kept + c.discarded == |locs| && c.kept == |LiveNames(locs, live)| && c.freed == DeadBytes(locs, live)
  {
    hide LiveNames, DeadBytes, HashesMatch;
    assert |Names(c.chunks)| == |c.chunks|;
  }

  lemma NothingCompacted(sha: Sha, packs: Packs, index: Option<Index>, live: set<Hash>, target: nat, ids: seq<nat>,
                         packs': Packs, index': Option<Index>, r: CompactResult)
    requires IsPackList(ids, packs) && |ids| == 0
    requires CompactSpec(sha, packs, index, live, target, ids, packs', index', Ok(r))
    ensures r == CompactResult(0, 0, 0, 0, 0)
  {
  }

  /** A successful compaction of something, taken apart. */
  lemma CompactedOk(sha: Sha, packs: Packs, index: Option<Index>, live: set<Hash>, target: nat, ids: seq<nat>,
                    packs': Packs, index': Option<Index>, r: CompactResult) returns (c: Collected, first: nat)
    requires IsPackList(ids, packs) && (forall k :: 0 <= k < |ids| ==> ids[k] in packs) && |ids| > 0
    requires CompactSpec(sha, packs, index, live, target, ids, packs', index', Ok(r))
    ensures Compacting(sha, packs, live, ids, c, first) && CollectAll(sha, packs, live, ids, |ids|) == Ok(c)
    ensures var o := Rewritten(sha, packs, c.chunks, first, target);
            && packs' == WithoutPacks(o.packs, ids, |ids|)
            && r == CompactResult(|ids|, |o.newIds|, c.kept, c.discarded, c.freed)
  {
    hide CollectAll, Rewritten, WithoutPacks, CompactedIndex;
    c, first := CollectAll(sha, packs, live, ids, |ids|).value, ids[|ids| - 1] + 1;
  }

  lemma NothingListed(packs: Packs, ids: seq<nat>, live: set<Hash>)
    requires |ids| == 0
    ensures AllListed(packs, ids, 0) == [] && LiveNames([], live) == [] && DeadBytes([], live) == 0
  {
  }

  /** What is left on disk are the new packs. */
  lemma OnlyNewPacks(sha: Sha, packs: Packs, live: set<Hash>, ids: seq<nat>, c: Collected, first: nat, target: nat)
    requires Compacting(sha, packs, live, ids, c, first)
    ensures var o := Rewritten(sha, packs, c.chunks, first, target);
            var p := WithoutPacks(o.packs, ids, |ids|);
            p.Keys !! packs.Keys && |p.Keys| == |o.newIds|
  {
    hide CollectAll, Rewritten, MovedTo, SizesFit, HashesMatch, WithoutPacks;
    var o := Rewritten(sha, packs, c.chunks, first, target);
    CompactingFacts(sha, packs, live, ids, c, first);
    RewrittenWrote(sha, packs, first, c.chunks, target);
    NewIdsWritten(sha, packs, first, c.chunks, target);
    var p := WithoutPacks(o.packs, ids, |ids|);
    OldIdsBelow(sha, packs, live, ids, c, first);
    forall id
      ensures id in p <==> first <= id < first + |o.newIds|
    {
      if id in packs {
        var k :| 0 <= k < |ids| && ids[k] == id;
      }
    }
    IntervalSize(p.Keys, first, |o.newIds|);
  }

  lemma {:induction false} IntervalSize(s: set<nat>, first: nat, n: nat)
    requires forall id :: id in s <==> first <= id < first + n
    ensures |s| == n
  {
    if n > 0 {
      IntervalSize(s - {first + n - 1}, first, n - 1);
    }
  }

  ghost predicate AllWritten(o: Output, first: nat) {
    forall id :: first <= id < o.nextId ==> id in o.packs
  }

  /** Every new id has its pack. */
  lemma NewIdsWritten(sha: Sha, before: Packs, first: nat, chunks: seq<Entry>, target: nat)
    ensures var o := Rewritten(sha, before, chunks, first, target); forall id :: first <= id < o.nextId ==> id in o.packs
  {
    hide WriteLive, PackFile, Locations;
    WriteLiveWritten(sha, before, first, chunks, target, |chunks|);
  }

  lemma {:induction false} WriteLiveWritten(sha: Sha, before: Packs, first: nat, chunks: seq<Entry>, target: nat, n: nat)
    requires n <= |chunks|
    ensures AllWritten(WriteLive(sha, Output(before, [], first, [], []), chunks, target, n), first)
    decreases n
  {
    hide PackFile, Locations, ShouldFlush;
    if n > 0 {
      WriteLiveWritten(sha, before, first, chunks, target, n - 1);
    }
  }

  /** A crash while new packs are being written changes no read through the old index. */
  lemma CrashWhileWriting(sha: Sha, packs: Packs, live: set<Hash>, ids: seq<nat>, c: Collected, first: nat, target: nat,
                          n: nat, meta: ChunkMeta, h: Hash)
    requires Compacting(sha, packs, live, ids, c, first) && n <= |c.chunks| && meta.packId in packs
    ensures var o := WriteLive(sha, Output(packs, [], first, [], []), c.chunks, target, n);
            ReadPacked(sha, o.packs, meta, h) == ReadPacked(sha, packs, meta, h)
    ensures ReadPacked(sha, Rewritten(sha, packs, c.chunks, first, target).packs, meta, h) == ReadPacked(sha, packs, meta, h)
  {
    hide CollectAll, Rewritten, WriteLive, MovedTo, SizesFit, HashesMatch, ReadChunkAt, Compacting;
    CompactingFacts(sha, packs, live, ids, c, first);
    WriteLiveWrote(sha, packs, first, c.chunks, target, n);
    RewrittenWrote(sha, packs, first, c.chunks, target);
  }

  /**
   A crash anywhere between saving the index and deleting the last old pack: each live, listed
   chunk of the index reads back, with content of the same name.
   */
  lemma CrashWhileDeleting(sha: Sha, packs: Packs, index: Index, live: set<Hash>, ids: seq<nat>, c: Collected, first: nat,
                           target: nat, n: nat, h: Hash)
    requires Compacting(sha, packs, live, ids, c, first) && n <= |ids|
    requires h in index && h in live && IsListed(packs, ids, h)
    ensures var i := CompactedIndex(index, Rewritten(sha, packs, c.chunks, first, target).moved, live);
            h in i && ReadPacked(sha, CompactedPacks(sha, packs, c, first, target, ids, n), i[h], h).Ok?
  {
    hide Compacting, Rewritten, CompactedIndex, CompactedPacks, IsListed, Located, ReadChunkAt;
    CompactedEntry(sha, packs, index, live, ids, c, first, target, n, h);
    var i := CompactedIndex(index, Rewritten(sha, packs, c.chunks, first, target).moved, live);
    var p := CompactedPacks(sha, packs, c, first, target, ids, n);
    LocatedReads(sha, p, i[h].packId, i[h].packOffset, h);
  }

  /**
   After compaction a live chunk that was readable is still readable exactly when some pack's
   listing names it.  The packs may be damaged in any way.
   */
  lemma StillReadableIff(sha: Sha, packs: Packs, index: Index, live: set<Hash>, ids: seq<nat>, c: Collected, first: nat,
                         target: nat, h: Hash)
    requires Compacting(sha, packs, live, ids, c, first)
    requires h in index && h in live && ReadPacked(sha, packs, index[h], h).Ok?
    ensures var i := CompactedIndex(index, Rewritten(sha, packs, c.chunks, first, target).moved, live);
            var p := CompactedPacks(sha, packs, c, first, target, ids, |ids|);
            && h in i
            && (ReadPacked(sha, p, i[h], h).Ok? <==> IsListed(packs, ids, h))
  {
    hide Rewritten, CompactedIndex, IsListed, Located, ReadChunkAt, CollectAll, WithoutPacks;
    CompactedEntry(sha, packs, index, live, ids, c, first, target, |ids|, h);
    if IsListed(packs, ids, h) {
      CrashWhileDeleting(sha, packs, index, live, ids, c, first, target, |ids|, h);
    } else {
      var k :| 0 <= k < |ids| && ids[k] == index[h].packId;
    }
  }

  /** With a truthful index nothing live is lost: the new index is truthful at every crash point after it was saved. */
  lemma CompactionKeepsSound(sha: Sha, packs: Packs, index: Index, live: set<Hash>, ids: seq<nat>, c: Collected, first: nat,
                             target: nat, n: nat)
    requires Compacting(sha, packs, live, ids, c, first) && n <= |ids| && IndexSound(sha, packs, index)
    ensures var i := CompactedIndex(index, Rewritten(sha, packs, c.chunks, first, target).moved, live);
            && i.Keys == index.Keys * live
            && IndexSound(sha, CompactedPacks(sha, packs, c, first, target, ids, n), i)
            && (forall h :: h in live ==> Refs(i, h) == Refs(index, h))
  {
    hide Rewritten, CompactedIndex, CompactedPacks, IsListed, Located, CollectAll;
    var i := CompactedIndex(index, Rewritten(sha, packs, c.chunks, first, target).moved, live);
    var p := CompactedPacks(sha, packs, c, first, target, ids, n);
    forall h
      ensures h in i <==> h in index && h in live
      ensures h in i ==> EntrySound(sha, p, i, h)
      ensures h in live ==> Refs(i, h) == Refs(index, h)
    {
      CompactedEntry(sha, packs, index, live, ids, c, first, target, n, h);
      if h in index {
        assert EntrySound(sha, packs, index, h);
        LocatedIsCollected(sha, packs, ids, index[h].packId, index[h].packOffset, h);
      }
    }
  }

  /** Two successful reads under one name give the same bytes unless these very contents collide. */
  lemma SameBytes(sha: Sha, packs: Packs, meta: ChunkMeta, packs': Packs, meta': ChunkMeta, h: Hash)
    requires ReadPacked(sha, packs, meta, h).Ok? && ReadPacked(sha, packs', meta', h).Ok?
    requires var d, d' := ReadPacked(sha, packs, meta, h).value, ReadPacked(sha, packs', meta', h).value;
             HashOfChunk(sha, d) == HashOfChunk(sha, d') ==> d == d'
    ensures ReadPacked(sha, packs, meta, h) == ReadPacked(sha, packs', meta', h)
  {
    hide HashOfChunk, ReadChunkAt;
  }

  // ── A chunk that compaction loses ────────────────────────────────────────

  /** Overwriting the first marker of a pack with the end marker. */
  function Cut(file: Bytes): Bytes
    requires |file| > HEADER_SIZE
  {
    file[HEADER_SIZE := END_MARKER]
  }

  /** The damaged pack still delivers every chunk but the first, and lists none of them. */
  lemma DamagedPackListsNothing(sha: Sha, id: nat, entries: seq<Entry>, k: nat)
    requires 0 < k < |entries| && SizesFit(entries) && HashesMatch(sha, entries)
    ensures var file := PackFile(sha, id, entries);
            && |file| > HEADER_SIZE
            && ListFrom(Cut(file), HEADER_SIZE) == Ok([])
            && ReadChunkAt(sha, Cut(file), OffsetOf(entries, k), entries[k].hash) == Ok(entries[k].data)
  {
    hide EntryBytes, PackFile, HashOfChunk, FromLe, OffsetOf;
    var file, offset, e := PackFile(sha, id, entries), OffsetOf(entries, k), entries[k];
    EntryInFile(sha, id, entries, k);
    ReadBack(sha, id, entries, k);
    OffsetAfterFirst(entries, k);
    SameFromOffset(sha, file, Cut(file), offset, e.hash);
  }

  lemma {:induction false} OffsetAfterFirst(entries: seq<Entry>, k: nat)
    requires 0 < k <= |entries|
    ensures OffsetOf(entries, k) > HEADER_SIZE
    decreases k
  {
    NextOffset(entries, k - 1);
    if k == 1 {
      assert entries[..0] == [];
    } else {
      OffsetAfterFirst(entries, k - 1);
    }
  }

  lemma SameFromOffset(sha: Sha, a: Bytes, b: Bytes, offset: nat, h: Hash)
    requires |a| == |b| && 0 <= offset <= |a| && a[offset..] == b[offset..]
    ensures ReadChunkAt(sha, a, offset, h) == ReadChunkAt(sha, b, offset, h)
  {
    hide HashOfChunk, FromLe;
    forall i, j | offset <= i <= j <= |a|
      ensures a[i..j] == b[i..j]
    {
      assert a[i..j] == a[offset..][i - offset..j - offset];
      assert b[i..j] == b[offset..][i - offset..j - offset];
    }
    if offset < |a| {
      assert a[offset..][0] == b[offset..][0];
    }
  }

  /** So a live, readable chunk of that pack is gone after a compaction that reports success. */
  lemma CompactionLosesUnlisted(sha: Sha, id: nat, entries: seq<Entry>, k: nat, meta: ChunkMeta, target: nat,
                                packs: Packs, index: Index)
    requires 0 < k < |entries| && SizesFit(entries) && HashesMatch(sha, entries)
    requires meta.packId == id && meta.packOffset == OffsetOf(entries, k) && |PackFile(sha, id, entries)| > HEADER_SIZE
    requires packs == map[id := Cut(PackFile(sha, id, entries))] && index == map[entries[k].hash := meta]
    ensures var h := entries[k].hash;
            var live, c := {h}, Collected([], 0, 0, 0);
            && Compacting(sha, packs, live, [id], c, id + 1)
            && ReadPacked(sha, packs, index[h], h) == Ok(entries[k].data)
            && var i := CompactedIndex(index, Rewritten(sha, packs, c.chunks, id + 1, target).moved, live);
               h in i && ReadPacked(sha, CompactedPacks(sha, packs, c, id + 1, target, [id], 1), i[h], h).Err?
  {
    hide PackFile, HashOfChunk, OffsetOf, ListFrom, ReadChunkAt, CompactedIndex, CompactedPacks, Rewritten, SizesFit, HashesMatch;
    var h := entries[k].hash;
    var live, c := {h}, Collected([], 0, 0, 0);
    DamagedPackListsNothing(sha, id, entries, k);
    assert CollectAll(sha, packs, live, [id], 0) == Ok(c);
    assert CollectAll(sha, packs, live, [id], 1) == Ok(c);
    assert AllListed(packs, [id], 0) == [];
    assert !IsListed(packs, [id], h);
    StillReadableIff(sha, packs, index, live, [id], c, id + 1, target, h);
  }
}
