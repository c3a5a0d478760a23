/**
 Compaction (crates/core/src/pack.rs): copy the live chunks of all packs into new packs,
 repoint the saved index, then delete the old packs.
 */
module Compaction {
  import opened Wrappers
  import opened Bytes
  import opened Digest
  import opened PackFormat
  import opened ChunkStore
  import opened Repositories

  // ── Collecting live chunks ───────────────────────────────────────────────

  datatype Collected = Collected(chunks: seq<Entry>, kept: nat, discarded: nat, freed: nat)

  type Collection = Result<Collected, PackError>

  /** Keep a live chunk, which must be readable; count the others. */
  function CollectOne(sha: Sha, file: Bytes, live: set<Hash>, acc: Collected, loc: Location): Collection {
    if loc.hash in live then
      match ReadChunkAt(sha, file, loc.offset, loc.hash)
      case Err(e) => Err(e)
      case Ok(data) => Ok(acc.(chunks := acc.chunks + [Entry(loc.hash, data)], kept := acc.kept + 1))
    else
      Ok(acc.(discarded := acc.discarded + 1, freed := acc.freed + loc.size))
  }

  function CollectPack(sha: Sha, file: Bytes, live: set<Hash>, acc: Collected, locs: seq<Location>, n: nat): Collection
    requires n <= |locs|
    decreases n
  {
    if n == 0 then Ok(acc)
    else
      match CollectPack(sha, file, live, acc, locs, n - 1)
      case Err(e) => Err(e)
      case Ok(before) => CollectOne(sha, file, live, before, locs[n - 1])
  }

  function CollectAll(sha: Sha, packs: Packs, live: set<Hash>, ids: seq<nat>, n: nat): Collection
    requires n <= |ids| && forall k :: 0 <= k < |ids| ==> ids[k] in packs
    decreases n
  {
    if n == 0 then Ok(Collected([], 0, 0, 0))
    else
      match CollectAll(sha, packs, live, ids, n - 1)
      case Err(e) => Err(e)
      case Ok(before) =>
        var file := packs[ids[n - 1]];
        match ListFrom(file, HEADER_SIZE)
        case Err(e) => Err(e)
        case Ok(locs) => CollectPack(sha, file, live, before, locs, |locs|)
  }

  // ── Writing the new packs ────────────────────────────────────────────────

  datatype NewLocation = NewLocation(hash: Hash, packId: nat, offset: nat)

  datatype Output = Output(packs: Packs, buffer: seq<Entry>, nextId: nat, moved: seq<NewLocation>, newIds: seq<nat>)

  function InPack(id: nat, locs: seq<Location>): (r: seq<NewLocation>)
    ensures |r| == |locs|
  {
    seq(|locs|, k requires 0 <= k < |locs| => NewLocation(locs[k].hash, id, locs[k].offset))
  }

  function FlushOutput(sha: Sha, o: Output): Output {
    if o.buffer == [] then o
    else Output(o.packs[o.nextId := PackFile(sha, o.nextId, o.buffer)], [], o.nextId + 1,
                o.moved + InPack(o.nextId, Locations(o.buffer)), o.newIds + [o.nextId])
  }

  function WriteOneLive(sha: Sha, o: Output, e: Entry, target: nat): Output {
    var added := o.(buffer := o.buffer + [e]);
    if ShouldFlush(added.buffer, target) then FlushOutput(sha, added) else added
  }

  function WriteLive(sha: Sha, o: Output, chunks: seq<Entry>, target: nat, n: nat): Output
    requires n <= |chunks|
  {
    if n == 0 then o else WriteOneLive(sha, WriteLive(sha, o, chunks, target, n - 1), chunks[n - 1], target)
  }

  /** All chunks written to packs from `nextId` on. */
  function Rewritten(sha: Sha, packs: Packs, chunks: seq<Entry>, nextId: nat, target: nat): Output {
    FlushOutput(sha, WriteLive(sha, Output(packs, [], nextId, [], []), chunks, target, |chunks|))
  }

  // ── The index ────────────────────────────────────────────────────────────

  function MoveAll(index: Index, moved: seq<NewLocation>, n: nat): (r: Index)
    requires n <= |moved|
    ensures r.Keys == index.Keys
  {
    if n == 0 then index
    else
      var before := MoveAll(index, moved, n - 1);
      var m := moved[n - 1];
      if m.hash in before then before[m.hash := before[m.hash].(packId := m.packId, packOffset := m.offset)]
      else before
  }

  function OnlyLive(index: Index, live: set<Hash>): (r: Index)
    ensures r.Keys == index.Keys * live
    ensures forall h :: h in r ==> r[h] == index[h]
  {
    map h | h in index && h in live :: index[h]
  }

  function CompactedIndex(index: Index, moved: seq<NewLocation>, live: set<Hash>): Index {
    OnlyLive(MoveAll(index, moved, |moved|), live)
  }

  function WithoutPacks(packs: Packs, ids: seq<nat>, n: nat): (r: Packs)
    requires n <= |ids|
    ensures forall id :: id in r <==> id in packs && forall k :: 0 <= k < n ==> ids[k] != id
    ensures forall id :: id in r ==> r[id] == packs[id]
  {
    if n == 0 then packs else WithoutPacks(packs, ids, n - 1) - {ids[n - 1]}
  }

  // ── Compaction as a whole ────────────────────────────────────────────────

  /** All pack ids, in increasing order. */
  ghost predicate IsPackList(ids: seq<nat>, packs: Packs) {
    && (forall i, j :: 0 <= i < j < |ids| ==> ids[i] < ids[j])
    && (forall id :: id in packs <==> id in ids)
  }

  datatype Plan = Plan(collected: Collected, output: Output)

  /** The chunks to keep and the packs to write. */
  function Planned(sha: Sha, packs: Packs, live: set<Hash>, ids: seq<nat>, target: nat): Result<Plan, PackError>
    requires IsPackList(ids, packs) && |ids| > 0
  {
    match CollectAll(sha, packs, live, ids, |ids|)
    case Err(e) => Err(e)
    case Ok(c) => Ok(Plan(c, Rewritten(sha, packs, c.chunks, ids[|ids| - 1] + 1, target)))
  }

  datatype CompactResult = CompactResult(packsBefore: nat, packsAfter: nat, chunksKept: nat,
                                         chunksDiscarded: nat, bytesFreed: nat)

  method ListPackIds(packs: Packs) returns (ids: seq<nat>)
    ensures IsPackList(ids, packs)
  {
    ids := [];
    var rest := packs;
    while rest.Keys != {}
      invariant forall id :: id in packs <==> id in rest || id in ids
      invariant forall i, j :: 0 <= i < j < |ids| ==> ids[i] < ids[j]
      invariant forall id, i :: id in rest && 0 <= i < |ids| ==> id < ids[i]
      decreases |rest.Keys|
    {
      var m := MaxPackId(rest);
      var some :| some in rest;
      assert m in rest;
      var smaller: Packs := rest - {m};
      assert smaller.Keys == rest.Keys - {m};
      rest := smaller;
      ids := [m] + ids;
    }
  }

  /** The state and the answer that compaction leaves. */
  ghost predicate CompactSpec(sha: Sha, packs: Packs, index: Option<Index>, live: set<Hash>, target: nat, ids: seq<nat>,
                              packs': Packs, index': Option<Index>, r: Result<CompactResult, PackError>)
    requires IsPackList(ids, packs)
  {
    if |ids| == 0 then
      r == Ok(CompactResult(0, 0, 0, 0, 0)) && packs' == packs && index' == index
    else
      match Planned(sha, packs, live, ids, target)
      case Err(e) => r == Err(e) && packs' == packs && index' == index
      case Ok(plan) =>
        && r == Ok(CompactResult(|ids|, |plan.output.newIds|, plan.collected.kept, plan.collected.discarded,
                                 plan.collected.freed))
        && packs' == WithoutPacks(plan.output.packs, ids, |ids|)
        && index' == (match index
                      case None => None
                      case Some(i) => Some(CompactedIndex(i, plan.output.moved, live)))
  }

  method Collect(sha: Sha, packs: Packs, live: set<Hash>, ids: seq<nat>) returns (r: Collection)
    requires forall k :: 0 <= k < |ids| ==> ids[k] in packs
    ensures r == CollectAll(sha, packs, live, ids, |ids|)
  {
    hide ReadChunkAt, ListFrom;
    var acc := Collected([], 0, 0, 0);
    for n := 0 to |ids|
      invariant CollectAll(sha, packs, live, ids, n) == Ok(acc)
      invariant forall e :: CollectAll(sha, packs, live, ids, n) != Err(e)
    {
      var file := packs[ids[n]];
      var listing := ListChunks(file);
      if listing.Err? {
        CollectFails(sha, packs, live, ids, n + 1);
        return Err(listing.error);
      }
      var step := CollectOnePack(sha, file, live, acc, listing.value);
      if step.Err? {
        CollectFails(sha, packs, live, ids, n + 1);
        return Err(step.error);
      }
      acc := step.value;
    }
    r := Ok(acc);
  }

  method CollectOnePack(sha: Sha, file: Bytes, live: set<Hash>, start: Collected, locs: seq<Location>) returns (r: Collection)
    ensures r == CollectPack(sha, file, live, start, locs, |locs|)
  {
    hide CollectOne;
    var acc := start;
    for k := 0 to |locs|
      invariant CollectPack(sha, file, live, start, locs, k) == Ok(acc)
    {
      var step := CollectOne(sha, file, live, acc, locs[k]);
      if step.Err? {
        CollectPackFails(sha, file, live, start, locs, k + 1);
        return step;
      }
      acc := step.value;
    }
    r := Ok(acc);
  }

  /** The first failure is the answer. */
  lemma {:induction false} CollectPackFails(sha: Sha, file: Bytes, live: set<Hash>, acc: Collected, locs: seq<Location>, n: nat)
    requires n <= |locs| && CollectPack(sha, file, live, acc, locs, n).Err?
    ensures CollectPack(sha, file, live, acc, locs, |locs|) == CollectPack(sha, file, live, acc, locs, n)
    decreases |locs| - n
  {
    hide CollectOne;
    if n < |locs| {
      CollectPackFails(sha, file, live, acc, locs, n + 1);
    }
  }

  lemma {:induction false} CollectFails(sha: Sha, packs: Packs, live: set<Hash>, ids: seq<nat>, n: nat)
    requires n <= |ids| && forall k :: 0 <= k < |ids| ==> ids[k] in packs
    requires CollectAll(sha, packs, live, ids, n).Err?
    ensures CollectAll(sha, packs, live, ids, |ids|) == CollectAll(sha, packs, live, ids, n)
    decreases |ids| - n
  {
    hide *;
    if n < |ids| {
      CollectStaysFailed(sha, packs, live, ids, n);
      CollectFails(sha, packs, live, ids, n + 1);
    }
  }

  lemma CollectStaysFailed(sha: Sha, packs: Packs, live: set<Hash>, ids: seq<nat>, n: nat)
    requires n < |ids| && forall k :: 0 <= k < |ids| ==> ids[k] in packs
    requires CollectAll(sha, packs, live, ids, n).Err?
    ensures CollectAll(sha, packs, live, ids, n + 1) == CollectAll(sha, packs, live, ids, n)
  {
    hide ListFrom, CollectPack;
  }

  // ── What a crash during compaction can leave ─────────────────────────────

  /** A rewriting: the disk before it, the chunks to copy, and what follows. */
  datatype Rewriting = Rewriting(base: Image, chunks: seq<Entry>, first: nat, target: nat, live: set<Hash>, ids: seq<nat>)

  function CopiedPacks(sha: Sha, w: Rewriting, m: nat): Packs
    requires m <= |w.chunks|
  {
    WriteLive(sha, Output(w.base.packs, [], w.first, [], []), w.chunks, w.target, m).packs
  }

  function AllCopiedPacks(sha: Sha, w: Rewriting): Output {
    Rewritten(sha, w.base.packs, w.chunks, w.first, w.target)
  }

  /** Some of the new packs exist; index and snapshots are as before. */
  ghost predicate CopyImage(sha: Sha, w: Rewriting, img: Image) {
    && img.index == w.base.index && img.snapshots == w.base.snapshots
    && ((exists m: nat :: m <= |w.chunks| && img.packs == CopiedPacks(sha, w, m)) || img.packs == AllCopiedPacks(sha, w).packs)
  }

  function NewIndex(sha: Sha, w: Rewriting): Option<Index> {
    match w.base.index
    case None => None
    case Some(i) => Some(CompactedIndex(i, AllCopiedPacks(sha, w).moved, w.live))
  }

  /** The new index is saved and some of the old packs are gone. */
  ghost predicate DropImage(sha: Sha, w: Rewriting, img: Image) {
    && img.index == NewIndex(sha, w) && img.snapshots == w.base.snapshots
    && exists m: nat :: m <= |w.ids| && img.packs == WithoutPacks(AllCopiedPacks(sha, w).packs, w.ids, m)
  }

  ghost predicate CopyImages(sha: Sha, w: Rewriting, before: seq<Image>, after: seq<Image>) {
    && before <= after
    && forall i :: |before| <= i < |after| ==> CopyImage(sha, w, after[i])
  }

  ghost predicate CompactionImages(sha: Sha, w: Rewriting, before: seq<Image>, after: seq<Image>) {
    && before <= after
    && forall i :: |before| <= i < |after| ==> CopyImage(sha, w, after[i]) || DropImage(sha, w, after[i])
  }

  lemma NoCopies(sha: Sha, w: Rewriting, history: seq<Image>)
    ensures CopyImages(sha, w, history, history)
  {
  }

  /** The disk during copying: the images so far, plus the write that copying chunk `m` may have made. */
  lemma OneMoreCopy(sha: Sha, w: Rewriting, before: seq<Image>, after: seq<Image>, after': seq<Image>, now: Image, m: nat)
    requires CopyImages(sha, w, before, after) && OneWrite(after, after', now) && m <= |w.chunks|
    requires now.index == w.base.index && now.snapshots == w.base.snapshots && now.packs == CopiedPacks(sha, w, m)
    ensures CopyImages(sha, w, before, after')
  {
    hide CopiedPacks, AllCopiedPacks;
    assert CopyImage(sha, w, now);
  }

  lemma LastCopy(sha: Sha, w: Rewriting, before: seq<Image>, after: seq<Image>, after': seq<Image>, now: Image)
    requires CopyImages(sha, w, before, after) && OneWrite(after, after', now)
    requires now.index == w.base.index && now.snapshots == w.base.snapshots && now.packs == AllCopiedPacks(sha, w).packs
    ensures CopyImages(sha, w, before, after')
  {
    hide CopiedPacks, AllCopiedPacks;
    assert CopyImage(sha, w, now);
  }

  lemma CopiesAreImages(sha: Sha, w: Rewriting, before: seq<Image>, after: seq<Image>)
    requires CopyImages(sha, w, before, after)
    ensures CompactionImages(sha, w, before, after)
  {
    hide CopyImage;
  }

  lemma OneMoreDrop(sha: Sha, w: Rewriting, before: seq<Image>, after: seq<Image>, now: Image, m: nat)
    requires CompactionImages(sha, w, before, after) && m <= |w.ids|
    requires now == Image(WithoutPacks(AllCopiedPacks(sha, w).packs, w.ids, m), NewIndex(sha, w), w.base.snapshots)
    ensures CompactionImages(sha, w, before, after + [now])
  {
    hide CopyImage, AllCopiedPacks, WithoutPacks, NewIndex;
    assert DropImage(sha, w, now);
  }

  /** The writer and the lists that grow with each flush, as a value. */
  ghost function OutputOf(writer: PackWriter, moved: seq<NewLocation>, newIds: seq<nat>): Output
    reads writer, writer.disk
  {
    Output(writer.disk.packs, writer.buffer, writer.nextPackId, moved, newIds)
  }

  method FlushNew(writer: PackWriter, moved: seq<NewLocation>, newIds: seq<nat>)
    returns (moved': seq<NewLocation>, newIds': seq<nat>)
    requires writer.Valid() && SizesFit(writer.buffer)
    modifies writer, writer.disk`packs, writer.disk`history
    ensures writer.Valid() && writer.buffer == []
    ensures OutputOf(writer, moved', newIds') == FlushOutput(writer.sha, old(OutputOf(writer, moved, newIds)))
    ensures OneWrite(old(writer.disk.history), writer.disk.history, writer.disk.Now())
  {
    hide PackFile, Locations, BufferBytes, SizesFit;
    moved', newIds' := moved, newIds;
    var flushed := writer.Flush();
    if flushed.Some? {
      var locs := flushed.value.chunkLocations;
      for k := 0 to |locs|
        invariant moved' == moved + InPack(flushed.value.packId, locs)[..k]
      {
        moved' := moved' + [NewLocation(locs[k].hash, flushed.value.packId, locs[k].offset)];
      }
      assert InPack(flushed.value.packId, locs)[..|locs|] == InPack(flushed.value.packId, locs);
      newIds' := newIds + [flushed.value.packId];
    }
  }

  /** Add one chunk to the writer and flush it when it is full. */
  method AddLive(writer: PackWriter, e: Entry, moved: seq<NewLocation>, newIds: seq<nat>)
    returns (moved': seq<NewLocation>, newIds': seq<nat>)
    requires writer.Valid() && SizesFit(writer.buffer) && |e.data| < MAX_STORED
    modifies writer, writer.disk`packs, writer.disk`history
    ensures writer.Valid() && SizesFit(writer.buffer)
    ensures OutputOf(writer, moved', newIds') ==
            WriteOneLive(writer.sha, old(OutputOf(writer, moved, newIds)), e, writer.targetSize)
    ensures OneWrite(old(writer.disk.history), writer.disk.history, writer.disk.Now())
  {
    hide FlushOutput, ShouldFlush, BufferBytes, SizesFit;
    OneMoreFits(writer.buffer, e);
    NoSizes();
    moved', newIds' := moved, newIds;
    var shouldFlush := writer.AddChunk(e.hash, e.data);
    if shouldFlush {
      moved', newIds' := FlushNew(writer, moved, newIds);
    }
  }

  lemma OneMoreFits(entries: seq<Entry>, e: Entry)
    requires SizesFit(entries) && |e.data| < MAX_STORED
    ensures SizesFit(entries + [Entry(e.hash, e.data)])
  {
  }

  /** Where copying stands after `n` chunks. */
  ghost predicate Copying(sha: Sha, w: Rewriting, o: Output, now: Image, before: seq<Image>, after: seq<Image>, n: nat)
    requires n <= |w.chunks|
  {
    && o == WriteLive(sha, Output(w.base.packs, [], w.first, [], []), w.chunks, w.target, n)
    && now == Image(o.packs, w.base.index, w.base.snapshots)
    && CopyImages(sha, w, before, after)
  }

  lemma CopyingStarts(sha: Sha, w: Rewriting, history: seq<Image>)
    ensures Copying(sha, w, Output(w.base.packs, [], w.first, [], []), w.base, history, history, 0)
  {
    hide CopyImages;
    NoCopies(sha, w, history);
  }

  lemma CopyingGoesOn(sha: Sha, w: Rewriting, o: Output, now: Image, before: seq<Image>, after: seq<Image>, n: nat,
                      o': Output, now': Image, after': seq<Image>)
    requires n < |w.chunks| && Copying(sha, w, o, now, before, after, n)
    requires o' == WriteOneLive(sha, o, w.chunks[n], w.target) && OneWrite(after, after', now')
    requires now' == Image(o'.packs, now.index, now.snapshots)
    ensures Copying(sha, w, o', now', before, after', n + 1)
  {
    hide CopyImages, OneWrite, WriteOneLive;
    OneMoreCopy(sha, w, before, after, after', now', n + 1);
  }

  lemma CopyingEnds(sha: Sha, w: Rewriting, o: Output, now: Image, before: seq<Image>, after: seq<Image>,
                    o': Output, now': Image, after': seq<Image>)
    requires Copying(sha, w, o, now, before, after, |w.chunks|)
    requires o' == FlushOutput(sha, o) && OneWrite(after, after', now') && now' == Image(o'.packs, now.index, now.snapshots)
    ensures o' == AllCopiedPacks(sha, w) && now' == Image(o'.packs, w.base.index, w.base.snapshots)
    ensures CopyImages(sha, w, before, after')
  {
    hide CopyImages, OneWrite, WriteLive, FlushOutput;
    LastCopy(sha, w, before, after, after', now');
  }

  /** The writer while the first `n` chunks of `w` have been copied. */
  ghost predicate CopyState(writer: PackWriter, moved: seq<NewLocation>, newIds: seq<nat>, w: Rewriting, history: seq<Image>, n: nat)
    requires n <= |w.chunks|
    reads writer, writer.disk
  {
    && writer.Valid() && SizesFit(writer.buffer) && writer.targetSize == w.target
    && Copying(writer.sha, w, OutputOf(writer, moved, newIds), writer.disk.Now(), history, writer.disk.history, n)
  }

  /** One round of the copy loop. */
  method CopyOne(writer: PackWriter, moved: seq<NewLocation>, newIds: seq<nat>, ghost w: Rewriting, ghost history: seq<Image>,
                 ghost n: nat, e: Entry) returns (moved': seq<NewLocation>, newIds': seq<nat>)
    requires n < |w.chunks| && e == w.chunks[n] && |e.data| < MAX_STORED
    requires CopyState(writer, moved, newIds, w, history, n)
    modifies writer, writer.disk`packs, writer.disk`history
    ensures CopyState(writer, moved', newIds', w, history, n + 1)
  {
    hide WriteOneLive, BufferBytes, SizesFit, Copying, OneWrite;
    ghost var o, now, after := OutputOf(writer, moved, newIds), writer.disk.Now(), writer.disk.history;
    moved', newIds' := AddLive(writer, e, moved, newIds);
    CopyingGoesOn(writer.sha, w, o, now, history, after, n,
                  OutputOf(writer, moved', newIds'), writer.disk.Now(), writer.disk.history);
  }

  method CopyAll(writer: PackWriter, chunks: seq<Entry>, ghost w: Rewriting, ghost history: seq<Image>)
    returns (moved: seq<NewLocation>, newIds: seq<nat>)
    requires chunks == w.chunks && SizesFit(chunks) && CopyState(writer, [], [], w, history, 0)
    modifies writer, writer.disk`packs, writer.disk`history
    ensures CopyState(writer, moved, newIds, w, history, |chunks|)
  {
    hide CopyState, SizesFit;
    moved, newIds := [], [];
    for n := 0 to |chunks|
      invariant CopyState(writer, moved, newIds, w, history, n)
    {
      OneFits(chunks, n);
      moved, newIds := CopyOne(writer, moved, newIds, w, history, n, chunks[n]);
    }
  }

  method WriteChunks(writer: PackWriter, chunks: seq<Entry>, ghost w: Rewriting)
    returns (moved: seq<NewLocation>, newIds: seq<nat>)
    requires writer.Valid() && writer.buffer == [] && SizesFit(chunks)
    requires w.base == writer.disk.Now() && w.chunks == chunks && w.first == writer.nextPackId && w.target == writer.targetSize
    modifies writer, writer.disk`packs, writer.disk`history
    ensures OutputOf(writer, moved, newIds) == AllCopiedPacks(writer.sha, w)
    ensures writer.disk.Now() == Image(writer.disk.packs, w.base.index, w.base.snapshots)
    ensures CopyImages(writer.sha, w, old(writer.disk.history), writer.disk.history)
  {
    hide FlushOutput, BufferBytes, SizesFit, Copying, CopyImages, OneWrite, AllCopiedPacks;
    ghost var history := writer.disk.history;
    NoSizes();
    CopyingStarts(writer.sha, w, history);
    moved, newIds := CopyAll(writer, chunks, w, history);
    ghost var o, now, after := OutputOf(writer, moved, newIds), writer.disk.Now(), writer.disk.history;
    moved, newIds := FlushNew(writer, moved, newIds);
    CopyingEnds(writer.sha, w, o, now, history, after, OutputOf(writer, moved, newIds), writer.disk.Now(), writer.disk.history);
  }

  method UpdateIndex(index: Index, moved: seq<NewLocation>, live: set<Hash>) returns (r: Index)
    ensures r == CompactedIndex(index, moved, live)
  {
    r := index;
    for n := 0 to |moved|
      invariant r == MoveAll(index, moved, n)
    {
      var m := moved[n];
      if m.hash in r {
        r := r[m.hash := r[m.hash].(packId := m.packId, packOffset := m.offset)];
      }
    }
    r := OnlyLive(r, live);
  }

  /** Every write that compaction made left one of the two kinds of image. */
  ghost predicate CompactRecord(sha: Sha, base: Image, live: set<Hash>, target: nat, ids: seq<nat>,
                                before: seq<Image>, after: seq<Image>)
    requires IsPackList(ids, base.packs)
  {
    if |ids| == 0 || CollectAll(sha, base.packs, live, ids, |ids|).Err? then after == before
    else
      var c := CollectAll(sha, base.packs, live, ids, |ids|).value;
      CompactionImages(sha, Rewriting(base, c.chunks, ids[|ids| - 1] + 1, target, live, ids), before, after)
  }

  method CompactPacks(sha: Sha, disk: Disk, live: set<Hash>, target: nat)
    returns (r: Result<CompactResult, PackError>, ghost ids: seq<nat>)
    modifies disk`packs, disk`index, disk`history
    ensures IsPackList(ids, old(disk.packs))
    ensures CompactSpec(sha, old(disk.packs), old(disk.index), live, target, ids, disk.packs, disk.index, r)
    ensures CompactRecord(sha, old(disk.Now()), live, target, ids, old(disk.history), disk.history)
  {
    hide *;
    ghost var base, history := disk.Now(), disk.history;
    ghost var packs, index := disk.packs, disk.index;
    NowIs(disk);
    var listed := ListPackIds(disk.packs);
    ids := listed;
    ListedInPacks(ids, packs);
    if |listed| == 0 {
      r := Ok(CompactResult(0, 0, 0, 0, 0));
      CompactNothing(sha, packs, index, live, target, ids);
      NothingRecorded(sha, base, live, target, ids, history);
      return;
    }
    var nextPackId := listed[|listed| - 1] + 1;
    var collection := Collect(sha, disk.packs, live, listed);
    if collection.Err? {
      r := Err(collection.error);
      CompactFails(sha, packs, index, live, target, ids);
      NothingRecorded(sha, base, live, target, ids, history);
      return;
    }
    var c := collection.value;
    CollectAllFit(sha, packs, live, ids, |ids|);
    ghost var w := Rewriting(base, c.chunks, nextPackId, target, live, ids);
    var newIds := Rewrite(sha, disk, c.chunks, nextPackId, target, live, listed, w);
    r := Ok(CompactResult(|listed|, |newIds|, c.kept, c.discarded, c.freed));
    CompactSucceeds(sha, packs, index, live, target, ids, Plan(c, Rewritten(sha, packs, c.chunks, nextPackId, target)));
    RewritingFacts(sha, w);
    WritesRecorded(sha, base, live, target, ids, history, disk.history, c);
  }

  lemma NowIs(disk: Disk)
    ensures disk.Now() == Image(disk.packs, disk.index, disk.snapshots)
  {
  }

  lemma NothingRecorded(sha: Sha, base: Image, live: set<Hash>, target: nat, ids: seq<nat>, history: seq<Image>)
    requires IsPackList(ids, base.packs) && (forall k :: 0 <= k < |ids| ==> ids[k] in base.packs)
    requires |ids| == 0 || CollectAll(sha, base.packs, live, ids, |ids|).Err?
    ensures CompactRecord(sha, base, live, target, ids, history, history)
  {
    hide CollectAll;
  }

  lemma WritesRecorded(sha: Sha, base: Image, live: set<Hash>, target: nat, ids: seq<nat>, before: seq<Image>,
                       after: seq<Image>, c: Collected)
    requires IsPackList(ids, base.packs) && (forall k :: 0 <= k < |ids| ==> ids[k] in base.packs) && |ids| > 0
    requires CollectAll(sha, base.packs, live, ids, |ids|) == Ok(c)
    requires CompactionImages(sha, Rewriting(base, c.chunks, ids[|ids| - 1] + 1, target, live, ids), before, after)
    ensures CompactRecord(sha, base, live, target, ids, before, after)
  {
    hide CollectAll, CompactionImages;
  }

  lemma RewritingFacts(sha: Sha, w: Rewriting)
    ensures AllCopiedPacks(sha, w) == Rewritten(sha, w.base.packs, w.chunks, w.first, w.target)
    ensures NewIndex(sha, w) == (match w.base.index
                                 case None => None
                                 case Some(i) => Some(CompactedIndex(i, AllCopiedPacks(sha, w).moved, w.live)))
  {
    hide Rewritten, CompactedIndex;
  }

  /** New packs first, then the index, then the old packs are deleted. */
  method Rewrite(sha: Sha, disk: Disk, chunks: seq<Entry>, nextId: nat, target: nat, live: set<Hash>, ids: seq<nat>,
                 ghost w: Rewriting) returns (newIds: seq<nat>)
    requires SizesFit(chunks) && w == Rewriting(disk.Now(), chunks, nextId, target, live, ids)
    modifies disk`packs, disk`index, disk`history
    ensures newIds == AllCopiedPacks(sha, w).newIds
    ensures disk.packs == WithoutPacks(AllCopiedPacks(sha, w).packs, ids, |ids|) && disk.index == NewIndex(sha, w)
    ensures CompactionImages(sha, w, old(disk.history), disk.history)
  {
    hide SizesFit, BufferBytes, CopyImages, CompactionImages, AllCopiedPacks, CompactedIndex, NewIndex;
    ghost var history := disk.history;
    var writer := new PackWriter(sha, disk, nextId, target);
    var moved;
    moved, newIds := WriteChunks(writer, chunks, w);
    CopiesAreImages(sha, w, history, disk.history);
    SaveMoved(sha, disk, moved, live, w, history);
    DeletePacks(sha, disk, ids, w, history);
  }

  /** Repoint and save the index, if there is one. */
  method SaveMoved(sha: Sha, disk: Disk, moved: seq<NewLocation>, live: set<Hash>, ghost w: Rewriting, ghost history: seq<Image>)
    requires disk.index == w.base.index && disk.snapshots == w.base.snapshots && live == w.live
    requires disk.packs == AllCopiedPacks(sha, w).packs && moved == AllCopiedPacks(sha, w).moved
    requires CompactionImages(sha, w, history, disk.history)
    modifies disk`index, disk`history
    ensures disk.index == NewIndex(sha, w)
    ensures CompactionImages(sha, w, history, disk.history)
  {
    hide CompactionImages, AllCopiedPacks, CompactedIndex, WithoutPacks;
    if disk.index.Some? {
      var updated := UpdateIndex(disk.index.value, moved, live);
      NoneGone(AllCopiedPacks(sha, w).packs, w.ids);
      OneMoreDrop(sha, w, history, disk.history, Image(disk.packs, Some(updated), disk.snapshots), 0);
      disk.PutIndex(updated);
    }
  }

  lemma NoneGone(packs: Packs, ids: seq<nat>)
    ensures WithoutPacks(packs, ids, 0) == packs
  {
  }

  /** `n` old packs are gone. */
  ghost predicate Dropped(sha: Sha, w: Rewriting, now: Image, before: seq<Image>, after: seq<Image>, n: nat)
    requires n <= |w.ids|
  {
    && now == Image(WithoutPacks(AllCopiedPacks(sha, w).packs, w.ids, n), NewIndex(sha, w), w.base.snapshots)
    && CompactionImages(sha, w, before, after)
  }

  lemma DropGoesOn(sha: Sha, w: Rewriting, now: Image, before: seq<Image>, after: seq<Image>, n: nat, now': Image)
    requires n < |w.ids| && Dropped(sha, w, now, before, after, n)
    requires now' == Image(now.packs - {w.ids[n]}, now.index, now.snapshots)
    ensures Dropped(sha, w, now', before, after + [now'], n + 1)
  {
    hide CompactionImages, AllCopiedPacks, NewIndex;
    OneMoreDrop(sha, w, before, after, now', n + 1);
  }

  method DeletePacks(sha: Sha, disk: Disk, ids: seq<nat>, ghost w: Rewriting, ghost history: seq<Image>)
    requires ids == w.ids && Dropped(sha, w, disk.Now(), history, disk.history, 0)
    modifies disk`packs, disk`history
    ensures Dropped(sha, w, disk.Now(), history, disk.history, |ids|)
  {
    hide Dropped;
    for n := 0 to |ids|
      invariant Dropped(sha, w, disk.Now(), history, disk.history, n)
    {
      DropGoesOn(sha, w, disk.Now(), history, disk.history, n, Image(disk.packs - {ids[n]}, disk.index, disk.snapshots));
      disk.RemovePack(ids[n]);
    }
  }

  lemma ListedInPacks(ids: seq<nat>, packs: Packs)
    requires IsPackList(ids, packs)
    ensures forall k :: 0 <= k < |ids| ==> ids[k] in packs
  {
  }

  lemma CompactNothing(sha: Sha, packs: Packs, index: Option<Index>, live: set<Hash>, target: nat, ids: seq<nat>)
    requires IsPackList(ids, packs) && |ids| == 0
    ensures CompactSpec(sha, packs, index, live, target, ids, packs, index, Ok(CompactResult(0, 0, 0, 0, 0)))
  {
  }

  lemma CompactFails(sha: Sha, packs: Packs, index: Option<Index>, live: set<Hash>, target: nat, ids: seq<nat>)
    requires IsPackList(ids, packs) && |ids| > 0
    requires forall k :: 0 <= k < |ids| ==> ids[k] in packs
    requires CollectAll(sha, packs, live, ids, |ids|).Err?
    ensures var e := CollectAll(sha, packs, live, ids, |ids|).error;
            CompactSpec(sha, packs, index, live, target, ids, packs, index, Err(e))
  {
    hide CollectAll;
  }

  lemma CompactSucceeds(sha: Sha, packs: Packs, index: Option<Index>, live: set<Hash>, target: nat, ids: seq<nat>, plan: Plan)
    requires IsPackList(ids, packs) && |ids| > 0
    requires forall k :: 0 <= k < |ids| ==> ids[k] in packs
    requires CollectAll(sha, packs, live, ids, |ids|) == Ok(plan.collected)
    requires plan.output == Rewritten(sha, packs, plan.collected.chunks, ids[|ids| - 1] + 1, target)
    ensures var c := plan.collected;
            CompactSpec(sha, packs, index, live, target, ids, WithoutPacks(plan.output.packs, ids, |ids|),
                        (match index case None => None case Some(i) => Some(CompactedIndex(i, plan.output.moved, live))),
                        Ok(CompactResult(|ids|, |plan.output.newIds|, c.kept, c.discarded, c.freed)))
  {
    hide CollectAll, WriteLive, FlushOutput, WithoutPacks, CompactedIndex;
  }

  lemma {:induction false} CollectAllFit(sha: Sha, packs: Packs, live: set<Hash>, ids: seq<nat>, n: nat)
    requires n <= |ids| && forall k :: 0 <= k < |ids| ==> ids[k] in packs
    requires CollectAll(sha, packs, live, ids, n).Ok?
    ensures SizesFit(CollectAll(sha, packs, live, ids, n).value.chunks)
    decreases n
  {
    hide ListFrom, CollectPack, SizesFit;
    if n == 0 {
      NoSizes();
    } else {
      CollectAllFit(sha, packs, live, ids, n - 1);
      var before, file := CollectAll(sha, packs, live, ids, n - 1).value, packs[ids[n - 1]];
      var locs := ListFrom(file, HEADER_SIZE).value;
      CollectPackFit(sha, file, live, before, locs, |locs|);
    }
  }

  lemma NoSizes()
    ensures SizesFit([])
  {
  }

  lemma {:induction false} CollectPackFit(sha: Sha, file: Bytes, live: set<Hash>, acc: Collected, locs: seq<Location>, n: nat)
    requires n <= |locs| && SizesFit(acc.chunks)
    requires CollectPack(sha, file, live, acc, locs, n).Ok?
    ensures SizesFit(CollectPack(sha, file, live, acc, locs, n).value.chunks)
    decreases n
  {
    hide CollectOne, SizesFit;
    if n > 0 {
      CollectPackFit(sha, file, live, acc, locs, n - 1);
      CollectOneFit(sha, file, live, CollectPack(sha, file, live, acc, locs, n - 1).value, locs[n - 1]);
    }
  }

  lemma CollectOneFit(sha: Sha, file: Bytes, live: set<Hash>, acc: Collected, loc: Location)
    requires SizesFit(acc.chunks) && CollectOne(sha, file, live, acc, loc).Ok?
    ensures SizesFit(CollectOne(sha, file, live, acc, loc).value.chunks)
  {
    hide ReadChunkAt;
    if loc.hash in live {
      ReadFits(sha, file, loc.offset, loc.hash);
    }
  }
}
