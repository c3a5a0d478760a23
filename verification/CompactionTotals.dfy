/**
 The books of a compaction (crates/core/src/pack.rs): how the copied chunks are cut into new packs, and that
 entries and bytes are conserved, name by name, between the old packs, the new ones and the answer.
 */
module CompactionTotals {
  import opened Wrappers
  import opened Bytes
  import opened Digest
  import opened PackFormat
  import opened ChunkStore
  import opened Repositories
  import opened Compaction
  import opened IndexSoundness
  import opened CompactionSafety
  import opened ByteLayouts

  // ── Sums ─────────────────────────────────────────────────────────────────

  /** The stored bytes that a listing names. */
  function Total(locs: seq<Location>): nat {
    if |locs| == 0 then 0 else Total(locs[..|locs| - 1]) + locs[|locs| - 1].size
  }

  /** How many entries of a listing have the name. */
  function NumberOf(locs: seq<Location>, h: Hash): nat {
    if |locs| == 0 then 0 else NumberOf(locs[..|locs| - 1], h) + if locs[|locs| - 1].hash == h then 1 else 0
  }

  function DataBytes(chunks: seq<Entry>): nat {
    if |chunks| == 0 then 0 else DataBytes(chunks[..|chunks| - 1]) + |chunks[|chunks| - 1].data|
  }

  function NumberIn(chunks: seq<Entry>, h: Hash): nat {
    if |chunks| == 0 then 0 else NumberIn(chunks[..|chunks| - 1], h) + if chunks[|chunks| - 1].hash == h then 1 else 0
  }

  lemma {:induction false} ListingSums(a: seq<Location>, b: seq<Location>, h: Hash)
    ensures Total(a + b) == Total(a) + Total(b) && NumberOf(a + b, h) == NumberOf(a, h) + NumberOf(b, h)
    decreases |b|
  {
    if |b| == 0 {
      assert a + b == a;
    } else {
      var n := |b| - 1;
      ListingSums(a, b[..n], h);
      assert (a + b)[..|a + b| - 1] == a + b[..n];
    }
  }

  lemma {:induction false} ChunkSums(a: seq<Entry>, b: seq<Entry>, h: Hash)
    ensures DataBytes(a + b) == DataBytes(a) + DataBytes(b) && NumberIn(a + b, h) == NumberIn(a, h) + NumberIn(b, h)
    decreases |b|
  {
    if |b| == 0 {
      assert a + b == a;
    } else {
      var n := |b| - 1;
      ChunkSums(a, b[..n], h);
      assert (a + b)[..|a + b| - 1] == a + b[..n];
    }
  }

  // ── Collecting ───────────────────────────────────────────────────────────

  /** What was collected from these entries: their bytes are copied or freed, live names are copied as often as they are listed. */
  predicate Balanced(c: Collected, locs: seq<Location>, live: set<Hash>, h: Hash) {
    && DataBytes(c.chunks) + c.freed == Total(locs)
    && NumberIn(c.chunks, h) == if h in live then NumberOf(locs, h) else 0
  }

  lemma KeptBalances(acc: Collected, before: seq<Location>, live: set<Hash>, loc: Location, data: Bytes, h: Hash)
    requires Balanced(acc, before, live, h) && loc.hash in live && |data| == loc.size
    ensures Balanced(acc.(chunks := acc.chunks + [Entry(loc.hash, data)], kept := acc.kept + 1), before + [loc], live, h)
  {
    var e := Entry(loc.hash, data);
    assert (before + [loc])[..|before|] == before;
    assert (acc.chunks + [e])[..|acc.chunks|] == acc.chunks;
  }

  lemma FreedBalances(acc: Collected, before: seq<Location>, live: set<Hash>, loc: Location, h: Hash)
    requires Balanced(acc, before, live, h) && loc.hash !in live
    ensures Balanced(acc.(discarded := acc.discarded + 1, freed := acc.freed + loc.size), before + [loc], live, h)
  {
    assert (before + [loc])[..|before|] == before;
  }

  /** The size of a listed entry is the length field in the file. */
  predicate HasField(file: Bytes, loc: Location) {
    loc.offset + 69 <= |file| && FromLe(file[loc.offset + 65..loc.offset + 69]) == loc.size
  }

  lemma ReadLength(sha: Sha, file: Bytes, loc: Location, data: Bytes)
    requires HasField(file, loc) && ReadChunkAt(sha, file, loc.offset, loc.hash) == Ok(data)
    ensures |data| == loc.size
  {
    hide ReadChunkAt, FromLe, HashOfChunk;
    ReadsIff(sha, file, loc.offset, loc.hash, data);
  }

  lemma CollectOneBalances(sha: Sha, file: Bytes, live: set<Hash>, acc: Collected, before: seq<Location>, loc: Location, r: Collection,
                           h: Hash)
    requires Balanced(acc, before, live, h) && r == CollectOne(sha, file, live, acc, loc) && r.Ok? && HasField(file, loc)
    ensures Balanced(r.value, before + [loc], live, h)
  {
    hide *;
    var data := CollectCases(sha, file, live, acc, loc, r);
    if loc.hash in live {
      KeptBalances(acc, before, live, loc, data, h);
    } else {
      FreedBalances(acc, before, live, loc, h);
    }
  }

  lemma CollectCases(sha: Sha, file: Bytes, live: set<Hash>, acc: Collected, loc: Location, r: Collection) returns (data: Bytes)
    requires r == CollectOne(sha, file, live, acc, loc) && r.Ok? && HasField(file, loc)
    ensures if loc.hash in live then
              |data| == loc.size && r.value == acc.(chunks := acc.chunks + [Entry(loc.hash, data)], kept := acc.kept + 1)
            else r.value == acc.(discarded := acc.discarded + 1, freed := acc.freed + loc.size)
  {
    hide ReadChunkAt, HasField, HashOfChunk;
    data := [];
    if loc.hash in live {
      data := ReadChunkAt(sha, file, loc.offset, loc.hash).value;
      ReadLength(sha, file, loc, data);
    }
  }

  lemma {:induction false} CollectPackBalances(sha: Sha, file: Bytes, live: set<Hash>, acc: Collected, before: seq<Location>,
                                               locs: seq<Location>, n: nat, h: Hash)
    requires n <= |locs| && ListFrom(file, HEADER_SIZE) == Ok(locs) && Balanced(acc, before, live, h)
    requires CollectPack(sha, file, live, acc, locs, n).Ok?
    ensures Balanced(CollectPack(sha, file, live, acc, locs, n).value, before + locs[..n], live, h)
    decreases n
  {
    hide *;
    if n == 0 {
      StartOfPack(sha, file, live, acc, before, locs);
    } else {
      PackStep(sha, file, live, acc, locs, n);
      CollectPackBalances(sha, file, live, acc, before, locs, n - 1, h);
      var c := CollectPack(sha, file, live, acc, locs, n - 1).value;
      SizeIsField(file, locs, n - 1);
      CollectOneBalances(sha, file, live, c, before + locs[..n - 1], locs[n - 1], CollectPack(sha, file, live, acc, locs, n), h);
      OneMoreListed(before, locs, n);
    }
  }

  lemma StartOfPack(sha: Sha, file: Bytes, live: set<Hash>, acc: Collected, before: seq<Location>, locs: seq<Location>)
    ensures CollectPack(sha, file, live, acc, locs, 0) == Ok(acc) && before + locs[..0] == before
  {
  }

  lemma PackStep(sha: Sha, file: Bytes, live: set<Hash>, acc: Collected, locs: seq<Location>, n: nat)
    requires 0 < n <= |locs| && CollectPack(sha, file, live, acc, locs, n).Ok?
    ensures CollectPack(sha, file, live, acc, locs, n - 1).Ok?
    ensures CollectPack(sha, file, live, acc, locs, n) ==
            CollectOne(sha, file, live, CollectPack(sha, file, live, acc, locs, n - 1).value, locs[n - 1])
  {
    hide CollectOne;
  }

  lemma OneMoreListed(before: seq<Location>, locs: seq<Location>, n: nat)
    requires 0 < n <= |locs|
    ensures before + locs[..n - 1] + [locs[n - 1]] == before + locs[..n]
  {
  }

  lemma SizeIsField(file: Bytes, locs: seq<Location>, k: nat)
    requires ListFrom(file, HEADER_SIZE) == Ok(locs) && k < |locs|
    ensures HasField(file, locs[k])
  {
    hide ListFrom, FromLe;
    ListsIff(file, HEADER_SIZE, locs);
    assert EntryParses(file, locs, HEADER_SIZE, k);
  }

  lemma {:induction false} CollectAllBalances(sha: Sha, packs: Packs, live: set<Hash>, ids: seq<nat>, n: nat, h: Hash)
    requires n <= |ids| && forall k :: 0 <= k < |ids| ==> ids[k] in packs
    requires CollectAll(sha, packs, live, ids, n).Ok?
    ensures Balanced(CollectAll(sha, packs, live, ids, n).value, AllListed(packs, ids, n), live, h)
    decreases n
  {
    hide ListFrom, CollectPack, Balanced;
    if n == 0 {
      NothingBalanced(live, h);
    } else {
      CollectAllBalances(sha, packs, live, ids, n - 1, h);
      var before, file := CollectAll(sha, packs, live, ids, n - 1).value, packs[ids[n - 1]];
      var locs := ListFrom(file, HEADER_SIZE).value;
      CollectPackBalances(sha, file, live, before, AllListed(packs, ids, n - 1), locs, |locs|, h);
      assert locs[..|locs|] == locs;
    }
  }

  lemma NothingBalanced(live: set<Hash>, h: Hash)
    ensures Balanced(Collected([], 0, 0, 0), [], live, h)
  {
  }

  // ── How the chunks are cut into packs ────────────────────────────────────

  function Flatten(runs: seq<seq<Entry>>): seq<Entry> {
    if |runs| == 0 then [] else Flatten(runs[..|runs| - 1]) + runs[|runs| - 1]
  }

  lemma FlattenMore(runs: seq<seq<Entry>>, run: seq<Entry>)
    ensures Flatten(runs + [run]) == Flatten(runs) + run
  {
    assert (runs + [run])[..|runs|] == runs;
  }

  /** The file of a pack with these chunks reaches the target size. */
  predicate Reaches(run: seq<Entry>, target: nat) {
    47 + ChunkBytes(run) >= target
  }

  /** No shorter start of the run reaches it. */
  predicate NotBefore(run: seq<Entry>, target: nat) {
    |run| > 0 ==> |run| == 1 || !Reaches(run[..|run| - 1], target)
  }

  /** Pack `first + j` holds run `j`, for all runs so far; the rest is in the buffer. */
  ghost predicate Cut(sha: Sha, o: Output, first: nat, target: nat, chunks: seq<Entry>, n: nat, runs: seq<seq<Entry>>)
    requires n <= |chunks|
  {
    && o.nextId == first + |runs| && |o.newIds| == |runs|
    && Flatten(runs) + o.buffer == chunks[..n]
    && (forall j :: 0 <= j < |runs| ==> RunIs(sha, o.packs, first, target, runs, j) && Reaches(runs[j], target))
    && (o.buffer != [] ==> !Reaches(o.buffer, target))
  }

  ghost predicate RunIs(sha: Sha, packs: Packs, first: nat, target: nat, runs: seq<seq<Entry>>, j: nat)
    requires j < |runs|
  {
    && first + j in packs && packs[first + j] == PackFile(sha, first + j, runs[j])
    && |runs[j]| > 0 && NotBefore(runs[j], target)
  }

  lemma FullIs(buffer: seq<Entry>, target: nat)
    ensures ShouldFlush(buffer, target) <==> Reaches(buffer, target)
  {
    EntriesLength(buffer);
  }

  /** Writing the buffer makes one more run. */
  lemma OneMoreRun(sha: Sha, o: Output, first: nat, target: nat, runs: seq<seq<Entry>>)
    requires o.buffer != [] && o.nextId == first + |runs| && NotBefore(o.buffer, target)
    requires forall j :: 0 <= j < |runs| ==> RunIs(sha, o.packs, first, target, runs, j)
    ensures var t := FlushOutput(sha, o);
            && t.nextId == first + |runs| + 1 && |t.newIds| == |o.newIds| + 1 && t.buffer == []
            && Flatten(runs + [o.buffer]) == Flatten(runs) + o.buffer
            && forall j :: 0 <= j < |runs| + 1 ==> RunIs(sha, t.packs, first, target, runs + [o.buffer], j)
  {
    hide RunIs, FlushOutput, Flatten, NotBefore, PackFile;
    var more, file, t := runs + [o.buffer], PackFile(sha, o.nextId, o.buffer), FlushOutput(sha, o);
    FlattenMore(runs, o.buffer);
    FlushedOutput(sha, o);
    forall j | 0 <= j < |more|
      ensures RunIs(sha, t.packs, first, target, more, j)
    {
      if j < |runs| {
        RunHasPack(sha, o.packs, first, target, runs, j);
        RunStays(sha, o.packs, t.packs, first, target, runs, more, j);
      } else {
        RunIsNew(sha, t.packs, first, target, more, j, o.buffer, file);
      }
    }
  }

  lemma RunHasPack(sha: Sha, p: Packs, first: nat, target: nat, runs: seq<seq<Entry>>, j: nat)
    requires j < |runs| && RunIs(sha, p, first, target, runs, j)
    ensures first + j in p
  {
    hide PackFile, NotBefore;
  }

  lemma FlushedOutput(sha: Sha, o: Output)
    requires o.buffer != []
    ensures var t := FlushOutput(sha, o);
            && t.packs == o.packs[o.nextId := PackFile(sha, o.nextId, o.buffer)] && t.buffer == [] && t.nextId == o.nextId + 1
            && |t.newIds| == |o.newIds| + 1
  {
    hide PackFile, Locations;
  }

  lemma RunStays(sha: Sha, p: Packs, q: Packs, first: nat, target: nat, runs: seq<seq<Entry>>, more: seq<seq<Entry>>, j: nat)
    requires j < |runs| <= |more| && more[j] == runs[j] && RunIs(sha, p, first, target, runs, j)
    requires first + j in q && q[first + j] == p[first + j]
    ensures RunIs(sha, q, first, target, more, j)
  {
    hide PackFile, NotBefore;
  }

  lemma RunIsNew(sha: Sha, q: Packs, first: nat, target: nat, more: seq<seq<Entry>>, j: nat, run: seq<Entry>, file: Bytes)
    requires j < |more| && more[j] == run && run != [] && NotBefore(run, target)
    requires first + j in q && q[first + j] == file && file == PackFile(sha, first + j, run)
    ensures RunIs(sha, q, first, target, more, j)
  {
    hide PackFile, NotBefore;
  }

  lemma CutStep(sha: Sha, o: Output, first: nat, target: nat, chunks: seq<Entry>, n: nat, runs: seq<seq<Entry>>)
    returns (more: seq<seq<Entry>>)
    requires n < |chunks| && Cut(sha, o, first, target, chunks, n, runs)
    ensures Cut(sha, WriteOneLive(sha, o, chunks[n], target), first, target, chunks, n + 1, more)
  {
    hide PackFile, FlushOutput, Reaches, ShouldFlush, Flatten;
    var added := o.(buffer := o.buffer + [chunks[n]]);
    FullIs(added.buffer, target);
    assert chunks[..n + 1] == chunks[..n] + [chunks[n]];
    assert Flatten(runs) + added.buffer == chunks[..n + 1];
    if ShouldFlush(added.buffer, target) {
      more := runs + [added.buffer];
      assert added.buffer[..|added.buffer| - 1] == o.buffer;
      OneMoreRun(sha, added, first, target, runs);
      var t := FlushOutput(sha, added);
      assert t.buffer == [];
      forall j | 0 <= j < |more|
        ensures RunIs(sha, t.packs, first, target, more, j) && Reaches(more[j], target)
      {
      }
      NoTail(Flatten(more));
    } else {
      more := runs;
    }
  }

  lemma NoTail(chunks: seq<Entry>)
    ensures chunks + [] == chunks
  {
  }

  lemma {:induction false} WriteCuts(sha: Sha, before: Packs, first: nat, chunks: seq<Entry>, target: nat, n: nat)
    returns (runs: seq<seq<Entry>>)
    requires n <= |chunks|
    ensures Cut(sha, WriteLive(sha, Output(before, [], first, [], []), chunks, target, n), first, target, chunks, n, runs)
    decreases n
  {
    hide WriteOneLive, Cut;
    if n == 0 {
      runs := [];
      NothingCut(sha, before, first, chunks, target);
    } else {
      var some := WriteCuts(sha, before, first, chunks, target, n - 1);
      runs := CutStep(sha, WriteLive(sha, Output(before, [], first, [], []), chunks, target, n - 1), first, target, chunks, n - 1, some);
    }
  }

  lemma NothingCut(sha: Sha, before: Packs, first: nat, chunks: seq<Entry>, target: nat)
    ensures Cut(sha, Output(before, [], first, [], []), first, target, chunks, 0, [])
  {
  }

  /** Run `j` has its pack, for every run. */
  ghost predicate AllRuns(sha: Sha, packs: Packs, first: nat, target: nat, runs: seq<seq<Entry>>) {
    forall j :: 0 <= j < |runs| ==> RunIs(sha, packs, first, target, runs, j)
  }

  /**
   The new packs have consecutive ids from `first` on and hold the chunks in order.  Each is closed as soon as
   it reaches the target size, and only the last may be smaller.
   */
  lemma NewPacksAre(sha: Sha, before: Packs, first: nat, chunks: seq<Entry>, target: nat) returns (runs: seq<seq<Entry>>)
    ensures var o := Rewritten(sha, before, chunks, first, target);
            && Flatten(runs) == chunks && |o.newIds| == |runs| && o.nextId == first + |runs|
            && AllRuns(sha, o.packs, first, target, runs)
            && (forall j :: 0 <= j < |runs| - 1 ==> Reaches(runs[j], target))
  {
    hide WriteLive, FlushOutput, Reaches, Flatten, RunIs;
    var o := WriteLive(sha, Output(before, [], first, [], []), chunks, target, |chunks|);
    runs := WriteCuts(sha, before, first, chunks, target, |chunks|);
    assert chunks[..|chunks|] == chunks;
    if o.buffer == [] {
      NoTail(Flatten(runs));
      FlushOfNothing(sha, o);
    } else {
      LastIsOpen(o.buffer, target);
      OneMoreRun(sha, o, first, target, runs);
      runs := runs + [o.buffer];
    }
  }

  lemma FlushOfNothing(sha: Sha, o: Output)
    requires o.buffer == []
    ensures FlushOutput(sha, o) == o
  {
  }

  lemma LastIsOpen(buffer: seq<Entry>, target: nat)
    requires buffer != [] && !Reaches(buffer, target)
    ensures NotBefore(buffer, target)
  {
  }

  // ── What the new packs list ──────────────────────────────────────────────

  lemma {:induction false} LocationSums(run: seq<Entry>, h: Hash)
    ensures Total(Locations(run)) == DataBytes(run) && NumberOf(Locations(run), h) == NumberIn(run, h)
    decreases |run|
  {
    if |run| > 0 {
      var n := |run| - 1;
      LocationSums(run[..n], h);
      LocationsPrefix(run, n);
      LocationHash(run, n);
    }
  }

  lemma LocationsPrefix(run: seq<Entry>, n: nat)
    requires n <= |run|
    ensures Locations(run)[..n] == Locations(run[..n])
  {
    forall k | 0 <= k < n
      ensures LocationOf(run, k) == LocationOf(run[..n], k)
    {
      assert run[..n][..k] == run[..k];
    }
  }

  lemma ListedRun(sha: Sha, packs: Packs, first: nat, target: nat, runs: seq<seq<Entry>>, j: nat, h: Hash)
    requires j < |runs| && RunIs(sha, packs, first, target, runs, j) && SizesFit(runs[j])
    ensures first + j in packs
    ensures var locs := Listed(packs[first + j]);
            |locs| == |runs[j]| && Total(locs) == DataBytes(runs[j]) && NumberOf(locs, h) == NumberIn(runs[j], h)
  {
    hide PackFile, ListFrom, NotBefore, SizesFit, Total, NumberOf, DataBytes, NumberIn, LocationOf;
    ListRoundTrip(sha, first + j, runs[j]);
    LocationSums(runs[j], h);
  }

  /** The sums over the first `n` new packs are those of their chunks. */
  ghost predicate SumsAgree(locs: seq<Location>, chunks: seq<Entry>, h: Hash) {
    |locs| == |chunks| && Total(locs) == DataBytes(chunks) && NumberOf(locs, h) == NumberIn(chunks, h)
  }

  lemma SumsAdd(a: seq<Location>, b: seq<Location>, x: seq<Entry>, y: seq<Entry>, h: Hash)
    requires SumsAgree(a, x, h) && SumsAgree(b, y, h)
    ensures SumsAgree(a + b, x + y, h)
  {
    hide Total, NumberOf, DataBytes, NumberIn;
    ListingSums(a, b, h);
    ChunkSums(x, y, h);
  }

  /** Pack `first + k` holds run `k`, and the sizes of its chunks fit the length field. */
  ghost predicate NumberedRuns(sha: Sha, packs: Packs, ids: seq<nat>, first: nat, target: nat, runs: seq<seq<Entry>>) {
    && |ids| == |runs|
    && forall k :: 0 <= k < |ids| ==> ids[k] == first + k && RunIs(sha, packs, first, target, runs, k) && SizesFit(runs[k])
  }

  lemma NumberedAt(sha: Sha, packs: Packs, ids: seq<nat>, first: nat, target: nat, runs: seq<seq<Entry>>, k: nat)
    requires NumberedRuns(sha, packs, ids, first, target, runs) && k < |ids|
    ensures ids[k] == first + k && RunIs(sha, packs, first, target, runs, k) && SizesFit(runs[k])
  {
    hide RunIs, SizesFit;
  }

  lemma {:induction false} NewListed(sha: Sha, packs: Packs, ids: seq<nat>, first: nat, target: nat, runs: seq<seq<Entry>>, n: nat, h: Hash)
    requires n <= |ids| == |runs| && (forall k :: 0 <= k < |ids| ==> ids[k] in packs)
    requires NumberedRuns(sha, packs, ids, first, target, runs)
    ensures SumsAgree(AllListed(packs, ids, n), Flatten(runs[..n]), h)
    decreases n
  {
    hide *;
    if n == 0 {
      NothingAgrees(packs, ids, runs, h);
    } else {
      NewListed(sha, packs, ids, first, target, runs, n - 1, h);
      NumberedAt(sha, packs, ids, first, target, runs, n - 1);
      ListMore(packs, ids, n);
      RunsMore(runs, n);
      OneListed(sha, packs, first, target, runs, n - 1, h);
      SumsAdd(AllListed(packs, ids, n - 1), Listed(packs[ids[n - 1]]), Flatten(runs[..n - 1]), runs[n - 1], h);
    }
  }

  lemma ListMore(packs: Packs, ids: seq<nat>, n: nat)
    requires 0 < n <= |ids| && forall k :: 0 <= k < |ids| ==> ids[k] in packs
    ensures AllListed(packs, ids, n) == AllListed(packs, ids, n - 1) + Listed(packs[ids[n - 1]])
  {
    hide Listed;
  }

  lemma RunsMore(runs: seq<seq<Entry>>, n: nat)
    requires 0 < n <= |runs|
    ensures Flatten(runs[..n]) == Flatten(runs[..n - 1]) + runs[n - 1]
  {
    assert runs[..n][..n - 1] == runs[..n - 1];
  }

  lemma NothingAgrees(packs: Packs, ids: seq<nat>, runs: seq<seq<Entry>>, h: Hash)
    requires forall k :: 0 <= k < |ids| ==> ids[k] in packs
    ensures SumsAgree(AllListed(packs, ids, 0), Flatten(runs[..0]), h)
  {
  }

  lemma OneListed(sha: Sha, packs: Packs, first: nat, target: nat, runs: seq<seq<Entry>>, j: nat, h: Hash)
    requires j < |runs| && RunIs(sha, packs, first, target, runs, j) && SizesFit(runs[j])
    ensures first + j in packs && SumsAgree(Listed(packs[first + j]), runs[j], h)
  {
    hide RunIs, SizesFit, Listed, Total, NumberOf, DataBytes, NumberIn;
    ListedRun(sha, packs, first, target, runs, j, h);
  }

  lemma {:induction false} RunsFit(runs: seq<seq<Entry>>, j: nat)
    requires j < |runs| && SizesFit(Flatten(runs))
    ensures SizesFit(runs[j])
    decreases |runs|
  {
    var n := |runs| - 1;
    var front, last := Flatten(runs[..n]), runs[n];
    FitsParts(front, last);
    if j < n {
      RunsFit(runs[..n], j);
    }
  }

  lemma FitsParts(a: seq<Entry>, b: seq<Entry>)
    requires SizesFit(a + b)
    ensures SizesFit(a) && SizesFit(b)
  {
    forall k | 0 <= k < |a|
      ensures |a[k].data| < MAX_STORED
    {
      assert (a + b)[k] == a[k];
    }
    forall k | 0 <= k < |b|
      ensures |b[k].data| < MAX_STORED
    {
      assert (a + b)[|a| + k] == b[k];
    }
  }

  // ── The books ────────────────────────────────────────────────────────────

  /** Entries, bytes and copies of the name `h`: before, after, and in the answer. */
  ghost predicate Books(before: seq<Location>, after: seq<Location>, live: set<Hash>, r: CompactResult, h: Hash) {
    && |before| == r.chunksKept + r.chunksDiscarded && |after| == r.chunksKept
    && Total(before) == Total(after) + r.bytesFreed
    && NumberOf(after, h) == if h in live then NumberOf(before, h) else 0
  }

  /**
   A compaction that answers Ok leaves none of the old packs.  What the packs list after it is what they listed
   before, name by name, without the names that are not live; and the answer counts packs, entries and bytes.
   */
  lemma CompactionBooks(sha: Sha, packs: Packs, index: Option<Index>, live: set<Hash>, target: nat, ids: seq<nat>,
                        packs': Packs, index': Option<Index>, r: Result<CompactResult, PackError>, h: Hash)
    returns (newIds: seq<nat>)
    requires IsPackList(ids, packs) && CompactSpec(sha, packs, index, live, target, ids, packs', index', r) && r.Ok?
    ensures IsPackList(newIds, packs') && (forall k :: 0 <= k < |newIds| ==> newIds[k] in packs')
    ensures (forall k :: 0 <= k < |ids| ==> ids[k] in packs) && forall id :: id in packs ==> id !in packs'
    ensures r.value.packsBefore == |ids| && r.value.packsAfter == |newIds|
    ensures Books(AllListed(packs, ids, |ids|), AllListed(packs', newIds, |newIds|), live, r.value, h)
  {
    hide *;
    ListedInPacks(ids, packs);
    if |ids| == 0 {
      newIds := [];
      NothingCompacted(sha, packs, index, live, target, ids, packs', index', r, h);
    } else {
      var c := SpecParts(sha, packs, index, live, target, ids, packs', index', r);
      var first := ids[|ids| - 1] + 1;
      newIds := Rewritten(sha, packs, c.chunks, first, target).newIds;
      CompactingFacts(sha, packs, live, ids, c, first);
      RewrittenLists(sha, packs, first, c.chunks, target, packs', h);
      OldBooks(sha, packs, live, ids, c, h);
      BooksAgree(sha, c, AllListed(packs, ids, |ids|), AllListed(packs', newIds, |newIds|), live, r.value, h);
      RemovedAreGone(packs, Rewritten(sha, packs, c.chunks, first, target).packs, packs');
    }
  }

  lemma RemovedAreGone(packs: Packs, q: Packs, packs': Packs)
    requires OldRemoved(packs, q, packs')
    ensures forall id :: id in packs ==> id !in packs'
  {
  }

  lemma OldBooks(sha: Sha, packs: Packs, live: set<Hash>, ids: seq<nat>, c: Collected, h: Hash)
    requires (forall k :: 0 <= k < |ids| ==> ids[k] in packs) && CollectAll(sha, packs, live, ids, |ids|) == Ok(c)
    ensures Balanced(c, AllListed(packs, ids, |ids|), live, h) && CollectedFrom(sha, c, AllListed(packs, ids, |ids|), live)
  {
    hide *;
    CollectAllBalances(sha, packs, live, ids, |ids|, h);
    CollectAllExact(sha, packs, live, ids, |ids|);
  }

  /** The new packs list the chunks they were written from. */
  lemma RewrittenLists(sha: Sha, packs: Packs, first: nat, chunks: seq<Entry>, target: nat, packs': Packs, h: Hash)
    requires Fresh(packs, first) && SizesFit(chunks) && HashesMatch(sha, chunks)
    requires OldRemoved(packs, Rewritten(sha, packs, chunks, first, target).packs, packs')
    ensures var ids := Rewritten(sha, packs, chunks, first, target).newIds;
            && IsPackList(ids, packs') && (forall k :: 0 <= k < |ids| ==> ids[k] in packs')
            && SumsAgree(AllListed(packs', ids, |ids|), chunks, h)
  {
    hide *;
    var o := Rewritten(sha, packs, chunks, first, target);
    RewrittenWrote(sha, packs, first, chunks, target);
    var runs := NewPacksAre(sha, packs, first, chunks, target);
    NewIdsAre(sha, packs, first, target, o, runs, packs');
    AllNumbered(sha, packs', first, target, o, runs);
    RunsListed(sha, packs', o.newIds, first, target, runs, h);
  }

  lemma NothingCompacted(sha: Sha, packs: Packs, index: Option<Index>, live: set<Hash>, target: nat, ids: seq<nat>,
                         packs': Packs, index': Option<Index>, r: Result<CompactResult, PackError>, h: Hash)
    requires IsPackList(ids, packs) && CompactSpec(sha, packs, index, live, target, ids, packs', index', r) && |ids| == 0
    ensures r == Ok(CompactResult(0, 0, 0, 0, 0)) && IsPackList([], packs') && (forall id :: id in packs ==> id !in packs')
    ensures Books(AllListed(packs, ids, |ids|), AllListed(packs', [], 0), live, r.value, h)
  {
  }

  /** A successful compaction: what was collected, what was written, what was answered. */
  lemma SpecParts(sha: Sha, packs: Packs, index: Option<Index>, live: set<Hash>, target: nat, ids: seq<nat>,
                  packs': Packs, index': Option<Index>, r: Result<CompactResult, PackError>) returns (c: Collected)
    requires IsPackList(ids, packs) && CompactSpec(sha, packs, index, live, target, ids, packs', index', r) && r.Ok? && |ids| > 0
    requires forall k :: 0 <= k < |ids| ==> ids[k] in packs
    ensures CollectAll(sha, packs, live, ids, |ids|) == Ok(c) && Compacting(sha, packs, live, ids, c, ids[|ids| - 1] + 1)
    ensures var o := Rewritten(sha, packs, c.chunks, ids[|ids| - 1] + 1, target);
            && OldRemoved(packs, o.packs, packs')
            && r == Ok(CompactResult(|ids|, |o.newIds|, c.kept, c.discarded, c.freed))
  {
    hide CollectAll, Rewritten, WithoutPacks, CompactedIndex, OldRemoved;
    c := CollectAll(sha, packs, live, ids, |ids|).value;
    WithoutOld(packs, ids, Rewritten(sha, packs, c.chunks, ids[|ids| - 1] + 1, target).packs);
  }

  /** What is left of the packs `q` once the old ones are deleted. */
  ghost predicate OldRemoved(packs: Packs, q: Packs, packs': Packs) {
    && (forall id :: id in packs' <==> id in q && id !in packs)
    && (forall id :: id in packs' ==> packs'[id] == q[id])
  }

  lemma WithoutOld(packs: Packs, ids: seq<nat>, q: Packs)
    requires IsPackList(ids, packs)
    ensures OldRemoved(packs, q, WithoutPacks(q, ids, |ids|))
  {
    hide WithoutPacks;
    var packs' := WithoutPacks(q, ids, |ids|);
    forall id
      ensures id in packs' <==> id in q && id !in packs
    {
      if id in packs {
        var k :| 0 <= k < |ids| && ids[k] == id;
      } else {
        NotListed(packs, ids, id);
      }
    }
  }

  lemma NotListed(packs: Packs, ids: seq<nat>, id: nat)
    requires IsPackList(ids, packs) && id !in packs
    ensures forall k :: 0 <= k < |ids| ==> ids[k] != id
  {
    forall k | 0 <= k < |ids|
      ensures ids[k] != id
    {
      assert ids[k] in ids;
    }
  }

  lemma RunsRemain(sha: Sha, packs: Packs, first: nat, target: nat, q: Packs, runs: seq<seq<Entry>>, packs': Packs)
    requires Fresh(packs, first) && OldRemoved(packs, q, packs') && AllRuns(sha, q, first, target, runs)
    ensures AllRuns(sha, packs', first, target, runs)
  {
    hide RunIs;
    forall j | 0 <= j < |runs|
      ensures RunIs(sha, packs', first, target, runs, j)
    {
      RunHasPack(sha, q, first, target, runs, j);
      RunStays(sha, q, packs', first, target, runs, runs, j);
    }
  }

  lemma NewIdsAre(sha: Sha, packs: Packs, first: nat, target: nat, o: Output, runs: seq<seq<Entry>>, packs': Packs)
    requires Fresh(packs, first) && NewIds(o, first) && AddedPacks(packs, o, first) && OldRemoved(packs, o.packs, packs')
    requires AllRuns(sha, o.packs, first, target, runs) && |runs| == |o.newIds|
    ensures IsPackList(o.newIds, packs') && AllRuns(sha, packs', first, target, runs)
    ensures forall k :: 0 <= k < |o.newIds| ==> o.newIds[k] in packs'
  {
    hide *;
    RunsRemain(sha, packs, first, target, o.packs, runs, packs');
    forall k | 0 <= k < |o.newIds|
      ensures o.newIds[k] in packs'
    {
      NewIdHasPack(sha, packs', first, target, o, runs, k);
    }
    OnlyNewIds(packs, first, o, packs');
  }

  lemma NewIdHasPack(sha: Sha, packs': Packs, first: nat, target: nat, o: Output, runs: seq<seq<Entry>>, k: nat)
    requires NewIds(o, first) && AllRuns(sha, packs', first, target, runs) && k < |runs| == |o.newIds|
    ensures o.newIds[k] in packs'
  {
    hide RunIs;
    RunHasPack(sha, packs', first, target, runs, k);
  }

  lemma OnlyNewIds(packs: Packs, first: nat, o: Output, packs': Packs)
    requires NewIds(o, first) && AddedPacks(packs, o, first) && OldRemoved(packs, o.packs, packs')
    requires forall k :: 0 <= k < |o.newIds| ==> o.newIds[k] in packs'
    ensures IsPackList(o.newIds, packs')
  {
    hide Extends;
    forall id | id in packs'
      ensures id in o.newIds
    {
      assert first <= id < o.nextId;
      assert o.newIds[id - first] == id;
    }
  }

  lemma AllNumbered(sha: Sha, packs: Packs, first: nat, target: nat, o: Output, runs: seq<seq<Entry>>)
    requires NewIds(o, first) && AllRuns(sha, packs, first, target, runs) && |runs| == |o.newIds| && SizesFit(Flatten(runs))
    ensures NumberedRuns(sha, packs, o.newIds, first, target, runs)
  {
    hide RunIs, SizesFit, Flatten;
    forall j | 0 <= j < |runs|
      ensures SizesFit(runs[j])
    {
      RunsFit(runs, j);
    }
  }

  lemma RunsListed(sha: Sha, packs: Packs, ids: seq<nat>, first: nat, target: nat, runs: seq<seq<Entry>>, h: Hash)
    requires (forall k :: 0 <= k < |ids| ==> ids[k] in packs) && NumberedRuns(sha, packs, ids, first, target, runs)
    ensures SumsAgree(AllListed(packs, ids, |ids|), Flatten(runs), h)
  {
    hide RunIs, SizesFit, Flatten, SumsAgree, AllListed;
    NewListed(sha, packs, ids, first, target, runs, |runs|, h);
    assert runs[..|runs|] == runs;
  }

  lemma BooksAgree(sha: Sha, c: Collected, before: seq<Location>, after: seq<Location>, live: set<Hash>, r: CompactResult, h: Hash)
    requires CollectedFrom(sha, c, before, live) && Balanced(c, before, live, h) && SumsAgree(after, c.chunks, h)
    requires r.chunksKept == c.kept && r.chunksDiscarded == c.discarded && r.bytesFreed == c.freed
    ensures Books(before, after, live, r, h)
  {
    hide Total, NumberOf, DataBytes, NumberIn, DeadBytes, LiveNames, Names, HashesMatch;
  }
}
