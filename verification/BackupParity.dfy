/**
 Which chunks of a backup its parity groups protect (crates/cli/src/main.rs): the chunks that were
 stored, in order, cut into groups of `dataShards`; a shorter rest stays without parity.
 */
module BackupParity {
  import opened Wrappers
  import opened Bytes
  import opened Digest
  import opened PackFormat
  import opened ChunkStore
  import opened SnapshotTree
  import opened Repositories
  import opened ContentChunker
  import opened Framing
  import opened ParityGroups
  import opened CrashRuns
  import opened BackupRestore

  /** The data members of the groups, in order. */
  function GroupHashes(groups: seq<ParityGroup>): seq<Hash> {
    if |groups| == 0 then []
    else GroupHashes(groups[..|groups| - 1]) + groups[|groups| - 1].dataChunkHashes
  }

  /** The chunks that a backup stores, in order: those of all files that are not reused. */
  function NewHashes(prev: Option<Snapshot>, source: Source, node: Node): seq<Hash>
    decreases source
  {
    match source
    case SourceFile(name, modified, _, data) =>
      if IsUnchanged(prev, name, modified, data) || !node.File? then [] else node.info.chunkHashes
    case SourceDirectory(_, _, _, children) =>
      if node.Directory? then NewHashesIn(prev, children, node.children) else []
    case SourceLink(_, _) => []
  }

  function NewHashesIn(prev: Option<Snapshot>, sources: seq<Source>, nodes: seq<Node>): seq<Hash>
    decreases sources
  {
    if |sources| == 0 || |nodes| == 0 then []
    else NewHashes(prev, sources[0], nodes[0]) + NewHashesIn(prev, sources[1..], nodes[1..])
  }

  lemma {:induction false} NewHashesAdded(prev: Option<Snapshot>, sources: seq<Source>, first: Node, rest: seq<Node>)
    requires |sources| > 0
    ensures NewHashesIn(prev, sources, [first] + rest) == NewHashes(prev, sources[0], first) + NewHashesIn(prev, sources[1..], rest)
  {
    hide NewHashes;
    assert ([first] + rest)[1..] == rest;
  }

  // ── The state of the builder ─────────────────────────────────────────────

  predicate Grows(before: Index, after: Index) {
    before.Keys <= after.Keys
  }

  predicate AllKnown(index: Index, hashes: seq<Hash>) {
    forall k :: 0 <= k < |hashes| ==> hashes[k] in index
  }

  /** Group `n` of a backup: its own id, a chunk size that fits, and every member in the index. */
  predicate InPlace(index: Index, g: ParityGroup, n: nat) {
    g.groupId == n && g.chunkSize < MAX_STORED && AllKnown(index, Members(g))
  }

  predicate AllInPlace(index: Index, groups: seq<ParityGroup>) {
    forall i :: 0 <= i < |groups| ==> InPlace(index, groups[i], i)
  }

  /** The groups so far and the buffer hold exactly the chunks stored so far. */
  predicate Tracked(index: Index, groups: seq<ParityGroup>, counter: nat, buffer: seq<Hash>, stored: seq<Hash>) {
    && counter == |groups| && AllInPlace(index, groups)
    && GroupHashes(groups) + buffer == stored && AllKnown(index, stored)
  }

  lemma NothingTracked(index: Index)
    ensures Tracked(index, [], 0, [], [])
  {
  }

  lemma GrowsTwice(a: Index, b: Index, c: Index)
    requires Grows(a, b) && Grows(b, c)
    ensures Grows(a, c)
  {
  }

  lemma KnownGrows(before: Index, after: Index, hashes: seq<Hash>)
    requires AllKnown(before, hashes) && Grows(before, after)
    ensures AllKnown(after, hashes)
  {
  }

  lemma TrackedGrows(before: Index, after: Index, groups: seq<ParityGroup>, counter: nat, buffer: seq<Hash>, stored: seq<Hash>)
    requires Tracked(before, groups, counter, buffer, stored) && Grows(before, after)
    ensures Tracked(after, groups, counter, buffer, stored)
  {
    hide AllKnown, Grows, GroupHashes, Members;
    KnownGrows(before, after, stored);
    forall i | 0 <= i < |groups|
      ensures InPlace(after, groups[i], i)
    {
      assert InPlace(before, groups[i], i);
      KnownGrows(before, after, Members(groups[i]));
    }
  }

  /** A stored chunk goes into the buffer. */
  lemma TrackedChunk(index: Index, groups: seq<ParityGroup>, counter: nat, buffer: seq<Hash>, stored: seq<Hash>, h: Hash)
    requires Tracked(index, groups, counter, buffer, stored) && h in index
    ensures Tracked(index, groups, counter, buffer + [h], stored + [h])
  {
    hide GroupHashes, AllInPlace;
    assert GroupHashes(groups) + (buffer + [h]) == GroupHashes(groups) + buffer + [h];
  }

  /** A full buffer becomes a group. */
  lemma TrackedGroup(before: Index, after: Index, groups: seq<ParityGroup>, counter: nat, buffer: seq<Hash>, stored: seq<Hash>,
                     g: ParityGroup)
    requires Tracked(before, groups, counter, buffer, stored) && Grows(before, after)
    requires g.groupId == counter && g.chunkSize < MAX_STORED
    requires g.dataChunkHashes == buffer && AllKnown(after, g.parityChunkHashes)
    ensures Tracked(after, groups + [g], counter + 1, [], stored)
  {
    TrackedGrows(before, after, groups, counter, buffer, stored);
    hide AllKnown, Grows, GroupHashes;
    SuffixKnown(after, GroupHashes(groups), buffer);
    JoinedKnown(after, buffer, g.parityChunkHashes);
    GroupHashesAdded(groups, g);
    forall i | 0 <= i < |groups + [g]|
      ensures InPlace(after, (groups + [g])[i], i)
    {
      if i < |groups| {
        assert InPlace(after, groups[i], i);
      }
    }
    assert stored + [] == stored;
  }

  lemma SuffixKnown(index: Index, a: seq<Hash>, b: seq<Hash>)
    requires AllKnown(index, a + b)
    ensures AllKnown(index, b)
  {
    forall k | 0 <= k < |b|
      ensures b[k] in index
    {
      assert (a + b)[|a| + k] == b[k];
    }
  }

  lemma JoinedKnown(index: Index, a: seq<Hash>, b: seq<Hash>)
    requires AllKnown(index, a) && AllKnown(index, b)
    ensures AllKnown(index, a + b)
  {
  }

  lemma GroupHashesAdded(groups: seq<ParityGroup>, g: ParityGroup)
    ensures GroupHashes(groups + [g]) == GroupHashes(groups) + g.dataChunkHashes
  {
    assert (groups + [g])[..|groups|] == groups;
  }

  // ── The group number in the index ────────────────────────────────────────

  /** The index after group number `n` was noted at the first `k` chunks. */
  function Assigned(index: Index, hashes: seq<Hash>, n: nat, k: nat): Index
    requires k <= |hashes|
    decreases k
  {
    if k == 0 then index else InGroup(Assigned(index, hashes, n, k - 1), hashes[k - 1], n)
  }

  /** The listed chunks have the number, nothing else has changed. */
  lemma {:induction false} AssignedExact(index: Index, hashes: seq<Hash>, n: nat, k: nat, h: Hash)
    requires k <= |hashes|
    ensures h in Assigned(index, hashes, n, k) <==> h in index
    ensures h in index ==> Assigned(index, hashes, n, k)[h] == if h in hashes[..k] then index[h].(parityGroup := n) else index[h]
    decreases k
  {
    if k > 0 {
      AssignedExact(index, hashes, n, k - 1, h);
      assert h in hashes[..k] <==> h in hashes[..k - 1] || h == hashes[k - 1];
    }
  }

  predicate Numbered(index: Index, hashes: seq<Hash>, n: nat) {
    forall k :: 0 <= k < |hashes| && hashes[k] in index ==> index[hashes[k]].parityGroup == n
  }

  /** First the data members, then the parity members. */
  lemma BothAssigned(index: Index, g: ParityGroup)
    ensures var i := Assigned(index, g.dataChunkHashes, g.groupId, |g.dataChunkHashes|);
            var r := Assigned(i, g.parityChunkHashes, g.groupId, |g.parityChunkHashes|);
            && Numbered(r, Members(g), g.groupId)
            && (forall h :: h in g.dataChunkHashes + g.parityChunkHashes && h in r ==> r[h].parityGroup == g.groupId)
  {
    hide Assigned;
    var a, b := g.dataChunkHashes, g.parityChunkHashes;
    var i := Assigned(index, a, g.groupId, |a|);
    forall k | 0 <= k < |Members(g)|
      ensures var h := Members(g)[k];
              h in Assigned(i, b, g.groupId, |b|) ==> Assigned(i, b, g.groupId, |b|)[h].parityGroup == g.groupId
    {
      var h := Members(g)[k];
      AssignedExact(index, a, g.groupId, |a|, h);
      AssignedExact(i, b, g.groupId, |b|, h);
      assert a[..|a|] == a && b[..|b|] == b;
    }
  }

  // ── What a finished backup leaves ────────────────────────────────────────

  /** The groups cover the stored chunks in order, up to fewer than `d` at the end. */
  predicate Covers(groups: seq<ParityGroup>, stored: seq<Hash>, d: nat) {
    GroupHashes(groups) <= stored && |stored| - |GroupHashes(groups)| < d
  }

  lemma TrackedCovers(index: Index, groups: seq<ParityGroup>, counter: nat, buffer: seq<Hash>, stored: seq<Hash>, d: nat)
    requires Tracked(index, groups, counter, buffer, stored) && |buffer| < d
    ensures Covers(groups, stored, d) && AllInPlace(index, groups)
  {
    hide GroupHashes, AllInPlace, AllKnown;
  }

  /** With no single file to reuse from, every chunk of the tree is stored. */
  lemma {:induction false} NothingReusedStoresAll(sha: Sha, pl: Pipeline, c: Limits, prev: Option<Snapshot>, source: Source, node: Node)
    requires prev.Some? ==> !prev.value.root.File?
    requires ValidLimits(c) && Represents(sha, pl, c, prev, source, node)
    ensures NewHashes(prev, source, node) == ChunkHashes(node)
    decreases source
  {
    hide AllStoredAs, FileHash, VersionsOf;
    match source
    case SourceFile(name, modified, _, data) =>
      ReusedFromFile(prev, name, modified, data);
    case SourceDirectory(_, _, _, children) =>
      NothingReusedStoresAllIn(sha, pl, c, prev, children, node.children);
    case SourceLink(_, _) =>
  }

  lemma {:induction false} NothingReusedStoresAllIn(sha: Sha, pl: Pipeline, c: Limits, prev: Option<Snapshot>, sources: seq<Source>,
                                                    nodes: seq<Node>)
    requires prev.Some? ==> !prev.value.root.File?
    requires ValidLimits(c) && RepresentsAll(sha, pl, c, prev, sources, nodes)
    ensures NewHashesIn(prev, sources, nodes) == ChunkHashesIn(nodes)
    decreases sources
  {
    hide RepresentsFile, IsUnchanged;
    if |sources| > 0 {
      NothingReusedStoresAll(sha, pl, c, prev, sources[0], nodes[0]);
      NothingReusedStoresAllIn(sha, pl, c, prev, sources[1..], nodes[1..]);
    }
  }
}
