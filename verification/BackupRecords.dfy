/**
 What a snapshot says about every place of its source (crates/cli/src/main.rs), and that a file which was
 edited or is new comes back as it is: the decision to reuse a file and the limits of the chunk framing,
 spelled out.
 */
module BackupRecords {
  import opened Wrappers
  import opened Bytes
  import opened Digest
  import opened ChunkStore
  import opened SnapshotTree
  import opened Repositories
  import opened Deletion
  import opened ContentChunker
  import opened Framing
  import opened CrashRuns
  import opened BackupRestore

  // ── Places ───────────────────────────────────────────────────────────────

  /** A place in a tree: which child to take at each level. */
  type Place = seq<nat>

  function SourceAt(source: Source, place: Place): Option<Source>
    decreases |place|
  {
    if |place| == 0 then Some(source)
    else if source.SourceDirectory? && place[0] < |source.children| then SourceAt(source.children[place[0]], place[1..])
    else None
  }

  function NodeAt(node: Node, place: Place): Option<Node>
    decreases |place|
  {
    if |place| == 0 then Some(node)
    else if node.Directory? && place[0] < |node.children| then NodeAt(node.children[place[0]], place[1..])
    else None
  }

  lemma {:induction false} RepresentsChild(sha: Sha, pl: Pipeline, c: Limits, prev: Option<Snapshot>, sources: seq<Source>,
                                           nodes: seq<Node>, k: nat)
    requires ValidLimits(c) && RepresentsAll(sha, pl, c, prev, sources, nodes)
    ensures |nodes| == |sources|
    ensures k < |sources| ==> Represents(sha, pl, c, prev, sources[k], nodes[k])
    decreases |sources|
  {
    hide Represents;
    if |sources| > 0 {
      if k > 0 {
        RepresentsChild(sha, pl, c, prev, sources[1..], nodes[1..], k - 1);
      } else {
        RepresentsChild(sha, pl, c, prev, sources[1..], nodes[1..], 0);
      }
    }
  }

  /** The snapshot has the source's places, and at each what was made of the source there. */
  lemma {:induction false} RepresentsAt(sha: Sha, pl: Pipeline, c: Limits, prev: Option<Snapshot>, source: Source, node: Node,
                                        place: Place)
    requires ValidLimits(c) && Represents(sha, pl, c, prev, source, node)
    ensures SourceAt(source, place).Some? <==> NodeAt(node, place).Some?
    ensures SourceAt(source, place).Some? ==>
              Represents(sha, pl, c, prev, SourceAt(source, place).value, NodeAt(node, place).value)
    decreases |place|
  {
    hide RepresentsAll, AllStoredAs, Chunks, IsUnchanged, VersionsOf, FileHash, Previous;
    if |place| > 0 && source.SourceDirectory? {
      RepresentsChild(sha, pl, c, prev, source.children, node.children, place[0]);
      if place[0] < |source.children| {
        RepresentsAt(sha, pl, c, prev, source.children[place[0]], node.children[place[0]], place[1..]);
      }
    }
  }

  predicate HasChunkAt(node: Node, place: Place, h: Hash) {
    NodeAt(node, place).Some? && NodeAt(node, place).value.File? && h in NodeAt(node, place).value.info.chunkHashes
  }

  /** A tree uses exactly the chunks that its files list for their current contents. */
  lemma {:induction false} UsedIff(node: Node, h: Hash)
    ensures h in ChunkHashes(node) <==> exists place :: HasChunkAt(node, place, h)
    decreases node
  {
    hide HasChunkAt;
    match node
    case File(_, info) => FileUses(node, h);
    case Directory(_, _, _, children) =>
      UsedInIff(children, h);
      if h in ChunkHashesIn(children) {
        var k, place :| 0 <= k < |children| && HasChunkAt(children[k], place, h);
        ChildUses(node, k, place, h);
      }
      forall place | HasChunkAt(node, place, h)
        ensures h in ChunkHashesIn(children)
      {
        DirectoryUses(node, place, h);
        assert place == [place[0]] + place[1..];
        ChildUses(node, place[0], place[1..], h);
      }
    case Symlink(_, _) =>
      forall place
        ensures !HasChunkAt(node, place, h)
      {
        DirectoryUses(node, place, h);
      }
  }

  lemma {:induction false} UsedInIff(children: seq<Node>, h: Hash)
    ensures h in ChunkHashesIn(children) <==> exists k, place :: 0 <= k < |children| && HasChunkAt(children[k], place, h)
    decreases children
  {
    hide HasChunkAt, ChunkHashes;
    if |children| > 0 {
      UsedIff(children[0], h);
      UsedInIff(children[1..], h);
      forall k, place | 0 <= k < |children| && HasChunkAt(children[k], place, h)
        ensures h in ChunkHashesIn(children)
      {
        if k > 0 {
          assert HasChunkAt(children[1..][k - 1], place, h);
        }
      }
      if h in ChunkHashesIn(children[1..]) {
        var k, place :| 0 <= k < |children[1..]| && HasChunkAt(children[1..][k], place, h);
        assert HasChunkAt(children[k + 1], place, h);
      }
    }
  }

  lemma FileUses(node: Node, h: Hash)
    requires node.File?
    ensures h in ChunkHashes(node) <==> exists place :: HasChunkAt(node, place, h)
  {
    assert HasChunkAt(node, [], h) <==> h in node.info.chunkHashes;
  }

  lemma ChildUses(node: Node, k: nat, place: Place, h: Hash)
    requires node.Directory? && k < |node.children|
    ensures HasChunkAt(node, [k] + place, h) <==> HasChunkAt(node.children[k], place, h)
  {
    assert ([k] + place)[1..] == place;
  }

  lemma DirectoryUses(node: Node, place: Place, h: Hash)
    requires !node.File?
    ensures HasChunkAt(node, place, h) ==> node.Directory? && |place| > 0 && place[0] < |node.children|
  {
  }

  /** What a compaction must keep: the chunks that a file of some stored snapshot lists. */
  lemma LiveIff(snapshots: Snapshots, h: Hash)
    ensures h in LiveHashes(snapshots) <==> exists id, place :: id in snapshots && HasChunkAt(snapshots[id].root, place, h)
  {
    hide HasChunkAt, ChunkHashes;
    forall id | id in snapshots
      ensures h in ChunkHashes(snapshots[id].root) <==> exists place :: HasChunkAt(snapshots[id].root, place, h)
    {
      UsedIff(snapshots[id].root, h);
    }
    if h in LiveHashes(snapshots) {
      var id, k :| id in snapshots && 0 <= k < |ChunksOf(snapshots[id])| && ChunksOf(snapshots[id])[k] == h;
      assert h in ChunkHashes(snapshots[id].root);
    }
    forall id, place | id in snapshots && HasChunkAt(snapshots[id].root, place, h)
      ensures h in LiveHashes(snapshots)
    {
      assert h in ChunksOf(snapshots[id]);
    }
  }

  // ── What is recorded of a file ───────────────────────────────────────────

  /** `text` is the hashes one after the other. */
  predicate IsJoined(hashes: seq<Hash>, text: Bytes) {
    && |text| == 64 * |hashes|
    && forall k :: 0 <= k < |hashes| ==> text[64 * k..64 * k + 64] == hashes[k]
  }

  lemma {:induction false} JoinedHashes(hashes: seq<Hash>)
    ensures IsJoined(hashes, ConcatHashes(hashes))
  {
    if |hashes| > 0 {
      var rest, text := ConcatHashes(hashes[1..]), ConcatHashes(hashes);
      JoinedHashes(hashes[1..]);
      forall k | 0 <= k < |hashes|
        ensures text[64 * k..64 * k + 64] == hashes[k]
      {
        if k > 0 {
          assert rest[64 * (k - 1)..64 * (k - 1) + 64] == hashes[1..][k - 1];
          DropFirst(hashes[0], rest, 64 * (k - 1));
        }
      }
    }
  }

  lemma DropFirst(first: Hash, rest: Bytes, i: nat)
    requires i + 64 <= |rest|
    ensures (first + rest)[i + 64..i + 128] == rest[i..i + 64]
  {
  }

  /** The hash of a file is the digest, in hexadecimal, of the names of its chunks one after the other. */
  lemma FileHashIs(sha: Sha, hashes: seq<Hash>) returns (text: Bytes)
    ensures IsJoined(hashes, text) && FileHash(sha, hashes) == Hex(sha(text))
  {
    text := ConcatHashes(hashes);
    JoinedHashes(hashes);
  }

  /** What the previous snapshot has under the bare name of a file. */
  lemma PreviousIs(prev: Option<Snapshot>, name: string)
    ensures Previous(prev, name) ==
            if prev.Some? && prev.value.root.File? && prev.value.root.name == name then Some(prev.value.root.info) else None
  {
  }

  /** A file at any place of the source: its size, time and mode, and the hash of its chunks. */
  lemma FileIsRecorded(sha: Sha, pl: Pipeline, c: Limits, prev: Option<Snapshot>, source: Source, root: Node, place: Place,
                       name: string, modified: int, mode: nat, data: Bytes)
    requires ValidLimits(c) && Represents(sha, pl, c, prev, source, root)
    requires SourceAt(source, place) == Some(SourceFile(name, modified, mode, data))
    ensures NodeAt(root, place).Some? && NodeAt(root, place).value.File? && NodeAt(root, place).value.name == name
    ensures var info := NodeAt(root, place).value.info;
            info.size == |data| && info.modified == modified && info.mode == mode && info.fileHash == FileHash(sha, info.chunkHashes)
  {
    hide AllStoredAs, Chunks, IsUnchanged, VersionsOf, FileHash;
    RepresentsAt(sha, pl, c, prev, source, root, place);
  }

  /** Directories and links keep their attributes. */
  lemma OthersAreRecorded(sha: Sha, pl: Pipeline, c: Limits, prev: Option<Snapshot>, source: Source, root: Node, place: Place)
    requires ValidLimits(c) && Represents(sha, pl, c, prev, source, root) && SourceAt(source, place).Some?
    ensures NodeAt(root, place).Some?
    ensures var s, n := SourceAt(source, place).value, NodeAt(root, place).value;
            && (s.SourceDirectory? ==>
                  n.Directory? && n.name == s.name && n.modified == s.modified && n.mode == s.mode && |n.children| == |s.children|)
            && (s.SourceLink? ==> n == Symlink(s.name, s.target))
  {
    hide RepresentsFile, RepresentsAll;
    RepresentsAt(sha, pl, c, prev, source, root, place);
    var s, n := SourceAt(source, place).value, NodeAt(root, place).value;
    if s.SourceDirectory? {
      RepresentsChild(sha, pl, c, prev, s.children, n.children, 0);
    }
  }

  /**
   A file is reused exactly when the root of the previous snapshot is a file of its name, its length and its
   time.  Otherwise its own chunks are stored, and the version that it replaces is recorded.
   */
  lemma FileIsReusedIff(sha: Sha, pl: Pipeline, c: Limits, prev: Option<Snapshot>, source: Source, root: Node, place: Place,
                        name: string, modified: int, mode: nat, data: Bytes)
    requires ValidLimits(c) && Represents(sha, pl, c, prev, source, root)
    requires SourceAt(source, place) == Some(SourceFile(name, modified, mode, data))
    ensures NodeAt(root, place).Some? && NodeAt(root, place).value.File?
    ensures var info := NodeAt(root, place).value.info;
            if prev.None? || !prev.value.root.File? || prev.value.root.name != name then
              AllStoredAs(sha, pl, Chunks(c, data), info.chunkHashes) && info.versions == []
            else
              var before := prev.value.root.info;
              if before.size != |data| || before.modified != modified then
                && AllStoredAs(sha, pl, Chunks(c, data), info.chunkHashes)
                && info.versions ==
                   if before.chunkHashes == [] then []
                   else [FileVersion(prev.value.id, before.modified, before.size, before.chunkHashes, FileHash(sha, before.chunkHashes))]
              else info.chunkHashes == before.chunkHashes && info.versions == []
  {
    hide AllStoredAs, Chunks, FileHash, Previous;
    RepresentsAt(sha, pl, c, prev, source, root, place);
    PreviousIs(prev, name);
  }

  // ── What comes back ──────────────────────────────────────────────────────

  lemma ChunksAreSmall(c: Limits, data: Bytes)
    requires ValidLimits(c) && c.max <= 268435456
    ensures AllSmall(Chunks(c, data))
  {
    hide Chunks;
    forall k | 0 <= k < |Chunks(c, data)|
      ensures |Chunks(c, data)[k]| <= MAX_DECOMPRESS_SIZE
    {
      ChunkBounds(c, data, k);
    }
  }

  lemma {:induction false} RawsAreSmall(c: Limits, prev: Option<Snapshot>, olds: seq<Bytes>, source: Source)
    requires ValidLimits(c) && c.max <= 268435456 && forall k :: 0 <= k < |olds| ==> |olds[k]| <= 268435456
    ensures AllSmall(RawsOf(c, prev, olds, source))
    decreases source
  {
    hide Chunks, IsUnchanged;
    match source
    case SourceFile(name, modified, _, data) => ChunksAreSmall(c, data);
    case SourceDirectory(_, _, _, children) => RawsInAreSmall(c, prev, olds, children);
    case SourceLink(_, _) =>
  }

  lemma {:induction false} RawsInAreSmall(c: Limits, prev: Option<Snapshot>, olds: seq<Bytes>, sources: seq<Source>)
    requires ValidLimits(c) && c.max <= 268435456 && forall k :: 0 <= k < |olds| ==> |olds[k]| <= 268435456
    ensures AllSmall(RawsIn(c, prev, olds, sources))
    decreases sources
  {
    hide RawsOf;
    if |sources| > 0 {
      RawsAreSmall(c, prev, olds, sources[0]);
      RawsInAreSmall(c, prev, olds, sources[1..]);
    }
  }

  /** A file that has the name, length and time of the root of the previous snapshot has its contents. */
  predicate KeptContents(prev: Option<Snapshot>, olds: seq<Bytes>, file: Source)
    requires file.SourceFile?
  {
    && prev.Some? && prev.value.root.File? && prev.value.root.name == file.name
    && prev.value.root.info.size == |file.data| && prev.value.root.info.modified == file.modified
    ==> file.data == Concat(olds)
  }

  ghost predicate AllKeepContents(prev: Option<Snapshot>, olds: seq<Bytes>, source: Source) {
    forall place :: SourceAt(source, place).Some? && SourceAt(source, place).value.SourceFile? ==>
      KeptContents(prev, olds, SourceAt(source, place).value)
  }

  lemma {:induction false} AccurateByPlace(prev: Option<Snapshot>, olds: seq<Bytes>, source: Source)
    requires AllKeepContents(prev, olds, source)
    ensures ReuseIsAccurate(prev, olds, source)
    decreases source
  {
    hide Concat, Previous;
    match source
    case SourceFile(name, _, _, _) =>
      assert SourceAt(source, []) == Some(source);
      PreviousIs(prev, name);
    case SourceDirectory(_, _, _, children) =>
      forall k | 0 <= k < |children|
        ensures AllKeepContents(prev, olds, children[k])
      {
        ChildKeeps(prev, olds, source, k);
      }
      ChildrenAccurate(prev, olds, children);
    case SourceLink(_, _) =>
  }

  lemma {:induction false} ChildKeeps(prev: Option<Snapshot>, olds: seq<Bytes>, source: Source, k: nat)
    requires source.SourceDirectory? && k < |source.children| && AllKeepContents(prev, olds, source)
    ensures AllKeepContents(prev, olds, source.children[k])
  {
    hide KeptContents;
    forall place | SourceAt(source.children[k], place).Some? && SourceAt(source.children[k], place).value.SourceFile?
      ensures KeptContents(prev, olds, SourceAt(source.children[k], place).value)
    {
      assert ([k] + place)[1..] == place;
      assert SourceAt(source, [k] + place) == SourceAt(source.children[k], place);
    }
  }

  lemma {:induction false} ChildrenAccurate(prev: Option<Snapshot>, olds: seq<Bytes>, sources: seq<Source>)
    requires forall k :: 0 <= k < |sources| ==> AllKeepContents(prev, olds, sources[k])
    ensures ReuseIsAccurateIn(prev, olds, sources)
    decreases sources
  {
    hide AllKeepContents, ReuseIsAccurate;
    if |sources| > 0 {
      AccurateByPlace(prev, olds, sources[0]);
      ChildrenAccurate(prev, olds, sources[1..]);
    }
  }

  /**
   The whole tree comes back, provided that chunks have at most 256 MiB and that a file which has the name,
   length and time of the previous root also has its contents.
   */
  lemma {:induction false} TreeComesBack(sha: Sha, s: State, target: nat, store: Store, id: string, pl: Pipeline, c: Limits,
                                         prev: Option<Snapshot>, olds: seq<Bytes>, source: Source)
    requires Sound(sha, s) && IsOpened(store, s.packs, s.index, target) && id in s.snapshots
    requires MadeFrom(sha, pl, c, store, prev, olds, source, s.snapshots[id].root)
    requires c.max <= 268435456 && forall k :: 0 <= k < |olds| ==> |olds[k]| <= 268435456
    requires AllKeepContents(prev, olds, source)
    ensures RestoredRoot(sha, pl, store, s.snapshots[id].root) == FilesOfRoot(source)
  {
    hide MadeFrom, Sound, IsOpened, RestoredRoot, AsStored, RawsOf, ReuseIsAccurate, FilesOfRoot, AllSmall, AllKeepContents;
    SnapshotComesBack(sha, s, target, store, id, pl, c, prev, olds, source);
    LimitsAre(sha, pl, c, store, prev, olds, source, s.snapshots[id].root);
    RawsAreSmall(c, prev, olds, source);
    AccurateByPlace(prev, olds, source);
  }

  /** So in any state of any run in which the snapshot is stored. */
  lemma {:induction false} TreeComesBackLater(sha: Sha, states: seq<State>, actions: seq<Action>, i: nat, target: nat, store: Store,
                                              id: string, pl: Pipeline, c: Limits, prev: Option<Snapshot>, olds: seq<Bytes>,
                                              source: Source)
    requires IsRun(sha, states, actions) && states[0] == Init() && i < |states|
    requires IsOpened(store, states[i].packs, states[i].index, target) && id in states[i].snapshots
    requires MadeFrom(sha, pl, c, store, prev, olds, source, states[i].snapshots[id].root)
    requires c.max <= 268435456 && forall k :: 0 <= k < |olds| ==> |olds[k]| <= 268435456
    requires AllKeepContents(prev, olds, source)
    ensures RestoredRoot(sha, pl, store, states[i].snapshots[id].root) == FilesOfRoot(source)
  {
    hide MadeFrom, IsRun, Init, IsOpened, RestoredRoot, Sound, FilesOfRoot, AllKeepContents;
    RunsAreSound(sha, states, actions, i);
    TreeComesBack(sha, states[i], target, store, id, pl, c, prev, olds, source);
  }

  lemma LimitsAre(sha: Sha, pl: Pipeline, c: Limits, store: Store, prev: Option<Snapshot>, olds: seq<Bytes>, source: Source, root: Node)
    requires MadeFrom(sha, pl, c, store, prev, olds, source, root)
    ensures ValidLimits(c)
  {
    hide Represents, RecordOf, NoCollision;
  }

  /**
   A single file whose length or time differs from what the previous snapshot has under its name, or that has
   no such record, comes back with its own contents.
   */
  lemma {:induction false} EditedFileComesBack(sha: Sha, s: State, target: nat, store: Store, id: string, pl: Pipeline, c: Limits,
                                               prev: Option<Snapshot>, name: string, modified: int, mode: nat, data: Bytes)
    requires Sound(sha, s) && IsOpened(store, s.packs, s.index, target) && id in s.snapshots
    requires ValidLimits(c) && c.max <= 268435456
    requires Represents(sha, pl, c, prev, SourceFile(name, modified, mode, data), s.snapshots[id].root)
    requires prev.None? || !prev.value.root.File? || prev.value.root.name != name
             || prev.value.root.info.size != |data| || prev.value.root.info.modified != modified
    requires NoCollision(sha, pl, store, Chunks(c, data), ChunkHashes(s.snapshots[id].root))
    ensures RestoredRoot(sha, pl, store, s.snapshots[id].root) == [Restored([name], data)]
  {
    hide *;
    var root, source := s.snapshots[id].root, SourceFile(name, modified, mode, data);
    RootIs(source, root);
    FileIsReusedIff(sha, pl, c, prev, source, root, [], name, modified, mode, data);
    FileIsRecorded(sha, pl, c, prev, source, root, [], name, modified, mode, data);
    StoredIsReadable(sha, s, target, store, id);
    FileRootIs(sha, pl, store, root);
    ChunksAreSmall(c, data);
    ChunksRestoreData(c, data);
    FileComesBack(sha, pl, store, [name], Chunks(c, data), root.info.chunkHashes);
  }

  lemma RootIs(source: Source, root: Node)
    ensures SourceAt(source, []) == Some(source) && NodeAt(root, []) == Some(root)
  {
  }

  lemma FileRootIs(sha: Sha, pl: Pipeline, store: Store, root: Node)
    requires root.File?
    ensures ChunkHashes(root) == root.info.chunkHashes
    ensures RestoredRoot(sha, pl, store, root) == [RestoredFile(sha, pl, store, [root.name], root.info.chunkHashes)]
  {
    hide RestoredFile;
    assert [] + [root.name] == [root.name];
  }

  // ── Where files are restored to ──────────────────────────────────────────

  /** The names on the way to a place, that of the node itself first. */
  function PathTo(node: Node, place: Place): Path
    requires NodeAt(node, place).Some?
    decreases |place|
  {
    if |place| == 0 then [node.name] else [node.name] + PathTo(node.children[place[0]], place[1..])
  }

  /** `o` is the outcome for the file at `place`. */
  ghost predicate OutcomeAt(sha: Sha, pl: Pipeline, s: Store, rel: Path, node: Node, place: Place, o: Outcome) {
    && NodeAt(node, place).Some? && NodeAt(node, place).value.File?
    && o == RestoredFile(sha, pl, s, rel + PathTo(node, place), NodeAt(node, place).value.info.chunkHashes)
  }

  lemma OutcomeOfChild(sha: Sha, pl: Pipeline, s: Store, rel: Path, node: Node, k: nat, place: Place, o: Outcome)
    requires node.Directory? && k < |node.children|
    ensures OutcomeAt(sha, pl, s, rel, node, [k] + place, o) <==>
            OutcomeAt(sha, pl, s, rel + [node.name], node.children[k], place, o)
  {
    hide RestoredFile, NodeAt, PathTo;
    PlaceOfChild(node, k, place);
    if NodeAt(node.children[k], place).Some? {
      PathsJoin(rel, [node.name], PathTo(node.children[k], place));
    }
  }

  lemma PlaceOfChild(node: Node, k: nat, place: Place)
    requires node.Directory? && k < |node.children|
    ensures NodeAt(node, [k] + place) == NodeAt(node.children[k], place)
    ensures NodeAt(node.children[k], place).Some? ==> PathTo(node, [k] + place) == [node.name] + PathTo(node.children[k], place)
  {
    assert ([k] + place)[1..] == place;
  }

  lemma PathsJoin(a: Path, b: Path, c: Path)
    ensures a + b + c == a + (b + c)
  {
  }

  /** Each file of a tree is restored under its path, and nothing else is. */
  lemma {:induction false} OutcomesAre(sha: Sha, pl: Pipeline, s: Store, rel: Path, node: Node, o: Outcome)
    ensures o in RestoredNode(sha, pl, s, rel, node) <==> exists place :: OutcomeAt(sha, pl, s, rel, node, place, o)
    decreases node
  {
    hide RestoredFile, OutcomeAt;
    match node
    case File(name, info) =>
      FileOutcome(sha, pl, s, rel, node, o);
    case Directory(name, _, _, children) =>
      OutcomesIn(sha, pl, s, rel + [name], children, o);
      if o in RestoredNode(sha, pl, s, rel, node) {
        var k, place :| 0 <= k < |children| && OutcomeAt(sha, pl, s, rel + [name], children[k], place, o);
        OutcomeOfChild(sha, pl, s, rel, node, k, place, o);
      }
      forall place | OutcomeAt(sha, pl, s, rel, node, place, o)
        ensures o in RestoredAll(sha, pl, s, rel + [name], children)
      {
        DirectoryPlace(sha, pl, s, rel, node, place, o);
        assert place == [place[0]] + place[1..];
        OutcomeOfChild(sha, pl, s, rel, node, place[0], place[1..], o);
      }
    case Symlink(_, _) =>
      forall place
        ensures !OutcomeAt(sha, pl, s, rel, node, place, o)
      {
        NoLinkOutcome(sha, pl, s, rel, node, place, o);
      }
  }

  lemma FileOutcome(sha: Sha, pl: Pipeline, s: Store, rel: Path, node: Node, o: Outcome)
    requires node.File?
    ensures o in RestoredNode(sha, pl, s, rel, node) <==> exists place :: OutcomeAt(sha, pl, s, rel, node, place, o)
  {
    hide RestoredFile;
    assert OutcomeAt(sha, pl, s, rel, node, [], RestoredFile(sha, pl, s, rel + [node.name], node.info.chunkHashes));
  }

  lemma DirectoryPlace(sha: Sha, pl: Pipeline, s: Store, rel: Path, node: Node, place: Place, o: Outcome)
    requires node.Directory? && OutcomeAt(sha, pl, s, rel, node, place, o)
    ensures |place| > 0 && place[0] < |node.children|
  {
    hide RestoredFile;
  }

  lemma NoLinkOutcome(sha: Sha, pl: Pipeline, s: Store, rel: Path, node: Node, place: Place, o: Outcome)
    requires node.Symlink?
    ensures !OutcomeAt(sha, pl, s, rel, node, place, o)
  {
    hide RestoredFile;
  }

  lemma {:induction false} OutcomesIn(sha: Sha, pl: Pipeline, s: Store, rel: Path, nodes: seq<Node>, o: Outcome)
    ensures o in RestoredAll(sha, pl, s, rel, nodes) <==>
            exists k, place :: 0 <= k < |nodes| && OutcomeAt(sha, pl, s, rel, nodes[k], place, o)
    decreases nodes
  {
    hide OutcomeAt, RestoredNode;
    if |nodes| > 0 {
      OutcomesAre(sha, pl, s, rel, nodes[0], o);
      OutcomesIn(sha, pl, s, rel, nodes[1..], o);
      if k, place :| 0 <= k < |nodes| && OutcomeAt(sha, pl, s, rel, nodes[k], place, o) {
        assert k > 0 ==> nodes[1..][k - 1] == nodes[k];
      }
    }
  }

  /** What the cipher refuses is an error, and the file is skipped with that error. */
  lemma RefusedIsSkipped(sha: Sha, pl: Pipeline, s: Store, path: Path, hashes: seq<Hash>, k: nat, stored: Bytes)
    requires pl.key.Some? && k < |hashes| && RestoredBytes(sha, pl, s, hashes, k).Ok?
    requires ChunkStore.ReadChunk(sha, s, hashes[k]) == Ok(stored)
    requires |stored| > 16 && FromLe(stored[..4]) == 12
    requires pl.cipher.open(pl.key.value, stored[4..16], stored[16..]) == None
    ensures DecryptChunk(pl.cipher, pl.key.value, stored) == Err(NotAuthentic)
    ensures RestoredFile(sha, pl, s, path, hashes) == Skipped(path, Undecryptable(hashes[k], NotAuthentic))
  {
    hide FromLe, ChunkStore.ReadChunk, RestoredBytes;
    RestoreStep(sha, pl, s, hashes, k, RestoredBytes(sha, pl, s, hashes, k).value);
    FirstFailure(sha, pl, s, path, hashes, k + 1);
  }

  /** So is a file with a chunk that cannot be read. */
  lemma UnreadIsSkipped(sha: Sha, pl: Pipeline, s: Store, path: Path, hashes: seq<Hash>, k: nat)
    requires k < |hashes| && RestoredBytes(sha, pl, s, hashes, k).Ok? && ChunkStore.ReadChunk(sha, s, hashes[k]).Err?
    ensures RestoredFile(sha, pl, s, path, hashes) ==
            Skipped(path, ChunkMissing(hashes[k], ChunkStore.ReadChunk(sha, s, hashes[k]).error))
  {
    hide ChunkStore.ReadChunk, RestoredBytes, UnprocessChunk;
    RestoreStep(sha, pl, s, hashes, k, RestoredBytes(sha, pl, s, hashes, k).value);
    FirstFailure(sha, pl, s, path, hashes, k + 1);
  }
}
