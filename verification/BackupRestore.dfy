/**
 A full backup of a directory tree and its restoration (crates/cli/src/main.rs): every file is
 chunked, processed and stored, parity is added, the tree and the index are saved; restoring
 reads, unwraps and concatenates.
 */
module BackupRestore {
  import opened Wrappers
  import opened Bytes
  import opened Digest
  import opened ChunkStore
  import opened SnapshotTree
  import opened Repositories
  import opened Deletion
  import opened ContentChunker
  import opened Framing
  import opened CrashRuns

  // ── Sources ──────────────────────────────────────────────────────────────

  datatype Source =
    | SourceFile(name: string, modified: int, mode: nat, data: Bytes)
    | SourceDirectory(name: string, modified: int, mode: nat, children: seq<Source>)
    | SourceLink(name: string, target: string)

  // ── What a tree represents ───────────────────────────────────────────────

  /** `h` names what processing made of `raw` with some nonce. */
  ghost predicate StoredAs(sha: Sha, pl: Pipeline, raw: Bytes, h: Hash) {
    exists nonce: Nonce :: Names(sha, pl, raw, nonce, h)
  }

  ghost predicate Names(sha: Sha, pl: Pipeline, raw: Bytes, nonce: Nonce, h: Hash) {
    HashOfChunk(sha, ProcessChunk(pl, nonce, raw)) == h
  }

  ghost predicate AllStoredAs(sha: Sha, pl: Pipeline, raws: seq<Bytes>, hashes: seq<Hash>) {
    && |raws| == |hashes|
    && forall k :: 0 <= k < |raws| ==> StoredAs(sha, pl, raws[k], hashes[k])
  }

  function FileHash(sha: Sha, hashes: seq<Hash>): Bytes {
    Hex(sha(ConcatHashes(hashes)))
  }

  function ConcatHashes(hashes: seq<Hash>): Bytes {
    if |hashes| == 0 then [] else hashes[0] + ConcatHashes(hashes[1..])
  }

  /** What the previous snapshot has for a file: it is looked up by its bare name. */
  function Previous(prev: Option<Snapshot>, name: string): Option<FileInfo> {
    match prev
    case None => None
    case Some(snapshot) => Find(snapshot.root, [name])
  }

  predicate IsUnchanged(prev: Option<Snapshot>, name: string, modified: int, data: Bytes) {
    var oldInfo := Previous(prev, name);
    oldInfo.Some? && oldInfo.value.size == |data| && oldInfo.value.modified == modified
  }

  /** The record of the version that a changed file replaces. */
  function VersionsOf(sha: Sha, prev: Option<Snapshot>, name: string, modified: int, data: Bytes): seq<FileVersion> {
    var oldInfo := Previous(prev, name);
    if prev.None? || oldInfo.None? || IsUnchanged(prev, name, modified, data) || oldInfo.value.chunkHashes == [] then []
    else
      var i := oldInfo.value;
      [FileVersion(prev.value.id, i.modified, i.size, i.chunkHashes, FileHash(sha, i.chunkHashes))]
  }

  ghost predicate RepresentsFile(sha: Sha, pl: Pipeline, c: Limits, prev: Option<Snapshot>, name: string, modified: int, mode: nat,
                                 data: Bytes, node: Node)
    requires ValidLimits(c)
  {
    && node.File? && node.name == name
    && node.info.size == |data| && node.info.modified == modified && node.info.mode == mode
    && node.info.fileHash == FileHash(sha, node.info.chunkHashes)
    && node.info.versions == VersionsOf(sha, prev, name, modified, data)
    && (if IsUnchanged(prev, name, modified, data) then node.info.chunkHashes == Previous(prev, name).value.chunkHashes
        else AllStoredAs(sha, pl, Chunks(c, data), node.info.chunkHashes))
  }

  ghost predicate Represents(sha: Sha, pl: Pipeline, c: Limits, prev: Option<Snapshot>, source: Source, node: Node)
    requires ValidLimits(c)
    decreases source
  {
    match source
    case SourceFile(name, modified, mode, data) =>
      RepresentsFile(sha, pl, c, prev, name, modified, mode, data, node)
    case SourceDirectory(name, modified, mode, children) =>
      && node.Directory? && node.name == name && node.modified == modified && node.mode == mode
      && RepresentsAll(sha, pl, c, prev, children, node.children)
    case SourceLink(name, target) => node == Symlink(name, target)
  }

  ghost predicate RepresentsAll(sha: Sha, pl: Pipeline, c: Limits, prev: Option<Snapshot>, sources: seq<Source>, nodes: seq<Node>)
    requires ValidLimits(c)
    decreases sources
  {
    if |sources| == 0 then nodes == []
    else
      && |nodes| > 0
      && Represents(sha, pl, c, prev, sources[0], nodes[0])
      && RepresentsAll(sha, pl, c, prev, sources[1..], nodes[1..])
  }

  // ── What a tree was stored from ──────────────────────────────────────────

  /** The raw chunks behind the record that a reused file takes over: `olds`, when the previous root is a file. */
  ghost predicate RecordOf(sha: Sha, pl: Pipeline, prev: Option<Snapshot>, olds: seq<Bytes>) {
    prev.Some? && prev.value.root.File? ==> AllStoredAs(sha, pl, olds, prev.value.root.info.chunkHashes)
  }

  /** The raw chunks behind a file: those of the old record when it is reused. */
  function FileRaws(c: Limits, prev: Option<Snapshot>, olds: seq<Bytes>, name: string, modified: int, data: Bytes): seq<Bytes>
    requires ValidLimits(c)
  {
    if IsUnchanged(prev, name, modified, data) then olds else Chunks(c, data)
  }

  function RawsOf(c: Limits, prev: Option<Snapshot>, olds: seq<Bytes>, source: Source): seq<Bytes>
    requires ValidLimits(c)
    decreases source
  {
    match source
    case SourceFile(name, modified, _, data) => FileRaws(c, prev, olds, name, modified, data)
    case SourceDirectory(_, _, _, children) => RawsIn(c, prev, olds, children)
    case SourceLink(_, _) => []
  }

  function RawsIn(c: Limits, prev: Option<Snapshot>, olds: seq<Bytes>, sources: seq<Source>): seq<Bytes>
    requires ValidLimits(c)
    decreases sources
  {
    if |sources| == 0 then [] else RawsOf(c, prev, olds, sources[0]) + RawsIn(c, prev, olds, sources[1..])
  }

  /** The backup of a single file is again a record, made of the chunks it was stored from. */
  lemma {:induction false} BackupLeavesRecord(sha: Sha, pl: Pipeline, c: Limits, prev: Option<Snapshot>, olds: seq<Bytes>, source: Source,
                           snapshot: Snapshot)
    requires ValidLimits(c) && RecordOf(sha, pl, prev, olds) && Represents(sha, pl, c, prev, source, snapshot.root)
    ensures RecordOf(sha, pl, Some(snapshot), RawsOf(c, prev, olds, source))
  {
    hide AllStoredAs, FileRaws, RepresentsFile;
    if source.SourceFile? {
      FileStoredAs(sha, pl, c, prev, olds, source.name, source.modified, source.mode, source.data, snapshot.root);
    }
  }

  /** Files are looked up by bare name, so only a previous root that is a file can be reused. */
  lemma {:induction false} ReusedFromFile(prev: Option<Snapshot>, name: string, modified: int, data: Bytes)
    ensures IsUnchanged(prev, name, modified, data) ==>
              prev.Some? && prev.value.root.File? && prev.value.root.name == name && Previous(prev, name) == Some(prev.value.root.info)
  {
  }

  // ── Restoring ────────────────────────────────────────────────────────────

  datatype RestoreError = ChunkMissing(hash: Hash, error: ReadError) | Undecryptable(hash: Hash, cause: CryptoError)

  datatype Outcome = Restored(path: Path, data: Bytes) | Skipped(path: Path, error: RestoreError)

  /** The contents of the first `n` chunks, or the first failure. */
  function RestoredBytes(sha: Sha, pl: Pipeline, s: Store, hashes: seq<Hash>, n: nat): Result<Bytes, RestoreError>
    requires n <= |hashes|
    decreases n
  {
    if n == 0 then Ok([])
    else
      match RestoredBytes(sha, pl, s, hashes, n - 1)
      case Err(e) => Err(e)
      case Ok(before) =>
        match RestoredChunk(sha, pl, s, hashes[n - 1])
        case Err(e) => Err(e)
        case Ok(raw) => Ok(before + raw)
  }

  function RestoredChunk(sha: Sha, pl: Pipeline, s: Store, h: Hash): Result<Bytes, RestoreError> {
    match ChunkStore.ReadChunk(sha, s, h)
    case Err(e) => Err(ChunkMissing(h, e))
    case Ok(stored) =>
      match UnprocessChunk(pl, true, stored)
      case Err(e) => Err(Undecryptable(h, e))
      case Ok(raw) => Ok(raw)
  }

  function RestoredFile(sha: Sha, pl: Pipeline, s: Store, path: Path, hashes: seq<Hash>): Outcome {
    match RestoredBytes(sha, pl, s, hashes, |hashes|)
    case Ok(data) => Restored(path, data)
    case Err(e) => Skipped(path, e)
  }

  /** One outcome for every file, in tree order. */
  function RestoredNode(sha: Sha, pl: Pipeline, s: Store, rel: Path, node: Node): seq<Outcome>
    decreases node
  {
    match node
    case File(name, info) => [RestoredFile(sha, pl, s, rel + [name], info.chunkHashes)]
    case Directory(name, _, _, children) => RestoredAll(sha, pl, s, rel + [name], children)
    case Symlink(_, _) => []
  }

  function RestoredAll(sha: Sha, pl: Pipeline, s: Store, rel: Path, nodes: seq<Node>): seq<Outcome>
    decreases nodes
  {
    if |nodes| == 0 then [] else RestoredNode(sha, pl, s, rel, nodes[0]) + RestoredAll(sha, pl, s, rel, nodes[1..])
  }

  /** The root directory itself is not recreated. */
  function RestoredRoot(sha: Sha, pl: Pipeline, s: Store, root: Node): seq<Outcome> {
    match root
    case Directory(_, _, _, children) => RestoredAll(sha, pl, s, [], children)
    case _ => RestoredNode(sha, pl, s, [], root)
  }

  /** The files of a source, with their contents. */
  function FilesOf(rel: Path, source: Source): seq<Outcome>
    decreases source
  {
    match source
    case SourceFile(name, _, _, data) => [Restored(rel + [name], data)]
    case SourceDirectory(name, _, _, children) => FilesIn(rel + [name], children)
    case SourceLink(_, _) => []
  }

  function FilesIn(rel: Path, sources: seq<Source>): seq<Outcome>
    decreases sources
  {
    if |sources| == 0 then [] else FilesOf(rel, sources[0]) + FilesIn(rel, sources[1..])
  }

  function FilesOfRoot(source: Source): seq<Outcome> {
    match source
    case SourceDirectory(_, _, _, children) => FilesIn([], children)
    case _ => FilesOf([], source)
  }

  /** The read loop of one file. */
  method RestoreFile(repo: Repository, pl: Pipeline, path: Path, hashes: seq<Hash>) returns (r: Outcome)
    requires repo.Consistent()
    ensures r == RestoredFile(repo.sha, pl, repo.State(), path, hashes)
  {
    hide *;
    ghost var s := repo.State();
    var fileData: Bytes := [];
    NothingRestored(repo.sha, pl, s, path, hashes);
    for k := 0 to |hashes|
      invariant RestoredBytes(repo.sha, pl, s, hashes, k) == Ok(fileData)
    {
      var read := repo.ReadChunk(hashes[k]);
      RestoreStep(repo.sha, pl, s, hashes, k, fileData);
      if read.Err? {
        FirstFailure(repo.sha, pl, s, path, hashes, k + 1);
        return Skipped(path, ChunkMissing(hashes[k], read.error));
      }
      var raw := UnprocessChunk(pl, true, read.value);
      if raw.Err? {
        FirstFailure(repo.sha, pl, s, path, hashes, k + 1);
        return Skipped(path, Undecryptable(hashes[k], raw.error));
      }
      fileData := fileData + raw.value;
    }
    r := Restored(path, fileData);
    AllRestored(repo.sha, pl, s, path, hashes, fileData);
  }

  lemma NothingRestored(sha: Sha, pl: Pipeline, s: Store, path: Path, hashes: seq<Hash>)
    ensures RestoredBytes(sha, pl, s, hashes, 0) == Ok([])
  {
  }

  lemma AllRestored(sha: Sha, pl: Pipeline, s: Store, path: Path, hashes: seq<Hash>, data: Bytes)
    requires RestoredBytes(sha, pl, s, hashes, |hashes|) == Ok(data)
    ensures RestoredFile(sha, pl, s, path, hashes) == Restored(path, data)
  {
    hide RestoredBytes;
  }

  /** One round of the read loop. */
  lemma RestoreStep(sha: Sha, pl: Pipeline, s: Store, hashes: seq<Hash>, k: nat, before: Bytes)
    requires k < |hashes| && RestoredBytes(sha, pl, s, hashes, k) == Ok(before)
    ensures RestoredBytes(sha, pl, s, hashes, k + 1) ==
            (match ChunkStore.ReadChunk(sha, s, hashes[k])
             case Err(e) => Err(ChunkMissing(hashes[k], e))
             case Ok(stored) =>
               match UnprocessChunk(pl, true, stored)
               case Err(e) => Err(Undecryptable(hashes[k], e))
               case Ok(raw) => Ok(before + raw))
  {
    hide ChunkStore.ReadChunk, UnprocessChunk;
  }

  lemma StaysFailed(sha: Sha, pl: Pipeline, s: Store, hashes: seq<Hash>, n: nat)
    requires n < |hashes| && RestoredBytes(sha, pl, s, hashes, n).Err?
    ensures RestoredBytes(sha, pl, s, hashes, n + 1) == RestoredBytes(sha, pl, s, hashes, n)
  {
    hide RestoredChunk;
  }

  lemma {:induction false} FirstFailure(sha: Sha, pl: Pipeline, s: Store, path: Path, hashes: seq<Hash>, n: nat)
    requires n <= |hashes| && RestoredBytes(sha, pl, s, hashes, n).Err?
    ensures RestoredFile(sha, pl, s, path, hashes) == Skipped(path, RestoredBytes(sha, pl, s, hashes, n).error)
    decreases |hashes| - n
  {
    hide RestoredBytes;
    if n < |hashes| {
      StaysFailed(sha, pl, s, hashes, n);
      FirstFailure(sha, pl, s, path, hashes, n + 1);
    }
  }

  method RestoreNode(repo: Repository, pl: Pipeline, rel: Path, node: Node) returns (out: seq<Outcome>)
    requires repo.Consistent()
    ensures out == RestoredNode(repo.sha, pl, repo.State(), rel, node)
    decreases node
  {
    hide RestoredFile, Repository.Consistent;
    match node
    case File(name, info) =>
      var r := RestoreFile(repo, pl, rel + [name], info.chunkHashes);
      out := [r];
    case Directory(name, _, _, children) =>
      out := RestoreAll(repo, pl, rel + [name], children);
    case Symlink(_, _) =>
      out := [];
  }

  method RestoreAll(repo: Repository, pl: Pipeline, rel: Path, nodes: seq<Node>) returns (out: seq<Outcome>)
    requires repo.Consistent()
    ensures out == RestoredAll(repo.sha, pl, repo.State(), rel, nodes)
    decreases nodes
  {
    hide RestoredFile, Repository.Consistent;
    if |nodes| == 0 {
      return [];
    }
    var first := RestoreNode(repo, pl, rel, nodes[0]);
    var rest := RestoreAll(repo, pl, rel, nodes[1..]);
    out := first + rest;
  }

  // ── Restoring undoes backing up ──────────────────────────────────────────

  /** The content found under a name is not the processed chunk that the name was made from. */
  ghost predicate Collides(sha: Sha, pl: Pipeline, s: Store, raw: Bytes, nonce: Nonce, h: Hash) {
    && Names(sha, pl, raw, nonce, h)
    && ChunkStore.ReadChunk(sha, s, h).Ok?
    && ChunkStore.ReadChunk(sha, s, h).value != ProcessChunk(pl, nonce, raw)
  }

  ghost predicate NoCollision(sha: Sha, pl: Pipeline, s: Store, raws: seq<Bytes>, hashes: seq<Hash>) {
    forall i, j, nonce: Nonce :: 0 <= i < |raws| && 0 <= j < |hashes| ==> !Collides(sha, pl, s, raws[i], nonce, hashes[j])
  }

  ghost predicate AllReadable(sha: Sha, s: Store, hashes: seq<Hash>) {
    forall k :: 0 <= k < |hashes| ==> ChunkStore.ReadChunk(sha, s, hashes[k]).Ok?
  }

  /** What restoring shows for a chunk: the chunk itself, or above 256 MiB its framed bytes. */
  function Shown(pl: Pipeline, raw: Bytes): Bytes {
    if |raw| <= MAX_DECOMPRESS_SIZE then raw else CompressChunk(pl.zstd, pl.level, raw)
  }

  function ShownAll(pl: Pipeline, raws: seq<Bytes>): (shown: seq<Bytes>)
    ensures |shown| == |raws|
    ensures forall k :: 0 <= k < |raws| ==> shown[k] == Shown(pl, raws[k])
  {
    seq(|raws|, k requires 0 <= k < |raws| => Shown(pl, raws[k]))
  }

  predicate AllSmall(raws: seq<Bytes>) {
    forall k :: 0 <= k < |raws| ==> |raws[k]| <= MAX_DECOMPRESS_SIZE
  }

  lemma {:induction false} SmallIsShown(pl: Pipeline, raws: seq<Bytes>)
    requires AllSmall(raws)
    ensures ShownAll(pl, raws) == raws
  {
    hide CompressChunk;
  }

  lemma ChunkComesBack(sha: Sha, pl: Pipeline, s: Store, raw: Bytes, h: Hash)
    requires StoredAs(sha, pl, raw, h) && ChunkStore.ReadChunk(sha, s, h).Ok?
    requires forall nonce: Nonce :: !Collides(sha, pl, s, raw, nonce, h)
    ensures RestoredChunk(sha, pl, s, h) == Ok(Shown(pl, raw))
  {
    hide ProcessChunk, UnprocessChunk, HashOfChunk, ChunkStore.ReadChunk, CompressChunk;
    var nonce: Nonce :| Names(sha, pl, raw, nonce, h);
    assert !Collides(sha, pl, s, raw, nonce, h);
    RestoredChunkIff(pl, nonce, raw);
  }

  lemma {:induction false} ConcatPrefix(chunks: seq<Bytes>, n: nat)
    requires n < |chunks|
    ensures Concat(chunks[..n + 1]) == Concat(chunks[..n]) + chunks[n]
    decreases n
  {
    if n == 0 {
      assert chunks[..1] == [chunks[0]] && chunks[..0] == [];
      assert [chunks[0]][1..] == [];
      assert Concat([]) == [];
      assert chunks[0] + [] == [] + chunks[0];
    } else {
      ConcatPrefix(chunks[1..], n - 1);
      assert chunks[..n + 1][1..] == chunks[1..][..n] && chunks[..n][1..] == chunks[1..][..n - 1];
    }
  }

  lemma {:induction false} ChunksComeBack(sha: Sha, pl: Pipeline, s: Store, raws: seq<Bytes>, hashes: seq<Hash>, n: nat)
    requires AllStoredAs(sha, pl, raws, hashes) && AllReadable(sha, s, hashes) && NoCollision(sha, pl, s, raws, hashes)
    requires n <= |raws|
    ensures RestoredBytes(sha, pl, s, hashes, n) == Ok(Concat(ShownAll(pl, raws)[..n]))
    decreases n
  {
    hide *;
    var shown := ShownAll(pl, raws);
    if n == 0 {
      NothingRestored(sha, pl, s, [], hashes);
      EmptyConcat();
      assert shown[..0] == [];
    } else {
      ChunksComeBack(sha, pl, s, raws, hashes, n - 1);
      OneComesBack(sha, pl, s, raws, hashes, n - 1);
      ConcatPrefix(shown, n - 1);
      MoreBytes(sha, pl, s, hashes, n - 1, Concat(shown[..n - 1]), shown[n - 1]);
    }
  }

  lemma {:induction false} OneComesBack(sha: Sha, pl: Pipeline, s: Store, raws: seq<Bytes>, hashes: seq<Hash>, k: nat)
    requires AllStoredAs(sha, pl, raws, hashes) && AllReadable(sha, s, hashes) && NoCollision(sha, pl, s, raws, hashes)
    requires k < |raws|
    ensures k < |hashes| && RestoredChunk(sha, pl, s, hashes[k]) == Ok(Shown(pl, raws[k]))
  {
    hide StoredAs, Collides, ChunkStore.ReadChunk, RestoredChunk, Shown;
    ChunkComesBack(sha, pl, s, raws[k], hashes[k]);
  }

  lemma MoreBytes(sha: Sha, pl: Pipeline, s: Store, hashes: seq<Hash>, k: nat, before: Bytes, raw: Bytes)
    requires k < |hashes| && RestoredBytes(sha, pl, s, hashes, k) == Ok(before)
    requires RestoredChunk(sha, pl, s, hashes[k]) == Ok(raw)
    ensures RestoredBytes(sha, pl, s, hashes, k + 1) == Ok(before + raw)
  {
    hide RestoredChunk;
  }

  lemma EmptyConcat()
    ensures Concat([]) == []
  {
  }

  /** One file: what its chunks show, concatenated. */
  lemma {:induction false} FileComesBack(sha: Sha, pl: Pipeline, s: Store, path: Path, raws: seq<Bytes>, hashes: seq<Hash>)
    requires AllStoredAs(sha, pl, raws, hashes) && AllReadable(sha, s, hashes) && NoCollision(sha, pl, s, raws, hashes)
    ensures RestoredFile(sha, pl, s, path, hashes) == Restored(path, Concat(ShownAll(pl, raws)))
    ensures AllSmall(raws) ==> RestoredFile(sha, pl, s, path, hashes) == Restored(path, Concat(raws))
  {
    hide StoredAs, Collides, ChunkStore.ReadChunk, RestoredChunk, Concat, RestoredBytes, Shown;
    ChunksComeBack(sha, pl, s, raws, hashes, |raws|);
    assert ShownAll(pl, raws)[..|raws|] == ShownAll(pl, raws);
    if AllSmall(raws) {
      SmallIsShown(pl, raws);
    }
  }

  lemma NoCollisionParts(sha: Sha, pl: Pipeline, s: Store, a: seq<Bytes>, b: seq<Bytes>, x: seq<Hash>, y: seq<Hash>)
    requires NoCollision(sha, pl, s, a + b, x + y) && AllReadable(sha, s, x + y)
    ensures NoCollision(sha, pl, s, a, x) && NoCollision(sha, pl, s, b, y)
    ensures AllReadable(sha, s, x) && AllReadable(sha, s, y)
  {
    hide Collides, ChunkStore.ReadChunk;
    forall i, j, nonce: Nonce | 0 <= i < |a| && 0 <= j < |x|
      ensures !Collides(sha, pl, s, a[i], nonce, x[j])
    {
      assert (a + b)[i] == a[i] && (x + y)[j] == x[j];
    }
    forall i, j, nonce: Nonce | 0 <= i < |b| && 0 <= j < |y|
      ensures !Collides(sha, pl, s, b[i], nonce, y[j])
    {
      assert (a + b)[|a| + i] == b[i] && (x + y)[|x| + j] == y[j];
    }
    forall k | 0 <= k < |x|
      ensures ChunkStore.ReadChunk(sha, s, x[k]).Ok?
    {
      assert (x + y)[k] == x[k];
    }
    forall k | 0 <= k < |y|
      ensures ChunkStore.ReadChunk(sha, s, y[k]).Ok?
    {
      assert (x + y)[|x| + k] == y[k];
    }
  }

  // ── Whole trees ──────────────────────────────────────────────────────────

  /** The source as its snapshot holds it: each file with what its stored chunks show. */
  function AsStored(pl: Pipeline, c: Limits, prev: Option<Snapshot>, olds: seq<Bytes>, source: Source): Source
    requires ValidLimits(c)
    decreases source
  {
    match source
    case SourceFile(name, modified, mode, data) =>
      SourceFile(name, modified, mode, Concat(ShownAll(pl, FileRaws(c, prev, olds, name, modified, data))))
    case SourceDirectory(name, modified, mode, children) =>
      SourceDirectory(name, modified, mode, AllAsStored(pl, c, prev, olds, children))
    case SourceLink(_, _) => source
  }

  function AllAsStored(pl: Pipeline, c: Limits, prev: Option<Snapshot>, olds: seq<Bytes>, sources: seq<Source>): (r: seq<Source>)
    requires ValidLimits(c)
    ensures |r| == |sources|
    decreases sources
  {
    if |sources| == 0 then []
    else [AsStored(pl, c, prev, olds, sources[0])] + AllAsStored(pl, c, prev, olds, sources[1..])
  }

  /** The raw chunks behind a file were stored under the hashes of its node. */
  lemma {:induction false} FileStoredAs(sha: Sha, pl: Pipeline, c: Limits, prev: Option<Snapshot>, olds: seq<Bytes>, name: string, modified: int,
                     mode: nat, data: Bytes, node: Node)
    requires ValidLimits(c) && RepresentsFile(sha, pl, c, prev, name, modified, mode, data, node) && RecordOf(sha, pl, prev, olds)
    ensures node.File? && node.name == name
    ensures AllStoredAs(sha, pl, FileRaws(c, prev, olds, name, modified, data), node.info.chunkHashes)
  {
    hide AllStoredAs, Chunks, IsUnchanged, FileHash, VersionsOf, Previous;
    ReusedFromFile(prev, name, modified, data);
  }

  lemma {:induction false} FileShows(sha: Sha, pl: Pipeline, c: Limits, s: Store, prev: Option<Snapshot>, olds: seq<Bytes>, rel: Path,
                  source: Source, node: Node)
    requires ValidLimits(c) && source.SourceFile?
    requires Represents(sha, pl, c, prev, source, node) && RecordOf(sha, pl, prev, olds)
    requires AllReadable(sha, s, ChunkHashes(node))
    requires NoCollision(sha, pl, s, RawsOf(c, prev, olds, source), ChunkHashes(node))
    ensures RestoredNode(sha, pl, s, rel, node) == FilesOf(rel, AsStored(pl, c, prev, olds, source))
  {
    hide AllStoredAs, RestoredFile, NoCollision, AllReadable, RepresentsFile, RecordOf, FileRaws, Concat, ShownAll;
    FileStoredAs(sha, pl, c, prev, olds, source.name, source.modified, source.mode, source.data, node);
    FileComesBack(sha, pl, s, rel + [source.name], FileRaws(c, prev, olds, source.name, source.modified, source.data),
                  node.info.chunkHashes);
  }

  /** Exactly what a restored tree shows, for chunks of every size and reused files of every content. */
  lemma {:induction false} TreeShows(sha: Sha, pl: Pipeline, c: Limits, s: Store, prev: Option<Snapshot>, olds: seq<Bytes>,
                                     rel: Path, source: Source, node: Node)
    requires ValidLimits(c)
    requires Represents(sha, pl, c, prev, source, node) && RecordOf(sha, pl, prev, olds)
    requires AllReadable(sha, s, ChunkHashes(node))
    requires NoCollision(sha, pl, s, RawsOf(c, prev, olds, source), ChunkHashes(node))
    ensures RestoredNode(sha, pl, s, rel, node) == FilesOf(rel, AsStored(pl, c, prev, olds, source))
    decreases source
  {
    hide AllStoredAs, FileRaws, RestoredFile, NoCollision, AllReadable, RecordOf, Concat;
    match source
    case SourceFile(_, _, _, _) =>
      FileShows(sha, pl, c, s, prev, olds, rel, source, node);
    case SourceDirectory(name, _, _, children) =>
      ChildrenShow(sha, pl, c, s, prev, olds, rel + [name], children, node.children);
    case SourceLink(_, _) =>
  }

  lemma {:induction false} ChildrenShow(sha: Sha, pl: Pipeline, c: Limits, s: Store, prev: Option<Snapshot>, olds: seq<Bytes>,
                                        rel: Path, sources: seq<Source>, nodes: seq<Node>)
    requires ValidLimits(c)
    requires RepresentsAll(sha, pl, c, prev, sources, nodes) && RecordOf(sha, pl, prev, olds)
    requires AllReadable(sha, s, ChunkHashesIn(nodes))
    requires NoCollision(sha, pl, s, RawsIn(c, prev, olds, sources), ChunkHashesIn(nodes))
    ensures RestoredAll(sha, pl, s, rel, nodes) == FilesIn(rel, AllAsStored(pl, c, prev, olds, sources))
    decreases sources
  {
    hide RecordOf, RawsOf, NoCollision, AllReadable, Represents, RestoredNode, FilesOf, AsStored, ChunkHashes;
    if |sources| > 0 {
      NoCollisionParts(sha, pl, s, RawsOf(c, prev, olds, sources[0]), RawsIn(c, prev, olds, sources[1..]),
                       ChunkHashes(nodes[0]), ChunkHashesIn(nodes[1..]));
      TreeShows(sha, pl, c, s, prev, olds, rel, sources[0], nodes[0]);
      ChildrenShow(sha, pl, c, s, prev, olds, rel, sources[1..], nodes[1..]);
      assert AllAsStored(pl, c, prev, olds, sources)[1..] == AllAsStored(pl, c, prev, olds, sources[1..]);
    }
  }

  lemma {:induction false} RootShows(sha: Sha, pl: Pipeline, c: Limits, s: Store, prev: Option<Snapshot>, olds: seq<Bytes>, source: Source,
                  root: Node)
    requires ValidLimits(c)
    requires Represents(sha, pl, c, prev, source, root) && RecordOf(sha, pl, prev, olds)
    requires AllReadable(sha, s, ChunkHashes(root))
    requires NoCollision(sha, pl, s, RawsOf(c, prev, olds, source), ChunkHashes(root))
    ensures RestoredRoot(sha, pl, s, root) == FilesOfRoot(AsStored(pl, c, prev, olds, source))
  {
    hide AllStoredAs, FileRaws, RestoredFile, NoCollision, AllReadable, RecordOf, Concat;
    match source
    case SourceDirectory(_, _, _, children) =>
      ChildrenShow(sha, pl, c, s, prev, olds, [], children, root.children);
    case _ =>
      TreeShows(sha, pl, c, s, prev, olds, [], source, root);
  }

  // ── When that is the source ──────────────────────────────────────────────

  /** Every file that is reused has the contents that were backed up under the record it takes over. */
  predicate ReuseIsAccurate(prev: Option<Snapshot>, olds: seq<Bytes>, source: Source)
    decreases source
  {
    match source
    case SourceFile(name, modified, _, data) => IsUnchanged(prev, name, modified, data) ==> data == Concat(olds)
    case SourceDirectory(_, _, _, children) => ReuseIsAccurateIn(prev, olds, children)
    case SourceLink(_, _) => true
  }

  predicate ReuseIsAccurateIn(prev: Option<Snapshot>, olds: seq<Bytes>, sources: seq<Source>)
    decreases sources
  {
    |sources| == 0 || (ReuseIsAccurate(prev, olds, sources[0]) && ReuseIsAccurateIn(prev, olds, sources[1..]))
  }

  lemma {:induction false} SameFileIff(pl: Pipeline, c: Limits, prev: Option<Snapshot>, olds: seq<Bytes>, rel: Path, source: Source)
    requires ValidLimits(c) && source.SourceFile? && AllSmall(RawsOf(c, prev, olds, source))
    ensures FilesOf(rel, AsStored(pl, c, prev, olds, source)) == FilesOf(rel, source) <==> ReuseIsAccurate(prev, olds, source)
  {
    hide Chunks, Concat, Shown, AllSmall, IsUnchanged;
    ChunksRestoreData(c, source.data);
    SmallIsShown(pl, FileRaws(c, prev, olds, source.name, source.modified, source.data));
    var now := FilesOf(rel, AsStored(pl, c, prev, olds, source));
    assert now[0] == Restored(rel + [source.name], Concat(FileRaws(c, prev, olds, source.name, source.modified, source.data)));
    assert FilesOf(rel, source)[0] == Restored(rel + [source.name], source.data);
  }

  lemma {:induction false} SameTreeIff(pl: Pipeline, c: Limits, prev: Option<Snapshot>, olds: seq<Bytes>, rel: Path, source: Source)
    requires ValidLimits(c) && AllSmall(RawsOf(c, prev, olds, source))
    ensures FilesOf(rel, AsStored(pl, c, prev, olds, source)) == FilesOf(rel, source) <==> ReuseIsAccurate(prev, olds, source)
    ensures |FilesOf(rel, AsStored(pl, c, prev, olds, source))| == |FilesOf(rel, source)|
    decreases source
  {
    hide FileRaws, Concat, ShownAll, AllSmall;
    match source
    case SourceFile(_, _, _, _) =>
      SameFileIff(pl, c, prev, olds, rel, source);
    case SourceDirectory(name, _, _, children) =>
      SameChildrenIff(pl, c, prev, olds, rel + [name], children);
    case SourceLink(_, _) =>
  }

  lemma {:induction false} SameChildrenIff(pl: Pipeline, c: Limits, prev: Option<Snapshot>, olds: seq<Bytes>, rel: Path,
                                           sources: seq<Source>)
    requires ValidLimits(c) && AllSmall(RawsIn(c, prev, olds, sources))
    ensures FilesIn(rel, AllAsStored(pl, c, prev, olds, sources)) == FilesIn(rel, sources) <==>
            ReuseIsAccurateIn(prev, olds, sources)
    ensures |FilesIn(rel, AllAsStored(pl, c, prev, olds, sources))| == |FilesIn(rel, sources)|
    decreases sources
  {
    hide RawsOf, FilesOf, AsStored, ReuseIsAccurate, AllSmall;
    if |sources| > 0 {
      var stored := AllAsStored(pl, c, prev, olds, sources);
      SmallParts(RawsOf(c, prev, olds, sources[0]), RawsIn(c, prev, olds, sources[1..]));
      SameTreeIff(pl, c, prev, olds, rel, sources[0]);
      SameChildrenIff(pl, c, prev, olds, rel, sources[1..]);
      assert stored[1..] == AllAsStored(pl, c, prev, olds, sources[1..]);
      SameParts(FilesOf(rel, stored[0]), FilesIn(rel, stored[1..]), FilesOf(rel, sources[0]), FilesIn(rel, sources[1..]));
    }
  }

  lemma SmallParts(a: seq<Bytes>, b: seq<Bytes>)
    requires AllSmall(a + b)
    ensures AllSmall(a) && AllSmall(b)
  {
    forall k | 0 <= k < |a|
      ensures |a[k]| <= MAX_DECOMPRESS_SIZE
    {
      assert (a + b)[k] == a[k];
    }
    forall k | 0 <= k < |b|
      ensures |b[k]| <= MAX_DECOMPRESS_SIZE
    {
      assert (a + b)[|a| + k] == b[k];
    }
  }

  lemma SameParts(a: seq<Outcome>, b: seq<Outcome>, x: seq<Outcome>, y: seq<Outcome>)
    requires |a| == |x|
    ensures a + b == x + y <==> a == x && b == y
  {
    if a + b == x + y {
      assert a == (a + b)[..|a|] && x == (x + y)[..|x|];
      assert b == (a + b)[|a|..] && y == (x + y)[|x|..];
    }
  }

  lemma {:induction false} SameRootIff(pl: Pipeline, c: Limits, prev: Option<Snapshot>, olds: seq<Bytes>, source: Source)
    requires ValidLimits(c) && AllSmall(RawsOf(c, prev, olds, source))
    ensures FilesOfRoot(AsStored(pl, c, prev, olds, source)) == FilesOfRoot(source) <==> ReuseIsAccurate(prev, olds, source)
  {
    hide FileRaws, Concat, ShownAll, AllSmall;
    match source
    case SourceDirectory(_, _, _, children) =>
      SameChildrenIff(pl, c, prev, olds, [], children);
    case _ =>
      SameTreeIff(pl, c, prev, olds, [], source);
  }

  /** Nothing is ever reused from a snapshot whose root is a directory or a link. */
  lemma {:induction false} DirectoryRootsAreNotReused(prev: Snapshot, olds: seq<Bytes>, source: Source)
    requires !prev.root.File?
    ensures ReuseIsAccurate(Some(prev), olds, source)
    decreases source
  {
    match source
    case SourceFile(name, modified, _, data) =>
      ReusedFromFile(Some(prev), name, modified, data);
    case SourceDirectory(_, _, _, children) =>
      NoneIsReused(prev, olds, children);
    case SourceLink(_, _) =>
  }

  lemma {:induction false} NoneIsReused(prev: Snapshot, olds: seq<Bytes>, sources: seq<Source>)
    requires !prev.root.File?
    ensures ReuseIsAccurateIn(Some(prev), olds, sources)
    decreases sources
  {
    if |sources| > 0 {
      DirectoryRootsAreNotReused(prev, olds, sources[0]);
      NoneIsReused(prev, olds, sources[1..]);
    }
  }

  // ── Restoring undoes backing up ──────────────────────────────────────────

  /** What a theorem about a restored snapshot supposes: what it was made from, and that no chunk of it collides. */
  ghost predicate MadeFrom(sha: Sha, pl: Pipeline, c: Limits, store: Store, prev: Option<Snapshot>, olds: seq<Bytes>,
                           source: Source, root: Node) {
    && ValidLimits(c)
    && Represents(sha, pl, c, prev, source, root) && RecordOf(sha, pl, prev, olds)
    && NoCollision(sha, pl, store, RawsOf(c, prev, olds, source), ChunkHashes(root))
  }

  /** A repository opened on a sound disk reads all chunks of a stored snapshot. */
  lemma {:induction false} StoredIsReadable(sha: Sha, s: State, target: nat, store: Store, id: string)
    requires Sound(sha, s) && IsOpened(store, s.packs, s.index, target) && id in s.snapshots
    ensures AllReadable(sha, store, ChunkHashes(s.snapshots[id].root))
  {
    hide ChunkStore.ReadChunk, Sound, IsOpened, HashOfChunk;
    var hashes := ChunkHashes(s.snapshots[id].root);
    forall k | 0 <= k < |hashes|
      ensures ChunkStore.ReadChunk(sha, store, hashes[k]).Ok?
    {
      IsCounted(hashes, k, |hashes|);
      assert UsedBy(s.snapshots, id, hashes[k]);
      OpenedReads(sha, s, target, store, id, hashes[k]);
    }
  }

  /**
   On a sound disk a stored snapshot restores to exactly what its chunks show.  With chunks of at most
   256 MiB that is the source if and only if every reused file still has the contents of its record.
   */
  lemma {:induction false} SnapshotComesBack(sha: Sha, s: State, target: nat, store: Store, id: string, pl: Pipeline, c: Limits,
                          prev: Option<Snapshot>, olds: seq<Bytes>, source: Source)
    requires Sound(sha, s) && IsOpened(store, s.packs, s.index, target) && id in s.snapshots
    requires MadeFrom(sha, pl, c, store, prev, olds, source, s.snapshots[id].root)
    ensures var restored := RestoredRoot(sha, pl, store, s.snapshots[id].root);
            && restored == FilesOfRoot(AsStored(pl, c, prev, olds, source))
            && (AllSmall(RawsOf(c, prev, olds, source)) ==>
                  (restored == FilesOfRoot(source) <==> ReuseIsAccurate(prev, olds, source)))
  {
    hide Represents, RecordOf, NoCollision, ChunkStore.ReadChunk, Sound, IsOpened, RestoredRoot, HashOfChunk, AllSmall,
      ReuseIsAccurate, FilesOfRoot, AsStored, RawsOf;
    var root := s.snapshots[id].root;
    StoredIsReadable(sha, s, target, store, id);
    RootShows(sha, pl, c, store, prev, olds, source, root);
    if AllSmall(RawsOf(c, prev, olds, source)) {
      SameRootIff(pl, c, prev, olds, source);
    }
  }

  /**
   Backup then restore.  Take any run of the program, with crashes, deletions, compactions and
   repairs; any of its states in which a snapshot made from `source` is still stored; a repository
   opened on that disk.  Restoring gives every file of the source, byte for byte, exactly when the
   files that the backup reused had the contents of the record they took over.
   */
  lemma {:induction false} BackupThenRestore(sha: Sha, states: seq<State>, actions: seq<Action>, i: nat, target: nat, store: Store,
                          id: string, pl: Pipeline, c: Limits, prev: Option<Snapshot>, olds: seq<Bytes>, source: Source)
    requires IsRun(sha, states, actions) && states[0] == Init() && i < |states|
    requires IsOpened(store, states[i].packs, states[i].index, target) && id in states[i].snapshots
    requires MadeFrom(sha, pl, c, store, prev, olds, source, states[i].snapshots[id].root)
    ensures var restored := RestoredRoot(sha, pl, store, states[i].snapshots[id].root);
            && restored == FilesOfRoot(AsStored(pl, c, prev, olds, source))
            && (AllSmall(RawsOf(c, prev, olds, source)) ==>
                  (restored == FilesOfRoot(source) <==> ReuseIsAccurate(prev, olds, source)))
  {
    hide MadeFrom, IsRun, Init, IsOpened, RestoredRoot, Sound, AsStored, RawsOf, ReuseIsAccurate, FilesOfRoot, AllSmall;
    RunsAreSound(sha, states, actions, i);
    SnapshotComesBack(sha, states[i], target, store, id, pl, c, prev, olds, source);
  }

  lemma {:induction false} IsCounted(hashes: seq<Hash>, k: nat, n: nat)
    requires k < n <= |hashes|
    ensures Count(hashes, hashes[k], n) > 0
  {
    if k < n - 1 {
      IsCounted(hashes, k, n - 1);
    }
  }
}
