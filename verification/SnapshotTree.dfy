/**
 Snapshot trees: looking a file up by path (crates/core/src/snapshot.rs) and the path
 addressed merge and removal of incremental backup (crates/core/src/watcher.rs).
 */
module SnapshotTree {
  import opened Wrappers
  import opened Bytes
  import opened Digest

  datatype FileVersion = FileVersion(snapshotId: string, timestamp: int, size: nat, chunkHashes: seq<Hash>, fileHash: Bytes)

  datatype FileInfo = FileInfo(size: nat, modified: int, mode: nat, chunkHashes: seq<Hash>, fileHash: Bytes,
                               versions: seq<FileVersion>)

  datatype Node =
    | File(name: string, info: FileInfo)
    | Directory(name: string, modified: int, mode: nat, children: seq<Node>)
    | Symlink(name: string, target: string)

  /** A relative path, component by component. */
  type Path = seq<string>

  datatype TreeError = EmptyPath | NotADirectory

  // ── Lookup ───────────────────────────────────────────────────────────────

  /** The file at `path`, whose first component names `node` itself. */
  function Find(node: Node, path: Path): Option<FileInfo>
    decreases node
  {
    if |path| == 0 then None
    else
      match node
      case File(name, info) => if |path| == 1 && name == path[0] then Some(info) else None
      case Directory(name, _, _, children) =>
        if name == path[0] && |path| > 1 then FindIn(children, path[1..]) else None
      case Symlink(_, _) => None
  }

  /** The first hit among the children. */
  function FindIn(children: seq<Node>, path: Path): Option<FileInfo>
    decreases children
  {
    if |children| == 0 then None
    else
      var r := Find(children[0], path);
      if r.Some? then r else FindIn(children[1..], path)
  }

  /** Every chunk occurrence of the current file contents, in tree order. */
  function ChunkHashes(node: Node): seq<Hash>
    decreases node
  {
    match node
    case File(_, info) => info.chunkHashes
    case Directory(_, _, _, children) => ChunkHashesIn(children)
    case Symlink(_, _) => []
  }

  function ChunkHashesIn(children: seq<Node>): seq<Hash>
    decreases children
  {
    if |children| == 0 then [] else ChunkHashes(children[0]) + ChunkHashesIn(children[1..])
  }

  // ── Merge ────────────────────────────────────────────────────────────────

  const DIRECTORY_MODE: nat := 493

  /** The children that are not called `name`. */
  function Without(children: seq<Node>, name: string): (kept: seq<Node>)
    ensures |kept| <= |children|
    ensures forall c :: c in kept <==> c in children && c.name != name
  {
    if |children| == 0 then []
    else if children[0].name == name then Without(children[1..], name)
    else [children[0]] + Without(children[1..], name)
  }

  /** The first child called `name`. */
  function FirstNamed(children: seq<Node>, name: string): (k: nat)
    ensures k <= |children|
    ensures k < |children| ==> children[k].name == name
    ensures forall i :: 0 <= i < k ==> children[i].name != name
  {
    if |children| == 0 || children[0].name == name then 0 else 1 + FirstNamed(children[1..], name)
  }

  predicate HasDirectory(children: seq<Node>, name: string) {
    exists c :: c in children && c.name == name && c.Directory?
  }

  /** The children after a missing directory has been created. */
  function WithDirectory(children: seq<Node>, name: string, now: int): (r: seq<Node>)
    ensures FirstNamed(r, name) < |r|
  {
    if HasDirectory(children, name) then
      var c :| c in children && c.name == name && c.Directory?;
      assert FirstNamed(children, name) < |children|;
      children
    else
      var created := children + [Directory(name, now, DIRECTORY_MODE, [])];
      assert created[|children|].name == name;
      created
  }

  /**
   Replace or insert `incoming` as child `name` of the directory at `dirs`.  The tree is
   returned also on failure: directories created on the way stay.
   */
  function MergeAt(node: Node, dirs: Path, name: string, incoming: Node, now: int): (Node, Result<(), TreeError>)
    decreases |dirs|
  {
    if !node.Directory? then (node, Err(NotADirectory))
    else if |dirs| == 0 then (node.(children := Without(node.children, name) + [incoming]), Ok(()))
    else
      var children := WithDirectory(node.children, dirs[0], now);
      var k := FirstNamed(children, dirs[0]);
      var (child, r) := MergeAt(children[k], dirs[1..], name, incoming, now);
      (node.(children := children[k := child]), r)
  }

  function Merge(root: Node, path: Path, incoming: Node, now: int): (Node, Result<(), TreeError>) {
    if |path| == 0 then (root, Err(EmptyPath))
    else MergeAt(root, path[..|path| - 1], path[|path| - 1], incoming, now)
  }

  // ── Removal ──────────────────────────────────────────────────────────────

  function RemoveAt(node: Node, dirs: Path, name: string): (Node, bool)
    decreases |dirs|
  {
    if !node.Directory? then (node, false)
    else if |dirs| == 0 then
      var kept := Without(node.children, name);
      (node.(children := kept), |kept| < |node.children|)
    else
      var k := FirstNamed(node.children, dirs[0]);
      if k == |node.children| then (node, false)
      else
        var (child, removed) := RemoveAt(node.children[k], dirs[1..], name);
        (node.(children := node.children[k := child]), removed)
  }

  function Remove(root: Node, path: Path): (Node, Result<bool, TreeError>) {
    if |path| == 0 then (root, Err(EmptyPath))
    else
      var (node, removed) := RemoveAt(root, path[..|path| - 1], path[|path| - 1]);
      (node, Ok(removed))
  }

  // ── Siblings have different names ────────────────────────────────────────

  predicate DistinctNames(children: seq<Node>) {
    forall i, j :: 0 <= i < j < |children| ==> children[i].name != children[j].name
  }

  predicate Unique(node: Node)
    decreases node
  {
    node.Directory? ==>
      && DistinctNames(node.children)
      && (forall i :: 0 <= i < |node.children| ==> Unique(node.children[i]))
  }

  // ── Lookup in changed child lists ────────────────────────────────────────

  /** A child answers only for paths that start with its name. */
  lemma FindWrongName(node: Node, path: Path)
    requires |path| == 0 || node.name != path[0]
    ensures Find(node, path) == None
  {
  }

  lemma {:induction false} FindInWithout(children: seq<Node>, name: string, path: Path)
    requires |path| > 0 && path[0] != name
    ensures FindIn(Without(children, name), path) == FindIn(children, path)
    decreases |children|
  {
    if |children| > 0 {
      FindInWithout(children[1..], name, path);
      if children[0].name == name {
        FindWrongName(children[0], path);
      } else {
        assert ([children[0]] + Without(children[1..], name))[1..] == Without(children[1..], name);
      }
    }
  }

  lemma {:induction false} FindInAppend(children: seq<Node>, last: Node, path: Path)
    ensures FindIn(children + [last], path) ==
            if FindIn(children, path).Some? then FindIn(children, path) else Find(last, path)
    decreases |children|
  {
    if |children| == 0 {
      assert children + [last] == [last];
    } else {
      assert (children + [last])[1..] == children[1..] + [last];
      FindInAppend(children[1..], last, path);
    }
  }

  /** Nothing is found where no child has the right name. */
  lemma {:induction false} FindInNobody(children: seq<Node>, path: Path)
    requires |path| > 0 && forall i :: 0 <= i < |children| ==> children[i].name != path[0]
    ensures FindIn(children, path) == None
    decreases |children|
  {
    if |children| > 0 {
      FindInNobody(children[1..], path);
    }
  }

  /** Replacing a child by one that answers the same changes no answer. */
  lemma {:induction false} FindInReplace(children: seq<Node>, k: nat, child: Node, path: Path)
    requires k < |children| && Find(child, path) == Find(children[k], path)
    ensures FindIn(children[k := child], path) == FindIn(children, path)
    decreases |children|
  {
    if k > 0 {
      assert children[k := child][1..] == children[1..][k - 1 := child];
      FindInReplace(children[1..], k - 1, child, path);
    } else {
      assert children[k := child][1..] == children[1..];
    }
  }

  /** The first child of the right name answers when it has an answer. */
  lemma {:induction false} FindInFirst(children: seq<Node>, k: nat, path: Path)
    requires |path| > 0 && k < |children| && Find(children[k], path).Some?
    requires forall i :: 0 <= i < k ==> children[i].name != path[0]
    ensures FindIn(children, path) == Find(children[k], path)
    decreases |children|
  {
    if k > 0 {
      FindInFirst(children[1..], k - 1, path);
    }
  }

  // ── Laws of merge ────────────────────────────────────────────────────────

  lemma {:induction false} MergeKeepsName(node: Node, dirs: Path, name: string, incoming: Node, now: int)
    ensures MergeAt(node, dirs, name, incoming, now).0.name == node.name
    decreases |dirs|
  {
  }

  /** `path` is not `prefix` and does not lead through it. */
  predicate Elsewhere(prefix: Path, path: Path) {
    !(prefix <= path)
  }

  lemma ElsewhereInside(parent: string, name: string, path: Path)
    requires Elsewhere([parent] + [] + [name], path) && |path| > 1 && path[0] == parent
    ensures path[1] != name
  {
    var prefix := [parent] + [] + [name];
    assert prefix == [parent, name];
    var head := path[..2];
    assert head <= path && head == [parent, path[1]];
  }

  lemma FindInCreated(children: seq<Node>, name: string, now: int, path: Path)
    ensures FindIn(WithDirectory(children, name, now), path) == FindIn(children, path)
  {
    if !HasDirectory(children, name) {
      FindInAppend(children, Directory(name, now, DIRECTORY_MODE, []), path);
    }
  }

  /** A merge changes no lookup of a path that is not at or below its own path. */
  lemma {:induction false} MergeKeepsOthers(node: Node, dirs: Path, name: string, incoming: Node, now: int, path: Path)
    requires incoming.name == name && Elsewhere([node.name] + dirs + [name], path)
    ensures Find(MergeAt(node, dirs, name, incoming, now).0, path) == Find(node, path)
    decreases |dirs|
  {
    if node.Directory? && |path| > 1 && path[0] == node.name {
      var rest := path[1..];
      assert path == [node.name] + rest;
      if |dirs| == 0 {
        ElsewhereInside(node.name, name, path);
        FindInWithout(node.children, name, rest);
        FindInAppend(Without(node.children, name), incoming, rest);
        FindWrongName(incoming, rest);
      } else {
        var children := WithDirectory(node.children, dirs[0], now);
        var k := FirstNamed(children, dirs[0]);
        var child := MergeAt(children[k], dirs[1..], name, incoming, now).0;
        assert Elsewhere([children[k].name] + dirs[1..] + [name], rest) by {
          assert [node.name] + dirs + [name] == [node.name] + ([children[k].name] + dirs[1..] + [name]);
        }
        MergeKeepsOthers(children[k], dirs[1..], name, incoming, now, rest);
        FindInReplace(children, k, child, rest);
        FindInCreated(node.children, dirs[0], now, rest);
      }
    }
  }

  /** The way to the parent directory is free: nothing on it is a file or a symlink. */
  predicate Navigable(node: Node, dirs: Path)
    decreases |dirs|
  {
    && node.Directory?
    && (|dirs| > 0 ==>
          var k := FirstNamed(node.children, dirs[0]);
          k < |node.children| ==> Navigable(node.children[k], dirs[1..]))
  }

  lemma {:induction false} EmptyDirectoryIsNavigable(node: Node, dirs: Path)
    requires node.Directory? && node.children == []
    ensures Navigable(node, dirs)
  {
  }

  lemma {:induction false} CreatedIsFirst(children: seq<Node>, name: string, now: int)
    requires FirstNamed(children, name) == |children|
    ensures WithDirectory(children, name, now) == children + [Directory(name, now, DIRECTORY_MODE, [])]
    ensures FirstNamed(WithDirectory(children, name, now), name) == |children|
  {
    var created := WithDirectory(children, name, now);
    assert forall i :: 0 <= i < |children| ==> created[i] == children[i];
  }

  /** With unique names: without a child of that name one is created, otherwise the child itself is entered. */
  lemma EnteredChild(node: Node, name: string, now: int)
    requires node.Directory? && Unique(node)
    ensures var children, k := WithDirectory(node.children, name, now), FirstNamed(node.children, name);
            FirstNamed(children, name) == k &&
            if k < |node.children| then
              children[k] == node.children[k] && (node.children[k].Directory? ==> children == node.children)
            else
              children == node.children + [Directory(name, now, DIRECTORY_MODE, [])]
  {
    var k := FirstNamed(node.children, name);
    if k == |node.children| {
      CreatedIsFirst(node.children, name, now);
    } else {
      var children := WithDirectory(node.children, name, now);
      assert forall i :: 0 <= i < |node.children| ==> children[i] == node.children[i];
    }
  }

  /** After a successful merge, a lookup at or below the path is a lookup in the merged node, whatever its kind. */
  lemma {:induction false} MergeThenFind(node: Node, dirs: Path, name: string, incoming: Node, now: int, below: Path)
    requires Unique(node) && incoming.name == name
    requires MergeAt(node, dirs, name, incoming, now).1.Ok?
    ensures Find(MergeAt(node, dirs, name, incoming, now).0, [node.name] + dirs + [name] + below) == Find(incoming, [name] + below)
    decreases |dirs|
  {
    var path := [node.name] + dirs + [name] + below;
    if |dirs| == 0 {
      assert path[1..] == [name] + below;
      var kept := Without(node.children, name);
      FindInAppend(kept, incoming, [name] + below);
      assert forall i :: 0 <= i < |kept| ==> kept[i] in kept;
      FindInNobody(kept, [name] + below);
    } else {
      EnteredChild(node, dirs[0], now);
      var children := WithDirectory(node.children, dirs[0], now);
      var k := FirstNamed(children, dirs[0]);
      var child := MergeAt(children[k], dirs[1..], name, incoming, now).0;
      EnteredIsUnique(node, dirs[0], now);
      MergeThenFind(children[k], dirs[1..], name, incoming, now, below);
      MergeKeepsName(children[k], dirs[1..], name, incoming, now);
      assert path[1..] == [children[k].name] + dirs[1..] + [name] + below;
      EnteredIsOnly(node, dirs, name, incoming, now);
      OnlyOneAnswers(children[k := child], k, path[1..]);
    }
  }

  /** The child that a merge enters has unique names below it. */
  lemma EnteredIsUnique(node: Node, name: string, now: int)
    requires node.Directory? && Unique(node)
    ensures var children := WithDirectory(node.children, name, now);
            Unique(children[FirstNamed(children, name)])
  {
    EnteredChild(node, name, now);
  }

  /** When the merge below it succeeds, no other child has the name of the one entered. */
  lemma EnteredIsOnly(node: Node, dirs: Path, name: string, incoming: Node, now: int)
    requires node.Directory? && Unique(node) && |dirs| > 0
    requires MergeAt(node, dirs, name, incoming, now).1.Ok?
    ensures var children := WithDirectory(node.children, dirs[0], now);
            forall i :: 0 <= i < |children| && i != FirstNamed(children, dirs[0]) ==> children[i].name != dirs[0]
  {
    EnteredChild(node, dirs[0], now);
  }

  /** A merge succeeds exactly when the way to the parent is free. */
  lemma {:induction false} MergeSucceedsIff(node: Node, dirs: Path, name: string, incoming: Node, now: int)
    requires Unique(node)
    ensures MergeAt(node, dirs, name, incoming, now).1.Ok? <==> Navigable(node, dirs)
    decreases |dirs|
  {
    if node.Directory? && |dirs| > 0 {
      EnteredChild(node, dirs[0], now);
      var children := WithDirectory(node.children, dirs[0], now);
      var k := FirstNamed(children, dirs[0]);
      MergeSucceedsIff(children[k], dirs[1..], name, incoming, now);
      if k == |node.children| {
        EmptyDirectoryIsNavigable(children[k], dirs[1..]);
      }
    }
  }

  lemma WithoutKeepsUnique(node: Node, name: string)
    requires node.Directory? && Unique(node)
    ensures Unique(node.(children := Without(node.children, name)))
    decreases |node.children|
  {
    var kept := Without(node.children, name);
    WithoutIsDistinct(node.children, name);
    forall i | 0 <= i < |kept|
      ensures Unique(kept[i])
    {
      assert kept[i] in node.children;
    }
  }

  lemma {:induction false} WithoutIsDistinct(children: seq<Node>, name: string)
    requires DistinctNames(children)
    ensures DistinctNames(Without(children, name))
    decreases |children|
  {
    if |children| > 0 {
      WithoutIsDistinct(children[1..], name);
      var rest := Without(children[1..], name);
      forall j | 0 <= j < |rest|
        ensures rest[j].name != children[0].name
      {
        assert rest[j] in rest;
      }
      var kept := Without(children, name);
      forall i, j | 0 <= i < j < |kept|
        ensures kept[i].name != kept[j].name
      {
        if children[0].name != name && i > 0 {
          assert rest[i - 1].name != rest[j - 1].name;
        }
      }
    }
  }

  lemma AppendKeepsUnique(node: Node, last: Node)
    requires node.Directory? && Unique(node) && Unique(last)
    requires forall c :: c in node.children ==> c.name != last.name
    ensures Unique(node.(children := node.children + [last]))
  {
    var children := node.children + [last];
    forall i, j | 0 <= i < j < |children|
      ensures children[i].name != children[j].name
    {
      assert children[i] in node.children;
    }
  }

  /** A successful merge keeps sibling names unique. */
  lemma {:induction false} MergeKeepsUnique(node: Node, dirs: Path, name: string, incoming: Node, now: int)
    requires Unique(node) && Unique(incoming) && incoming.name == name
    requires MergeAt(node, dirs, name, incoming, now).1.Ok?
    ensures Unique(MergeAt(node, dirs, name, incoming, now).0)
    decreases |dirs|
  {
    if |dirs| == 0 {
      WithoutKeepsUnique(node, name);
      AppendKeepsUnique(node.(children := Without(node.children, name)), incoming);
    } else {
      EnteredChild(node, dirs[0], now);
      var children := WithDirectory(node.children, dirs[0], now);
      var k := FirstNamed(children, dirs[0]);
      MergeKeepsName(children[k], dirs[1..], name, incoming, now);
      if k == |node.children| {
        AppendKeepsUnique(node, children[k]);
      }
      assert Unique(node.(children := children));
      MergeKeepsUnique(children[k], dirs[1..], name, incoming, now);
    }
  }

  /**
   A merge that fails on the way has created a directory beside a file or link of the same name,
   so sibling names are then no longer unique.
   */
  lemma {:induction false} FailedMergeBreaksUnique(node: Node, dirs: Path, name: string, incoming: Node, now: int)
    requires Unique(node) && node.Directory? && MergeAt(node, dirs, name, incoming, now).1.Err?
    ensures !Unique(MergeAt(node, dirs, name, incoming, now).0)
    decreases |dirs|
  {
    EnteredChild(node, dirs[0], now);
    EnteredIsUnique(node, dirs[0], now);
    var children := WithDirectory(node.children, dirs[0], now);
    var k := FirstNamed(children, dirs[0]);
    var merged := MergeAt(node, dirs, name, incoming, now).0;
    if children[k].Directory? {
      FailedMergeBreaksUnique(children[k], dirs[1..], name, incoming, now);
      assert !Unique(merged.children[k]);
    } else {
      assert merged.children == children && k < |node.children|;
      CreatedBeside(node, dirs[0], now);
    }
  }

  lemma CreatedBeside(node: Node, name: string, now: int)
    requires node.Directory? && Unique(node)
    requires var k := FirstNamed(node.children, name); k < |node.children| && !node.children[k].Directory?
    ensures !DistinctNames(WithDirectory(node.children, name, now))
  {
    var children, k := WithDirectory(node.children, name, now), FirstNamed(node.children, name);
    assert forall i :: 0 <= i < |node.children| && node.children[i].name == name ==> i == k;
    assert children[k].name == children[|node.children|].name;
  }

  // ── Laws of removal ──────────────────────────────────────────────────────

  lemma {:induction false} RemoveKeepsName(node: Node, dirs: Path, name: string)
    ensures RemoveAt(node, dirs, name).0.name == node.name
    decreases |dirs|
  {
  }

  /** With unique names, nothing is found at the path after a removal. */
  lemma {:induction false} RemoveThenFind(node: Node, dirs: Path, name: string)
    requires Unique(node)
    ensures Find(RemoveAt(node, dirs, name).0, [node.name] + dirs + [name]) == None
    decreases |dirs|
  {
    var path := [node.name] + dirs + [name];
    if node.Directory? {
      if |dirs| == 0 {
        assert path[1..] == [name];
        var kept := Without(node.children, name);
        assert forall i :: 0 <= i < |kept| ==> kept[i] in kept;
        FindInNobody(kept, [name]);
      } else {
        var k := FirstNamed(node.children, dirs[0]);
        var rest := path[1..];
        if k == |node.children| {
          FindInNobody(node.children, rest);
        } else {
          var child := RemoveAt(node.children[k], dirs[1..], name).0;
          assert rest == [node.children[k].name] + dirs[1..] + [name];
          RemoveThenFind(node.children[k], dirs[1..], name);
          RemoveKeepsName(node.children[k], dirs[1..], name);
          OnlyOneAnswers(node.children[k := child], k, rest);
        }
      }
    }
  }

  /** When only child `k` has the right name, its answer is the answer. */
  lemma {:induction false} OnlyOneAnswers(children: seq<Node>, k: nat, path: Path)
    requires |path| > 0 && k < |children|
    requires forall i :: 0 <= i < |children| && i != k ==> children[i].name != path[0]
    ensures FindIn(children, path) == Find(children[k], path)
    decreases |children|
  {
    if k == 0 {
      FindInNobody(children[1..], path);
    } else {
      OnlyOneAnswers(children[1..], k - 1, path);
    }
  }

  /** A removal changes no lookup of a path that is not at or below its own path. */
  lemma {:induction false} RemoveKeepsOthers(node: Node, dirs: Path, name: string, path: Path)
    requires Elsewhere([node.name] + dirs + [name], path)
    ensures Find(RemoveAt(node, dirs, name).0, path) == Find(node, path)
    decreases |dirs|
  {
    if node.Directory? && |path| > 1 && path[0] == node.name {
      var rest := path[1..];
      assert path == [node.name] + rest;
      if |dirs| == 0 {
        ElsewhereInside(node.name, name, path);
        FindInWithout(node.children, name, rest);
      } else {
        var k := FirstNamed(node.children, dirs[0]);
        if k < |node.children| {
          var child := RemoveAt(node.children[k], dirs[1..], name).0;
          assert Elsewhere([node.children[k].name] + dirs[1..] + [name], rest) by {
            assert [node.name] + dirs + [name] == [node.name] + ([node.children[k].name] + dirs[1..] + [name]);
          }
          RemoveKeepsOthers(node.children[k], dirs[1..], name, rest);
          FindInReplace(node.children, k, child, rest);
        }
      }
    }
  }

  /** Some node, of whatever kind, is at `name` under the directory `dirs`. */
  predicate Occupied(node: Node, dirs: Path, name: string)
    decreases |dirs|
  {
    && node.Directory?
    && if |dirs| == 0 then exists c :: c in node.children && c.name == name
       else exists c :: c in node.children && c.name == dirs[0] && Occupied(c, dirs[1..], name)
  }

  lemma {:induction false} WithoutShorter(children: seq<Node>, name: string)
    requires exists c :: c in children && c.name == name
    ensures |Without(children, name)| < |children|
    decreases |children|
  {
    if children[0].name != name {
      var c :| c in children && c.name == name;
      assert c in children[1..];
      WithoutShorter(children[1..], name);
    }
  }

  /** The flag says that a node was there, and that the tree has changed. */
  lemma {:induction false} RemovedFlag(node: Node, dirs: Path, name: string)
    requires Unique(node)
    ensures RemoveAt(node, dirs, name).1 <==> Occupied(node, dirs, name)
    ensures RemoveAt(node, dirs, name).1 <==> RemoveAt(node, dirs, name).0 != node
    decreases |dirs|
  {
    if node.Directory? {
      if |dirs| == 0 {
        if exists c :: c in node.children && c.name == name {
          WithoutShorter(node.children, name);
        } else {
          WithoutNobody(node.children, name);
        }
      } else {
        var k := FirstNamed(node.children, dirs[0]);
        if k < |node.children| {
          RemovedFlag(node.children[k], dirs[1..], name);
          assert forall i :: 0 <= i < |node.children| && node.children[i].name == dirs[0] ==> i == k;
          assert node.children[k := node.children[k]] == node.children;
        }
      }
    }
  }

  // ── Removal undoes merge ─────────────────────────────────────────────────

  /** The directory at `dirs` exists and has no child called `name`. */
  predicate AbsentUnderParent(node: Node, dirs: Path, name: string)
    decreases |dirs|
  {
    && node.Directory?
    && if |dirs| == 0 then forall c :: c in node.children ==> c.name != name
       else
         var k := FirstNamed(node.children, dirs[0]);
         k < |node.children| && AbsentUnderParent(node.children[k], dirs[1..], name)
  }

  lemma {:induction false} WithoutNobody(children: seq<Node>, name: string)
    requires forall c :: c in children ==> c.name != name
    ensures Without(children, name) == children
    decreases |children|
  {
    if |children| > 0 {
      assert children[0] in children;
      WithoutNobody(children[1..], name);
    }
  }

  lemma {:induction false} WithoutLast(children: seq<Node>, last: Node)
    requires forall c :: c in children ==> c.name != last.name
    ensures Without(children + [last], last.name) == children
    decreases |children|
  {
    if |children| == 0 {
      assert children + [last] == [last];
      assert [last][1..] == [];
    } else {
      assert (children + [last])[1..] == children[1..] + [last];
      assert children[0] in children;
      WithoutLast(children[1..], last);
    }
  }

  lemma {:induction false} FirstNamedReplace(children: seq<Node>, k: nat, child: Node)
    requires k < |children| && FirstNamed(children, child.name) == k
    ensures FirstNamed(children[k := child], child.name) == k
    decreases |children|
  {
    if k > 0 {
      assert children[k := child][1..] == children[1..][k - 1 := child];
      FirstNamedReplace(children[1..], k - 1, child);
    }
  }

  /** Removing a file that was merged at a free path of an existing directory restores the tree. */
  lemma {:induction false} RemoveUndoesMerge(node: Node, dirs: Path, name: string, incoming: Node, now: int)
    requires Unique(node) && incoming.name == name && AbsentUnderParent(node, dirs, name)
    ensures var merged := MergeAt(node, dirs, name, incoming, now);
            merged.1.Ok? && RemoveAt(merged.0, dirs, name) == (node, true)
    decreases |dirs|
  {
    var merged := MergeAt(node, dirs, name, incoming, now);
    if |dirs| == 0 {
      WithoutNobody(node.children, name);
      WithoutLast(node.children, incoming);
    } else {
      EnteredChild(node, dirs[0], now);
      var k := FirstNamed(node.children, dirs[0]);
      RemoveUndoesMerge(node.children[k], dirs[1..], name, incoming, now);
      MergeKeepsName(node.children[k], dirs[1..], name, incoming, now);
      var child := MergeAt(node.children[k], dirs[1..], name, incoming, now).0;
      FirstNamedReplace(node.children, k, child);
      assert node.children[k := child][k := node.children[k]] == node.children;
    }
  }

  // ── The operations as called ─────────────────────────────────────────────

  lemma SplitPath(root: Node, path: Path)
    requires |path| > 0
    ensures [root.name] + path[..|path| - 1] + [path[|path| - 1]] == [root.name] + path
  {
  }

  /** All laws of a merge of a file, link or directory at `path`, as seen by lookups from the root. */
  lemma MergeLaws(root: Node, path: Path, incoming: Node, now: int, below: Path, other: Path)
    requires |path| > 0 && incoming.name == path[|path| - 1]
    requires Unique(root) && Unique(incoming)
    ensures var (merged, r) := Merge(root, path, incoming, now);
            && (r.Ok? <==> Navigable(root, path[..|path| - 1]))
            && (r.Ok? ==> Find(merged, [root.name] + path + below) == Find(incoming, [incoming.name] + below))
            && (Elsewhere([root.name] + path, other) ==> Find(merged, other) == Find(root, other))
            && (Unique(merged) <==> r.Ok? || !root.Directory?)
  {
    var dirs, name := path[..|path| - 1], path[|path| - 1];
    SplitPath(root, path);
    MergeSucceedsIff(root, dirs, name, incoming, now);
    if MergeAt(root, dirs, name, incoming, now).1.Ok? {
      MergeThenFind(root, dirs, name, incoming, now, below);
      MergeKeepsUnique(root, dirs, name, incoming, now);
    } else if root.Directory? {
      FailedMergeBreaksUnique(root, dirs, name, incoming, now);
    }
    if Elsewhere([root.name] + path, other) {
      MergeKeepsOthers(root, dirs, name, incoming, now, other);
    }
  }

  lemma RemoveLaws(root: Node, path: Path, other: Path)
    requires |path| > 0 && Unique(root)
    ensures var (removed, r) := Remove(root, path);
            && r.Ok?
            && (r.value <==> Occupied(root, path[..|path| - 1], path[|path| - 1]))
            && (r.value <==> removed != root)
            && Find(removed, [root.name] + path) == None
            && (Elsewhere([root.name] + path, other) ==> Find(removed, other) == Find(root, other))
  {
    var dirs, name := path[..|path| - 1], path[|path| - 1];
    SplitPath(root, path);
    RemoveThenFind(root, dirs, name);
    RemovedFlag(root, dirs, name);
    if Elsewhere([root.name] + path, other) {
      RemoveKeepsOthers(root, dirs, name, other);
    }
  }

  // ── Directories on the way ───────────────────────────────────────────────

  /** The directory that is reached by these names. */
  function DirectoryAt(node: Node, dirs: Path): Option<Node>
    decreases |dirs|
  {
    if !node.Directory? then None
    else if |dirs| == 0 then Some(node)
    else
      var k := FirstNamed(node.children, dirs[0]);
      if k < |node.children| then DirectoryAt(node.children[k], dirs[1..]) else None
  }

  lemma NoEmptyWay(node: Node, dirs: Path)
    requires node.Directory? && node.children == []
    ensures DirectoryAt(node, dirs) == if |dirs| == 0 then Some(node) else None
  {
  }

  /**
   After a merge every directory on the way is there.  One that existed keeps its attributes; one that did not
   has the time of the merge and the mode 755 in octal.  The merged node is the last child of the innermost one.
   */
  lemma {:induction false} DirectoriesAfterMerge(node: Node, dirs: Path, name: string, incoming: Node, now: int, m: nat)
    requires Unique(node) && Navigable(node, dirs) && m <= |dirs|
    ensures var before, after := DirectoryAt(node, dirs[..m]), DirectoryAt(MergeAt(node, dirs, name, incoming, now).0, dirs[..m]);
            && after.Some? && after.value.Directory?
            && (before.Some? ==>
                  before.value.Directory? && after.value.name == before.value.name
                  && after.value.modified == before.value.modified && after.value.mode == before.value.mode)
            && (before.None? ==>
                  m > 0 && after.value.name == dirs[m - 1] && after.value.modified == now && after.value.mode == 493)
            && (m == |dirs| ==>
                  |after.value.children| > 0 && after.value.children[|after.value.children| - 1] == incoming)
    decreases |dirs|
  {
    hide Unique, MergeAt, DirectoryAt, Navigable;
    WayAfterMerge(node, dirs, name, incoming, now, m);
  }

  /** What a merge promises of the directory that the first `m` names lead to. */
  ghost predicate OnTheWay(before: Option<Node>, after: Option<Node>, dirs: Path, incoming: Node, now: int, m: nat)
    requires m <= |dirs|
  {
    && after.Some? && after.value.Directory?
    && (before.Some? ==>
          before.value.Directory? && after.value.name == before.value.name
          && after.value.modified == before.value.modified && after.value.mode == before.value.mode)
    && (before.None? ==> m > 0 && after.value.name == dirs[m - 1] && after.value.modified == now && after.value.mode == 493)
    && (m == |dirs| ==> |after.value.children| > 0 && after.value.children[|after.value.children| - 1] == incoming)
  }

  lemma {:induction false} WayAfterMerge(node: Node, dirs: Path, name: string, incoming: Node, now: int, m: nat)
    requires Unique(node) && Navigable(node, dirs) && m <= |dirs|
    ensures OnTheWay(DirectoryAt(node, dirs[..m]), DirectoryAt(MergeAt(node, dirs, name, incoming, now).0, dirs[..m]),
                     dirs, incoming, now, m)
    decreases |dirs|
  {
    hide Unique, MergeAt, DirectoryAt, Navigable, OnTheWay;
    if m == 0 {
      HereAfterMerge(node, dirs, name, incoming, now);
    } else {
      var entered, child := BelowAfterMerge(node, dirs, name, incoming, now, m);
      WayAfterMerge(entered, dirs[1..], name, incoming, now, m - 1);
      OneLevelUp(DirectoryAt(node, dirs[..m]), DirectoryAt(entered, dirs[1..][..m - 1]), DirectoryAt(child, dirs[1..][..m - 1]),
                 entered, dirs, incoming, now, m);
    }
  }

  lemma OneLevelUp(before: Option<Node>, inner: Option<Node>, after: Option<Node>, entered: Node, dirs: Path, incoming: Node,
                   now: int, m: nat)
    requires 0 < m <= |dirs| && OnTheWay(inner, after, dirs[1..], incoming, now, m - 1)
    requires before == inner || (before == None && entered == Directory(dirs[0], now, 493, []) && inner == if m == 1 then Some(entered) else None)
    ensures OnTheWay(before, after, dirs, incoming, now, m)
  {
    assert m > 1 ==> dirs[1..][m - 2] == dirs[m - 1];
  }

  lemma {:induction false} HereAfterMerge(node: Node, dirs: Path, name: string, incoming: Node, now: int)
    requires Navigable(node, dirs)
    ensures OnTheWay(DirectoryAt(node, dirs[..0]), DirectoryAt(MergeAt(node, dirs, name, incoming, now).0, dirs[..0]),
                     dirs, incoming, now, 0)
  {
  }

  /** One level down: the child that is entered, and what it becomes. */
  lemma {:induction false} BelowAfterMerge(node: Node, dirs: Path, name: string, incoming: Node, now: int, m: nat)
    returns (entered: Node, child: Node)
    requires Unique(node) && Navigable(node, dirs) && 0 < m <= |dirs|
    ensures Unique(entered) && Navigable(entered, dirs[1..]) && child == MergeAt(entered, dirs[1..], name, incoming, now).0
    ensures DirectoryAt(MergeAt(node, dirs, name, incoming, now).0, dirs[..m]) == DirectoryAt(child, dirs[1..][..m - 1])
    ensures if FirstNamed(node.children, dirs[0]) < |node.children| then
              DirectoryAt(node, dirs[..m]) == DirectoryAt(entered, dirs[1..][..m - 1])
            else
              && DirectoryAt(node, dirs[..m]) == None && entered == Directory(dirs[0], now, 493, [])
              && DirectoryAt(entered, dirs[1..][..m - 1]) == if m == 1 then Some(entered) else None
  {
    hide Unique;
    var children := WithDirectory(node.children, dirs[0], now);
    var k := FirstNamed(children, dirs[0]);
    entered := children[k];
    child := MergeAt(entered, dirs[1..], name, incoming, now).0;
    EnteredChild(node, dirs[0], now);
    EnteredIsUnique(node, dirs[0], now);
    MergeKeepsName(entered, dirs[1..], name, incoming, now);
    ReplacedIsFirst(children, k, child);
    assert dirs[..m][1..] == dirs[1..][..m - 1] && dirs[..m][0] == dirs[0];
    if k == |node.children| {
      EmptyDirectoryIsNavigable(entered, dirs[1..]);
      NoEmptyWay(entered, dirs[1..][..m - 1]);
    }
  }

  lemma ReplacedIsFirst(children: seq<Node>, k: nat, child: Node)
    requires k < |children| && child.name == children[k].name && FirstNamed(children, child.name) == k
    ensures FirstNamed(children[k := child], child.name) == k
  {
    var r := children[k := child];
    assert r[k].name == child.name;
    assert forall i :: 0 <= i < k ==> r[i] == children[i];
  }
}
