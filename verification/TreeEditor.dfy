/**
 The editing of a snapshot tree during incremental backup (crates/core/src/watcher.rs), step by
 step, proved against the functions of SnapshotTree.
 */
module TreeEditor {
  import opened Wrappers
  import opened SnapshotTree

  /** Keep the children that are not called `name`. */
  method Retain(children: seq<Node>, name: string) returns (kept: seq<Node>)
    ensures kept == Without(children, name)
  {
    kept := [];
    for k := 0 to |children|
      invariant Without(children, name) == kept + Without(children[k..], name)
    {
      assert children[k..][1..] == children[k + 1..];
      if children[k].name != name {
        assert kept + ([children[k]] + Without(children[k + 1..], name)) ==
               kept + [children[k]] + Without(children[k + 1..], name);
        kept := kept + [children[k]];
      }
    }
    assert Without(children[|children|..], name) == [];
  }

  method AnyDirectory(children: seq<Node>, name: string) returns (found: bool)
    ensures found == HasDirectory(children, name)
  {
    found := false;
    for k := 0 to |children|
      invariant found == HasDirectory(children[..k], name)
    {
      assert children[..k + 1] == children[..k] + [children[k]];
      if children[k].name == name && children[k].Directory? {
        assert children[k] in children[..k + 1];
        found := true;
      }
    }
    assert children[..|children|] == children;
  }

  /** The position of the first child called `name`. */
  method Locate(children: seq<Node>, name: string) returns (k: nat)
    ensures k == FirstNamed(children, name)
  {
    k := 0;
    while k < |children| && children[k].name != name
      invariant k <= |children|
      invariant FirstNamed(children, name) == k + FirstNamed(children[k..], name)
    {
      assert children[k..][1..] == children[k + 1..];
      k := k + 1;
    }
  }

  /** Walk down `dirs`, creating directories that are missing; at the end replace or append the child. */
  method MergeInto(node: Node, dirs: Path, name: string, incoming: Node, now: int)
    returns (node': Node, r: Result<(), TreeError>)
    ensures (node', r) == MergeAt(node, dirs, name, incoming, now)
    decreases |dirs|
  {
    hide Without, FirstNamed, HasDirectory;
    if !node.Directory? {
      return node, Err(NotADirectory);
    }
    if |dirs| == 0 {
      var kept := Retain(node.children, name);
      return node.(children := kept + [incoming]), Ok(());
    }
    var children := node.children;
    var childExists := AnyDirectory(children, dirs[0]);
    if !childExists {
      children := children + [Directory(dirs[0], now, DIRECTORY_MODE, [])];
    }
    assert children == WithDirectory(node.children, dirs[0], now);
    var k := Locate(children, dirs[0]);
    var child: Node;
    child, r := MergeInto(children[k], dirs[1..], name, incoming, now);
    node' := node.(children := children[k := child]);
  }

  method RemoveFrom(node: Node, dirs: Path, name: string) returns (node': Node, removed: bool)
    ensures (node', removed) == RemoveAt(node, dirs, name)
    decreases |dirs|
  {
    hide Without, FirstNamed;
    if !node.Directory? {
      return node, false;
    }
    if |dirs| == 0 {
      var kept := Retain(node.children, name);
      return node.(children := kept), |kept| < |node.children|;
    }
    var k := Locate(node.children, dirs[0]);
    if k == |node.children| {
      return node, false;
    }
    var child: Node;
    child, removed := RemoveFrom(node.children[k], dirs[1..], name);
    node' := node.(children := node.children[k := child]);
  }

  /** The tree that an incremental backup edits. */
  class Editor {
    var root: Node

    constructor (root: Node)
      ensures this.root == root
    {
      this.root := root;
    }

    method MergeFile(path: Path, incoming: Node, now: int) returns (r: Result<(), TreeError>)
      modifies this
      ensures (root, r) == Merge(old(root), path, incoming, now)
    {
      if |path| == 0 {
        return Err(EmptyPath);
      }
      var edited: Node;
      edited, r := MergeInto(root, path[..|path| - 1], path[|path| - 1], incoming, now);
      root := edited;
    }

    method RemoveFile(path: Path) returns (r: Result<bool, TreeError>)
      modifies this
      ensures (root, r) == Remove(old(root), path)
    {
      if |path| == 0 {
        return Err(EmptyPath);
      }
      var edited: Node;
      var removed: bool;
      edited, removed := RemoveFrom(root, path[..|path| - 1], path[|path| - 1]);
      root := edited;
      r := Ok(removed);
    }
  }
}
