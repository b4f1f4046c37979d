// A recursive file tree with the directory operations the upgrade engine uses.
module FileTree {
  import opened Wrappers

  datatype Node = File(data: string) | Dir(entries: map<string, Node>)

  type Path = seq<string>

  const EMPTY_DIR := Dir(map[])

  function Child(node: Node, name: string): Option<Node> {
    if node.Dir? && name in node.entries then Some(node.entries[name]) else None
  }

  function Lookup(root: Node, path: Path): Option<Node>
    decreases |path|
  {
    if path == [] then Some(root)
    else
      var child := Child(root, path[0]);
      if child.None? then None else Lookup(child.value, path[1..])
  }

  // `node` put at `path`; missing directories on the way are created.
  function Put(root: Node, path: Path, node: Node): Node
    decreases |path|
  {
    if path == [] then node
    else
      var entries := if root.Dir? then root.entries else map[];
      Dir(entries[path[0] := Put(Child(root, path[0]).GetOr(EMPTY_DIR), path[1..], node)])
  }

  // remove_dir_all, or the source side of a rename.
  function Without(root: Node, path: Path): Node
    requires path != []
    decreases |path|
  {
    var child := Child(root, path[0]);
    if child.None? then root
    else if |path| == 1 then Dir(root.entries - {path[0]})
    else Dir(root.entries[path[0] := Without(child.value, path[1..])])
  }

  // create_dir_all fails on a file in the way.
  predicate CanCreateDir(root: Node, path: Path)
    decreases |path|
  {
    root.Dir? && (path == [] || Child(root, path[0]).None? || CanCreateDir(root.entries[path[0]], path[1..]))
  }

  function WithDir(root: Node, path: Path): Node {
    if Lookup(root, path).Some? then root else Put(root, path, EMPTY_DIR)
  }

  predicate Unrelated(p: Path, q: Path) {
    !(p <= q) && !(q <= p)
  }

  lemma {:induction false} LookupPutSame(root: Node, path: Path, node: Node)
    ensures Lookup(Put(root, path, node), path) == Some(node)
    decreases |path|
  {
    if path == [] {
    } else {
      LookupPutSame(Child(root, path[0]).GetOr(EMPTY_DIR), path[1..], node);
    }
  }

  lemma {:induction false} LookupPutElsewhere(root: Node, path: Path, node: Node, q: Path)
    requires Unrelated(path, q)
    ensures Lookup(Put(root, path, node), q) == Lookup(root, q)
    decreases |path|
  {
    if path[0] != q[0] {
    } else {
      var below := Child(root, path[0]).GetOr(EMPTY_DIR);
      assert Unrelated(path[1..], q[1..]) by {
        assert path == [path[0]] + path[1..] && q == [q[0]] + q[1..];
      }
      LookupPutElsewhere(below, path[1..], node, q[1..]);
      assert Lookup(EMPTY_DIR, q[1..]) == None;
    }
  }

  lemma {:induction false} LookupWithoutSame(root: Node, path: Path)
    requires path != []
    ensures Lookup(Without(root, path), path) == None
    decreases |path|
  {
    var child := Child(root, path[0]);
    if child.None? || |path| == 1 {
    } else {
      LookupWithoutSame(child.value, path[1..]);
    }
  }

  lemma {:induction false} LookupWithoutElsewhere(root: Node, path: Path, q: Path)
    requires Unrelated(path, q)
    ensures Lookup(Without(root, path), q) == Lookup(root, q)
    decreases |path|
  {
    var child := Child(root, path[0]);
    if child.None? || path[0] != q[0] {
    } else {
      assert Unrelated(path[1..], q[1..]) by {
        assert path == [path[0]] + path[1..] && q == [q[0]] + q[1..];
      }
      LookupWithoutElsewhere(child.value, path[1..], q[1..]);
    }
  }

  lemma {:induction false} WithoutNothing(root: Node, path: Path)
    requires path != [] && Lookup(root, path) == None
    ensures Without(root, path) == root
    decreases |path|
  {
    var child := Child(root, path[0]);
    if child.None? || |path| == 1 {
    } else {
      WithoutNothing(child.value, path[1..]);
    }
  }

  lemma {:induction false} LookupBelow(root: Node, path: Path, rest: Path)
    requires Lookup(root, path).Some?
    ensures Lookup(root, path + rest) == Lookup(Lookup(root, path).value, rest)
    decreases |path|
  {
    if path == [] {
      assert path + rest == rest;
    } else {
      assert (path + rest)[1..] == path[1..] + rest;
      LookupBelow(Child(root, path[0]).value, path[1..], rest);
    }
  }

  // Once a path is cleared its directory can be created there, if something was there or it could
  // have been created before.
  lemma {:induction false} ClearedPathIsCreatable(root: Node, path: Path)
    requires path != [] && (Lookup(root, path).Some? || CanCreateDir(root, path))
    ensures CanCreateDir(Without(root, path), path)
    decreases |path|
  {
    var child := Child(root, path[0]);
    if |path| == 1 || child.None? {
    } else {
      ClearedPathIsCreatable(child.value, path[1..]);
    }
  }

  // Removing an entry leaves the directory that held it.
  lemma {:induction false} ParentStays(root: Node, parent: Path, name: string)
    requires Lookup(root, parent + [name]).Some?
    ensures Lookup(Without(root, parent + [name]), parent).Some?
    ensures Lookup(Without(root, parent + [name]), parent).value.Dir?
    decreases |parent|
  {
    if parent == [] {
    } else {
      assert (parent + [name])[1..] == parent[1..] + [name];
      ParentStays(Child(root, parent[0]).value, parent[1..], name);
    }
  }

  // A directory can be created exactly when no file lies on the way.
  lemma {:induction false} CanCreateDirIff(root: Node, path: Path)
    ensures CanCreateDir(root, path)
       <==> forall n: nat | n <= |path| && Lookup(root, path[..n]).Some? :: Lookup(root, path[..n]).value.Dir?
    decreases |path|
  {
    if path == [] {
      assert path[..0] == [];
    } else {
      assert Lookup(root, path[..0]) == Some(root);
      forall n: nat | 0 < n <= |path|
        ensures Lookup(root, path[..n])
             == if Child(root, path[0]).None? then None else Lookup(Child(root, path[0]).value, path[1..][..n - 1])
      {
        assert path[..n][1..] == path[1..][..n - 1];
      }
      if Child(root, path[0]).Some? {
        var child := Child(root, path[0]).value;
        CanCreateDirIff(child, path[1..]);
        if CanCreateDir(root, path) {
        } else if root.Dir? {
          var n: nat :| n <= |path[1..]| && Lookup(child, path[1..][..n]).Some?
                        && !Lookup(child, path[1..][..n]).value.Dir?;
          assert path[..n + 1][1..] == path[1..][..n];
        }
      }
    }
  }

  // ------------------------------------------------------------ recursive copy

  // What a destination holds after `tree` was copied over it: files replace files, directories
  // are merged, and what only the destination had stays.
  function Overlay(below: Option<Node>, tree: Node): Node
    decreases tree, 1
  {
    match tree
    case File(_) => tree
    case Dir(entries) =>
      Dir(OverlayEntries(if below.Some? && below.value.Dir? then below.value.entries else map[], tree, entries.Keys))
  }

  // The same for a directory of which only the entries in `done` have been copied.
  function OverlayEntries(base: map<string, Node>, tree: Node, done: set<string>): map<string, Node>
    requires tree.Dir? && done <= tree.entries.Keys
    decreases tree, 0
  {
    map name | name in base.Keys + done ::
      if name in done then Overlay(Under(base, name), tree.entries[name])
      else base[name]
  }

  // No directory is to be written over a file, nor a file over a directory.
  predicate Copyable(below: Option<Node>, tree: Node)
    decreases tree
  {
    below.None? ||
    match tree
    case File(_) => below.value.File?
    case Dir(entries) =>
      below.value.Dir? &&
      forall name | name in entries && name in below.value.entries ::
        Copyable(Some(below.value.entries[name]), entries[name])
  }

  function Under(base: map<string, Node>, name: string): Option<Node> {
    if name in base then Some(base[name]) else None
  }

  // Halfway through a directory: what is written, and that nothing copied so far clashed.
  ghost predicate CopiedSoFar(base: map<string, Node>, tree: Node, done: set<string>, written: map<string, Node>)
    requires tree.Dir?
  {
    && done <= tree.entries.Keys
    && written == OverlayEntries(base, tree, done)
    && forall name | name in done :: Copyable(Under(base, name), tree.entries[name])
  }

  lemma NothingCopiedYet(base: map<string, Node>, tree: Node)
    requires tree.Dir?
    ensures CopiedSoFar(base, tree, {}, base)
  {
  }

  lemma OneMoreCopied(
    base: map<string, Node>, tree: Node, done: set<string>, written: map<string, Node>, name: string)
    requires tree.Dir? && CopiedSoFar(base, tree, done, written)
    requires name in tree.entries && Copyable(Under(base, name), tree.entries[name])
    ensures CopiedSoFar(base, tree, done + {name}, written[name := Overlay(Under(base, name), tree.entries[name])])
  {
  }

  lemma AllCopied(dst: Option<Node>, tree: Node, written: map<string, Node>)
    requires tree.Dir? && (dst.Some? ==> dst.value.Dir?)
    requires CopiedSoFar(if dst.Some? then dst.value.entries else map[], tree, tree.entries.Keys, written)
    ensures Copyable(dst, tree) && Dir(written) == Overlay(dst, tree)
  {
    if dst.Some? {
      forall name | name in tree.entries && name in dst.value.entries
        ensures Copyable(Some(dst.value.entries[name]), tree.entries[name])
      {
        assert name in tree.entries.Keys && Copyable(Under(dst.value.entries, name), tree.entries[name]);
      }
    }
  }

  lemma ClashPreventsCopy(dst: Option<Node>, tree: Node, name: string)
    requires tree.Dir? && name in tree.entries && (dst.Some? ==> dst.value.Dir?)
    requires !Copyable(Under(if dst.Some? then dst.value.entries else map[], name), tree.entries[name])
    ensures !Copyable(dst, tree)
  {
  }

  // copy_dir_recursive: create the directory, then copy entry by entry in whatever order the
  // directory is read.
  method CopyDirRecursive(src: Node, dst: Option<Node>) returns (copied: Option<Node>)
    requires src.Dir?
    ensures copied == if Copyable(dst, src) then Some(Overlay(dst, src)) else None
    decreases src, 0
  {
    if dst.Some? && dst.value.File? {
      return None;
    }
    var base := if dst.Some? then dst.value.entries else map[];
    var written, unread := base, src.entries.Keys;
    ghost var done: set<string> := {};
    NothingCopiedYet(base, src);
    while unread != {}
      invariant done + unread == src.entries.Keys && CopiedSoFar(base, src, done, written)
      decreases unread
    {
      var name :| name in unread;
      var entry := CopyEntry(src.entries[name], Under(base, name));
      if entry.None? {
        ClashPreventsCopy(dst, src, name);
        return None;
      }
      OneMoreCopied(base, src, done, written, name);
      written := written[name := entry.value];
      done, unread := done + {name}, unread - {name};
    }
    AllCopied(dst, src, written);
    return Some(Dir(written));
  }

  method CopyEntry(entry: Node, target: Option<Node>) returns (copied: Option<Node>)
    ensures copied == if Copyable(target, entry) then Some(Overlay(target, entry)) else None
    decreases entry, 1
  {
    if entry.Dir? {
      copied := CopyDirRecursive(entry, target);
    } else {
      copied := if target.Some? && target.value.Dir? then None else Some(entry);
    }
  }

  lemma {:induction false} OverlayOnNothing(tree: Node)
    ensures Overlay(None, tree) == tree
    ensures tree.Dir? ==> Overlay(Some(EMPTY_DIR), tree) == tree
    decreases tree
  {
    if tree.File? {
    } else {
      forall name | name in tree.entries ensures Overlay(None, tree.entries[name]) == tree.entries[name] {
        OverlayOnNothing(tree.entries[name]);
      }
    }
  }

  // Every name of `below` is also in `tree`, directory by directory.
  predicate NamesWithin(below: Node, tree: Node) {
    match tree
    case File(_) => true
    case Dir(entries) =>
      below.Dir? ==>
        forall name | name in below.entries ::
          name in entries && NamesWithin(below.entries[name], entries[name])
  }

  // A copy over an existing destination is faithful exactly when the destination holds no name
  // that the source lacks.
  lemma {:induction false} OverlayIsSourceIff(below: Node, tree: Node)
    requires Copyable(Some(below), tree)
    ensures Overlay(Some(below), tree) == tree <==> NamesWithin(below, tree)
    decreases tree
  {
    if tree.File? {
    } else {
      var merged := Overlay(Some(below), tree);
      assert merged.entries == OverlayEntries(below.entries, tree, tree.entries.Keys);
      forall name | name in below.entries && name in tree.entries
        ensures merged.entries[name] == tree.entries[name] <==> NamesWithin(below.entries[name], tree.entries[name])
      {
        OverlayIsSourceIff(below.entries[name], tree.entries[name]);
      }
      forall name | name in tree.entries && name !in below.entries
        ensures merged.entries[name] == tree.entries[name]
      {
        OverlayOnNothing(tree.entries[name]);
      }
      if NamesWithin(below, tree) {
        assert merged.entries == tree.entries;
      }
    }
  }

  // What stands at each path of a copy: a file of the source as it is, a directory where the source has
  // one, and elsewhere what the destination had.
  lemma {:induction false} OverlayReads(below: Option<Node>, tree: Node, path: Path)
    requires Copyable(below, tree)
    ensures var copied := Lookup(Overlay(below, tree), path);
            match Lookup(tree, path)
            case Some(File(data)) => copied == Some(File(data))
            case Some(Dir(_)) => copied.Some? && copied.value.Dir?
            case None => copied == if below.None? then None else Lookup(below.value, path)
    decreases |path|
  {
    if path == [] || tree.File? {
    } else {
      var base := if below.Some? then below.value.entries else map[];
      if path[0] in tree.entries {
        OverlayReads(Under(base, path[0]), tree.entries[path[0]], path[1..]);
      }
    }
  }

  // No path holds a file on one side and a directory on the other.
  ghost predicate SameKinds(below: Node, tree: Node) {
    forall path | Lookup(below, path).Some? && Lookup(tree, path).Some? ::
      Lookup(below, path).value.Dir? <==> Lookup(tree, path).value.Dir?
  }

  lemma SameKindsBelow(below: Node, tree: Node, name: string)
    requires Child(below, name).Some? && Child(tree, name).Some? && SameKinds(below, tree)
    ensures SameKinds(Child(below, name).value, Child(tree, name).value)
  {
    forall path ensures Lookup(below, [name] + path) == Lookup(Child(below, name).value, path)
                ensures Lookup(tree, [name] + path) == Lookup(Child(tree, name).value, path)
    {
      assert ([name] + path)[1..] == path;
    }
  }

  // That is exactly when a copy can be made.
  lemma {:induction false} CopyableIff(below: Node, tree: Node)
    ensures Copyable(Some(below), tree) <==> SameKinds(below, tree)
    decreases tree
  {
    assert Lookup(below, []) == Some(below) && Lookup(tree, []) == Some(tree);
    if tree.Dir? && below.Dir? {
      forall name | name in tree.entries && name in below.entries
        ensures Copyable(Some(below.entries[name]), tree.entries[name])
           <==> SameKinds(below.entries[name], tree.entries[name])
        ensures SameKinds(below, tree) ==> SameKinds(below.entries[name], tree.entries[name])
      {
        CopyableIff(below.entries[name], tree.entries[name]);
        if SameKinds(below, tree) {
          SameKindsBelow(below, tree, name);
        }
      }
      if Copyable(Some(below), tree) {
        forall path | Lookup(below, path).Some? && Lookup(tree, path).Some?
          ensures Lookup(below, path).value.Dir? <==> Lookup(tree, path).value.Dir?
        {
          if path != [] {
            assert SameKinds(below.entries[path[0]], tree.entries[path[0]]);
          }
        }
      }
    }
  }
}
