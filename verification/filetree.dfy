/** File trees as values: lookup, replacement of a subtree, and what a path shows. */
module FileTree {
  import opened Paths
  import opened Selection

  /** `meta` stands for owner, mode and times, `data` for the bytes of a file. */
  datatype Node =
    | Regular(size: nat, data: int)
    | Link(target: string)
    | Special
    | Dir(meta: int, entries: map<string, Node>)

  /** A node without what lies below it. */
  datatype Label =
    | RegularLabel(size: nat, data: int)
    | LinkLabel(target: string)
    | SpecialLabel
    | DirLabel(meta: int)

  function LabelOf(node: Node): Label {
    match node
    case Regular(size, data) => RegularLabel(size, data)
    case Link(target) => LinkLabel(target)
    case Special => SpecialLabel
    case Dir(meta, _) => DirLabel(meta)
  }

  /** Lookup that follows no links. */
  function At(tree: Node, path: Path): Option<Node> {
    if path == [] then Some(tree)
    else if tree.Dir? && path[0] in tree.entries then At(tree.entries[path[0]], path[1..])
    else None
  }

  predicate Exists(tree: Node, path: Path) {
    At(tree, path).Some?
  }

  predicate IsDir(tree: Node, path: Path) {
    At(tree, path).Some? && At(tree, path).value.Dir?
  }

  function LabelAt(tree: Node, path: Path): Option<Label> {
    var node := At(tree, path);
    if node.Some? then Some(LabelOf(node.value)) else None
  }

  function OptionalLabelAt(node: Option<Node>, path: Path): Option<Label> {
    if node.Some? then LabelAt(node.value, path) else None
  }

  /** The tree with the subtree at a path replaced, added or removed. */
  function Graft(tree: Node, path: Path, node: Option<Node>): Node
    requires path != [] && IsDir(tree, path[..|path| - 1])
  {
    var name := path[0];
    if |path| == 1 then
      assert path[..0] == [];
      Dir(tree.meta, if node.Some? then tree.entries[name := node.value] else tree.entries - {name})
    else
      assert path[..|path| - 1][1..] == path[1..][..|path| - 2];
      Dir(tree.meta, tree.entries[name := Graft(tree.entries[name], path[1..], node)])
  }

  lemma AtChild(tree: Node, name: string)
    ensures At(tree, [name]) == if tree.Dir? && name in tree.entries then Some(tree.entries[name]) else None
  {
    assert [name][1..] == [];
    if tree.Dir? && name in tree.entries {
      assert At(tree.entries[name], []) == Some(tree.entries[name]);
    }
  }

  lemma {:induction false} AtConcat(tree: Node, path: Path, below: Path)
    ensures At(tree, path + below) == if Exists(tree, path) then At(At(tree, path).value, below) else None
  {
    if path == [] {
      assert path + below == below;
    } else if tree.Dir? && path[0] in tree.entries {
      assert (path + below)[1..] == path[1..] + below;
      AtConcat(tree.entries[path[0]], path[1..], below);
    }
  }

  /** Everything above an existing node is a directory. */
  lemma AboveExistingIsDir(tree: Node, path: Path, below: Path)
    requires Exists(tree, path + below) && below != []
    ensures IsDir(tree, path)
  {
    AtConcat(tree, path, below);
  }

  /** A graft changes exactly what lies at or below its path. */
  lemma {:induction false} GraftLabel(tree: Node, path: Path, node: Option<Node>, q: Path)
    requires path != [] && IsDir(tree, path[..|path| - 1])
    ensures LabelAt(Graft(tree, path, node), q) ==
            if path <= q then OptionalLabelAt(node, q[|path|..]) else LabelAt(tree, q)
  {
    var name := path[0];
    if |path| == 1 {
      assert path[..0] == [];
      if q != [] {
        assert path <= q <==> q[0] == name by { assert path == [name]; }
      }
    } else {
      assert path[..|path| - 1][1..] == path[1..][..|path| - 2];
      if q != [] && q[0] == name {
        GraftLabel(tree.entries[name], path[1..], node, q[1..]);
        assert path <= q <==> path[1..] <= q[1..] by {
          assert path == [name] + path[1..] && q == [name] + q[1..];
        }
        if path <= q { assert q[1..][|path| - 1..] == q[|path|..]; }
      }
    }
  }

  lemma {:induction false} GraftAt(tree: Node, path: Path, node: Option<Node>)
    requires path != [] && IsDir(tree, path[..|path| - 1])
    ensures At(Graft(tree, path, node), path) == node
  {
    if |path| == 1 {
      assert path[..0] == [];
    } else {
      assert path[..|path| - 1][1..] == path[1..][..|path| - 2];
      GraftAt(tree.entries[path[0]], path[1..], node);
    }
  }

  /** Two trees that show the same label at every path are the same tree. */
  lemma {:induction false} LabelsDetermineTree(a: Node, b: Node)
    requires forall path: Path :: LabelAt(a, path) == LabelAt(b, path)
    ensures a == b
    decreases a
  {
    assert LabelAt(a, []) == LabelAt(b, []);
    if a.Dir? {
      forall name ensures name in a.entries <==> name in b.entries {
        AtChild(a, name);
        AtChild(b, name);
        assert LabelAt(a, [name]) == LabelAt(b, [name]);
      }
      forall name | name in a.entries ensures a.entries[name] == b.entries[name] {
        forall path: Path ensures LabelAt(a.entries[name], path) == LabelAt(b.entries[name], path) {
          assert ([name] + path)[1..] == path;
          assert LabelAt(a, [name] + path) == LabelAt(b, [name] + path);
        }
        LabelsDetermineTree(a.entries[name], b.entries[name]);
      }
      assert a.entries == b.entries;
    }
  }

  lemma PrefixOfExisting(live: Node, path: Path, k: nat)
    requires k <= |path| && Exists(live, path)
    ensures Exists(live, path[..k])
    ensures k < |path| ==> IsDir(live, path[..k])
  {
    assert path == path[..k] + path[k..];
    AtConcat(live, path[..k], path[k..]);
  }

  // ---------------------------------------------------------------------------------------
  // Updating an existing node in place
  // ---------------------------------------------------------------------------------------

  function Replace(tree: Node, path: Path, node: Node): Node
    requires Exists(tree, path)
  {
    if path == [] then node
    else Dir(tree.meta, tree.entries[path[0] := Replace(tree.entries[path[0]], path[1..], node)])
  }

  function With(dir: Node, name: string, node: Node): Node
    requires dir.Dir?
  {
    Dir(dir.meta, dir.entries[name := node])
  }

  function Without(dir: Node, name: string): Node
    requires dir.Dir?
  {
    Dir(dir.meta, dir.entries - {name})
  }

  lemma {:induction false} ReplaceAt(tree: Node, path: Path, node: Node)
    requires Exists(tree, path)
    ensures At(Replace(tree, path, node), path) == Some(node)
  {
    if path != [] { ReplaceAt(tree.entries[path[0]], path[1..], node); }
  }

  lemma {:induction false} ReplaceSame(tree: Node, path: Path)
    requires Exists(tree, path)
    ensures Replace(tree, path, At(tree, path).value) == tree
  {
    if path != [] {
      ReplaceSame(tree.entries[path[0]], path[1..]);
      assert tree.entries[path[0] := tree.entries[path[0]]] == tree.entries;
    }
  }

  lemma {:induction false} ReplaceTwice(tree: Node, path: Path, first: Node, second: Node)
    requires Exists(tree, path)
    ensures Exists(Replace(tree, path, first), path)
    ensures Replace(Replace(tree, path, first), path, second) == Replace(tree, path, second)
  {
    ReplaceAt(tree, path, first);
    if path != [] {
      ReplaceTwice(tree.entries[path[0]], path[1..], first, second);
      var name := path[0];
      var a, b := Replace(tree.entries[name], path[1..], first), Replace(tree.entries[name], path[1..], second);
      assert tree.entries[name := a][name := b] == tree.entries[name := b];
    }
  }

  /** Replacing a child is replacing its directory by one with that child exchanged. */
  lemma {:induction false} ReplaceChild(tree: Node, path: Path, name: string, node: Node)
    requires IsDir(tree, path) && name in At(tree, path).value.entries
    ensures At(tree, path + [name]) == Some(At(tree, path).value.entries[name])
    ensures Replace(tree, path + [name], node) == Replace(tree, path, With(At(tree, path).value, name, node))
  {
    AtConcat(tree, path, [name]);
    AtChild(At(tree, path).value, name);
    if path == [] {
      assert path + [name] == [name] && [name][1..] == [];
    } else {
      assert (path + [name])[1..] == path[1..] + [name] && (path + [name])[0] == path[0];
      ReplaceChild(tree.entries[path[0]], path[1..], name, node);
    }
  }

  // ---------------------------------------------------------------------------------------
  // Enumerating a tree
  // ---------------------------------------------------------------------------------------

  function NodePaths(tree: Node): set<Path>
    decreases tree
  {
    {[]} +
    if tree.Dir?
    then set name, below | name in tree.entries && below in NodePaths(tree.entries[name]) :: [name] + below
           else {}
  }

  lemma {:induction false} NodePathsExist(tree: Node, path: Path)
    ensures path in NodePaths(tree) <==> Exists(tree, path)
  {
    if path != [] {
      assert path == [path[0]] + path[1..];
      if tree.Dir? && path[0] in tree.entries {
        NodePathsExist(tree.entries[path[0]], path[1..]);
      }
      if path in NodePaths(tree) {
        assert tree.Dir?;
        var name, below :| name in tree.entries && below in NodePaths(tree.entries[name]) && [name] + below == path;
        assert name == path[0] && below == path[1..];
      }
    }
  }

  /** Every entry name in the tree is one that a directory can hold. */
  predicate WellNamed(tree: Node)
    decreases tree
  {
    tree.Dir? ==> forall name :: name in tree.entries ==> ValidName(name) && WellNamed(tree.entries[name])
  }

  lemma {:induction false} WellNamedPath(tree: Node, path: Path)
    requires WellNamed(tree) && Exists(tree, path)
    ensures NormalComponents(path)
  {
    if path != [] {
      WellNamedPath(tree.entries[path[0]], path[1..]);
    }
  }

  // ---------------------------------------------------------------------------------------
  // Creating directories
  // ---------------------------------------------------------------------------------------

  /** Owner, mode and times of a newly created directory. */
  const NEW_DIRECTORY: int := 0

  /** The tree with every missing directory on the path created; `None` if something on the path is no
      directory. Links are not followed. */
  function MakeDirs(tree: Node, path: Path): Option<Node>
    decreases |path|
  {
    if path == [] then (if tree.Dir? then Some(tree) else None)
    else if !tree.Dir? then None
    else
      var child := if path[0] in tree.entries then tree.entries[path[0]] else Dir(NEW_DIRECTORY, map[]);
      var made := MakeDirs(child, path[1..]);
      if made.None? then None else Some(Dir(tree.meta, tree.entries[path[0] := made.value]))
  }

  /** Only directories on the path are new, and they are empty apart from each other. */
  lemma {:induction false} MakeDirsLabel(tree: Node, path: Path, q: Path)
    requires MakeDirs(tree, path).Some?
    ensures LabelAt(MakeDirs(tree, path).value, q) ==
            if Exists(tree, q) then LabelAt(tree, q)
            else if q <= path then Some(DirLabel(NEW_DIRECTORY)) else None
    decreases |path|
  {
    if path != [] && q != [] && q[0] == path[0] {
      var missing := Dir(NEW_DIRECTORY, map[]);
      var child := if path[0] in tree.entries then tree.entries[path[0]] else missing;
      MakeDirsLabel(child, path[1..], q[1..]);
      assert q == [q[0]] + q[1..] && path == [path[0]] + path[1..];
      assert q <= path <==> q[1..] <= path[1..];
      if path[0] !in tree.entries && q[1..] != [] {
        assert !Exists(missing, q[1..]);
      }
    }
  }

  lemma {:induction false} MakeDirsWhen(tree: Node, path: Path)
    ensures MakeDirs(tree, path).Some? <==>
            forall j :: 0 <= j <= |path| && Exists(tree, path[..j]) ==> IsDir(tree, path[..j])
    decreases |path|
  {
    assert path[..0] == [] && At(tree, []) == Some(tree);
    if path != [] && tree.Dir? {
      var child := if path[0] in tree.entries then tree.entries[path[0]] else Dir(NEW_DIRECTORY, map[]);
      var below := path[1..];
      MakeDirsWhen(child, below);
      forall j | 0 <= j <= |below|
        ensures path[..j + 1][1..] == below[..j] && path[..j + 1][0] == path[0]
        ensures path[0] in tree.entries ==> At(tree, path[..j + 1]) == At(child, below[..j])
        ensures path[0] !in tree.entries ==> !Exists(tree, path[..j + 1])
        ensures path[0] !in tree.entries && Exists(child, below[..j]) ==> IsDir(child, below[..j])
      {
        assert path[..j + 1][1..] == below[..j];
      }
      if path[0] in tree.entries {
        forall j | 0 < j <= |path| ensures At(tree, path[..j]) == At(child, below[..j - 1]) {
          assert path[..j - 1 + 1] == path[..j];
        }
        forall j | 0 <= j <= |below| ensures At(child, below[..j]) == At(tree, path[..j + 1]) {}
      } else {
        forall j | 0 < j <= |path| ensures !Exists(tree, path[..j]) {
          assert path[..j - 1 + 1] == path[..j];
        }
      }
    }
  }

  /** One more component of a path whose beginning has been created. */
  lemma CreateNext(live0: Node, live1: Node, path: Path, k: nat)
    requires k < |path| && live0.Dir? && MakeDirs(live0, path[..k]) == Some(live1)
    ensures var next := path[..k + 1];
            && IsDir(live1, next[..|next| - 1])
            && (MakeDirs(live0, next) == None <==> Exists(live1, next) && !IsDir(live1, next))
            && (MakeDirs(live0, next) == None ==> MakeDirs(live0, path) == None)
            && (IsDir(live1, next) ==> MakeDirs(live0, next) == Some(live1))
            && (!Exists(live1, next) ==>
                  MakeDirs(live0, next) == Some(Graft(live1, next, Some(Dir(NEW_DIRECTORY, map[])))))
  {
    var here, next := path[..k], path[..k + 1];
    assert next[..k] == here && here[..k] == here && next[..k + 1] == next;
    MakeDirsWhen(live0, here);
    MakeDirsWhen(live0, next);
    MakeDirsWhen(live0, path);
    MakeDirsLabel(live0, here, here);
    MakeDirsLabel(live0, here, next);
    assert LabelAt(live1, next) == LabelAt(live0, next);
    forall j | 0 <= j <= k ensures next[..j] == here[..j] {}
    if MakeDirs(live0, next).Some? {
      var made := MakeDirs(live0, next).value;
      var empty := Dir(NEW_DIRECTORY, map[]);
      forall q ensures LabelAt(made, q) ==
                       if Exists(live1, next) then LabelAt(live1, q) else LabelAt(Graft(live1, next, Some(empty)), q)
      {
        MakeDirsLabel(live0, here, q);
        MakeDirsLabel(live0, next, q);
        PrefixOfNext(path, k, q);
        if !Exists(live1, next) { GraftLabel(live1, next, Some(empty), q); }
        if next < q && Exists(live0, q) { assert q[..k + 1] == next; PrefixOfExisting(live0, q, k + 1); }
      }
      LabelsDetermineTree(made, if Exists(live1, next) then live1 else Graft(live1, next, Some(empty)));
    }
  }

  lemma PrefixOfNext(path: Path, k: nat, q: Path)
    requires k < |path|
    ensures q <= path[..k + 1] <==> q <= path[..k] || q == path[..k + 1]
  {
    var here, next := path[..k], path[..k + 1];
    if q <= next && |q| <= k { assert q == next[..|q|] == here[..|q|]; }
    if q <= here { assert q == here[..|q|] == next[..|q|]; }
  }

  /** What lies elsewhere stays as it is. */
  lemma {:induction false} MakeDirsAt(tree: Node, path: Path, q: Path)
    requires MakeDirs(tree, path).Some? && !Overlap(q, path)
    ensures At(MakeDirs(tree, path).value, q) == At(tree, q)
    decreases |path|
  {
    if q[0] == path[0] {
      var child := if path[0] in tree.entries then tree.entries[path[0]] else Dir(NEW_DIRECTORY, map[]);
      assert q == [q[0]] + q[1..] && path == [path[0]] + path[1..];
      MakeDirsAt(child, path[1..], q[1..]);
      if path[0] !in tree.entries { assert At(child, q[1..]) == None; }
    }
  }

  /** Some of the directories on the path have been created, from the top. */
  ghost predicate PartlyMade(tree: Node, path: Path, made: Node) {
    exists k :: 0 <= k <= |path| && MakeDirs(tree, path[..k]) == Some(made)
  }

  lemma NothingIsPartlyMade(tree: Node, path: Path)
    requires tree.Dir?
    ensures PartlyMade(tree, path, tree)
  {
    assert path[..0] == [] && MakeDirs(tree, []) == Some(tree);
  }

  lemma AllIsPartlyMade(tree: Node, path: Path, made: Node)
    requires MakeDirs(tree, path) == Some(made)
    ensures PartlyMade(tree, path, made)
  {
    assert path[..|path|] == path;
  }

  lemma PartlyMadeLabel(tree: Node, path: Path, made: Node, q: Path)
    requires PartlyMade(tree, path, made)
    ensures Exists(tree, q) ==> LabelAt(made, q) == LabelAt(tree, q)
    ensures !Exists(tree, q) ==>
              LabelAt(made, q) == None || (q <= path && LabelAt(made, q) == Some(DirLabel(NEW_DIRECTORY)))
  {
    var k :| 0 <= k <= |path| && MakeDirs(tree, path[..k]) == Some(made);
    MakeDirsLabel(tree, path[..k], q);
    if q <= path[..k] { assert q == path[..k][..|q|] == path[..|q|]; }
  }

  /** Creates a directory and its missing ancestors one after the other, following no links. System call
      number `n` fails for reasons outside the tree if `ioFails(n)`. */
  method CreateDirectories(tree: Node, path: Path, ioFails: nat -> bool, calls0: nat)
      returns (ok: bool, made: Node, calls: nat)
    requires tree.Dir?
    ensures made.Dir? && (ok ==> MakeDirs(tree, path) == Some(made))
    ensures !ok ==> PartlyMade(tree, path, made)
    ensures !ok ==> (exists n :: ioFails(n)) || MakeDirs(tree, path) == None
  {
    made, calls := tree, calls0;
    assert path[..0] == [];
    for k := 0 to |path|
      invariant made.Dir? && MakeDirs(tree, path[..k]) == Some(made)
    {
      var next := path[..k + 1];
      CreateNext(tree, made, path, k);
      var failed := ioFails(calls);
      calls := calls + 1;
      if failed || (Exists(made, next) && !IsDir(made, next)) { return false, made, calls; }
      if !Exists(made, next) {
        made := Graft(made, next, Some(Dir(NEW_DIRECTORY, map[])));
        failed := ioFails(calls);
        calls := calls + 1;
        if failed { return false, made, calls; }
      }
    }
    assert path[..|path|] == path;
    return true, made, calls;
  }
}
