/** Comparing an extracted tree with the validated plan before anything is published. */
module Verification {
  import opened Paths
  import opened Selection
  import opened Planning
  import opened FileTree
  import Extraction

  function DescribeNode(node: Node): Entry {
    match node
    case Regular(size, _) => Entry(FileType.File, size, None)
    case Link(target) => Entry(Symlink, 0, Some(target))
    case Special => Entry(Other, 0, None)
    case Dir(_, _) => DirectoryEntry
  }

  function DescribeAt(tree: Node, path: Path): Entry {
    var node := At(tree, path);
    if node.Some? then DescribeNode(node.value) else DirectoryEntry
  }

  /** What the listed paths of a tree show, keyed as archive paths. */
  ghost function EntriesAt(tree: Node, paths: set<Path>): (r: map<string, Entry>)
    ensures r.Keys == set path | path in paths :: Join(path)
  {
    map key | key in (set path | path in paths :: Join(path)) :: DescribeAt(tree, Split(key))
  }

  ghost function ProperPaths(tree: Node): set<Path> {
    set path | path in NodePaths(tree) && path != []
  }

  /** The whole tree as a map from archive path to entry; the root itself is not listed. */
  ghost function TreeEntries(tree: Node): map<string, Entry> {
    EntriesAt(tree, ProperPaths(tree))
  }

  predicate NothingSpecial(entries: map<string, Entry>) {
    forall path :: path in entries ==> !entries[path].kind.IsSpecial()
  }

  ghost predicate FitsLimits(entries: map<string, Entry>, limits: Limits) {
    |entries| <= limits.maxFiles && TotalSize(entries) <= limits.maxBytes
  }

  lemma EntriesAtOne(tree: Node, paths: set<Path>, path: Path)
    requires forall p :: p in paths ==> p != [] && NormalComponents(p)
    requires path !in paths && path != [] && NormalComponents(path) && Exists(tree, path)
    ensures Join(path) !in EntriesAt(tree, paths)
    ensures EntriesAt(tree, paths + {path}) == EntriesAt(tree, paths)[Join(path) := DescribeNode(At(tree, path).value)]
  {
    hide NormalComponents, At;
    SplitNormal(path);
    if Join(path) in EntriesAt(tree, paths) {
      var other :| other in paths && Join(other) == Join(path);
      JoinInjective(other, path);
    }
    var larger := EntriesAt(tree, paths + {path});
    var expected := EntriesAt(tree, paths)[Join(path) := DescribeNode(At(tree, path).value)];
    forall key ensures key in larger <==> key in expected {
      if key == Join(path) { assert path in paths + {path}; }
      if p :| p in paths + {path} && Join(p) == key { assert p == path || p in paths; }
      if p :| p in paths && Join(p) == key { assert p in paths + {path}; }
    }
  }

  lemma SplitNormal(path: Path)
    requires path != [] && NormalComponents(path)
    ensures Split(Join(path)) == path
  {
    SplitJoin(path);
  }

  lemma EntriesAtSubMap(tree: Node, part: set<Path>, whole: set<Path>)
    requires part <= whole
    ensures SubMap(EntriesAt(tree, part), EntriesAt(tree, whole))
  {
    forall key | key in EntriesAt(tree, part) ensures key in EntriesAt(tree, whole) {
      var path :| path in part && Join(path) == key;
      assert path in whole;
    }
  }

  // ---------------------------------------------------------------------------------------
  // The traversal
  // ---------------------------------------------------------------------------------------

  ghost predicate StrictlyAbove(a: Path, b: Path) {
    a < b
  }

  ghost predicate Incomparable(a: Path, b: Path) {
    !(a <= b) && !(b <= a)
  }

  /** Between two directory entries: `seen` are the visited paths; still to come is everything
      strictly below a pending directory, and the subtrees of the entries `rest` of `directory`. */
  ghost predicate Traversing(tree: Node, seen: set<Path>, pending: seq<Path>, directory: Path, rest: set<string>) {
    && (forall p :: p in seen ==> p != [] && Exists(tree, p))
    && (forall i :: 0 <= i < |pending| ==> IsDir(tree, pending[i]))
    && (forall i, j :: 0 <= i < j < |pending| ==> Incomparable(pending[i], pending[j]))
    && (forall name :: name in rest ==> Exists(tree, directory + [name]))
    && (forall i, name :: 0 <= i < |pending| && name in rest ==> Incomparable(pending[i], directory + [name]))
    && (forall p :: Exists(tree, p) && p != [] ==>
          (p in seen <==> !BelowPending(p, pending) && !InRest(p, directory, rest)))
  }

  ghost predicate BelowPending(p: Path, pending: seq<Path>) {
    exists i :: 0 <= i < |pending| && StrictlyAbove(pending[i], p)
  }

  ghost predicate InRest(p: Path, directory: Path, rest: set<string>) {
    |directory| < |p| && directory <= p && p[|directory|] in rest
  }

  lemma StartTraversal(tree: Node)
    requires tree.Dir?
    ensures Traversing(tree, {}, [[]], [], {})
  {
    forall p: Path | p != [] ensures BelowPending(p, [[]]) {
      assert StrictlyAbove([[]][0], p);
    }
  }

  /** Popping a pending directory turns it into its list of entries. */
  lemma OpenDirectory(tree: Node, seen: set<Path>, pending: seq<Path>, closed: Path, names: set<string>)
    requires Traversing(tree, seen, pending, closed, {}) && pending != []
    requires names == At(tree, pending[|pending| - 1]).value.entries.Keys
    ensures Traversing(tree, seen, pending[..|pending| - 1], pending[|pending| - 1], names)
  {
    var directory, others := pending[|pending| - 1], pending[..|pending| - 1];
    forall name ensures Exists(tree, directory + [name]) <==> name in names {
      AtConcat(tree, directory, [name]);
      assert [name][1..] == [];
    }
    forall i, name | 0 <= i < |others| && name in names
      ensures Incomparable(others[i], directory + [name])
    {
      assert Incomparable(pending[i], directory);
      if others[i] <= directory + [name] {
        PrefixesComparable(others[i], directory, directory + [name]);
      }
      assert directory <= directory + [name];
    }
    forall p | Exists(tree, p) && p != []
      ensures BelowPending(p, pending) <==> BelowPending(p, others) || InRest(p, directory, names)
    {
      if i :| 0 <= i < |pending| && StrictlyAbove(pending[i], p) {
        if i < |others| {
          assert StrictlyAbove(others[i], p);
        } else {
          var below := p[|directory|..];
          assert p == directory + below;
          AtConcat(tree, directory, below);
          assert below[0] in names;
        }
      }
      if i :| 0 <= i < |others| && StrictlyAbove(others[i], p) { assert StrictlyAbove(pending[i], p); }
      if InRest(p, directory, names) { assert StrictlyAbove(pending[|others|], p); }
      assert !InRest(p, closed, {});
    }
  }

  lemma VisitEntry(tree: Node, seen: set<Path>, pending: seq<Path>, directory: Path, rest: set<string>, name: string)
    requires Traversing(tree, seen, pending, directory, rest) && name in rest
    ensures var path := directory + [name];
            var grown := if IsDir(tree, path) then pending + [path] else pending;
            path !in seen && Traversing(tree, seen + {path}, grown, directory, rest - {name})
  {
    var path := directory + [name];
    var grown := if IsDir(tree, path) then pending + [path] else pending;
    var fewer := rest - {name};
    assert InRest(path, directory, rest);
    forall other | other in fewer ensures Incomparable(path, directory + [other]) {
      assert path[|directory|] != (directory + [other])[|directory|];
    }
    forall p | Exists(tree, p) && p != []
      ensures p in seen + {path} <==> !BelowPending(p, grown) && !InRest(p, directory, fewer)
    {
      VisitOne(tree, seen, pending, directory, rest, name, p);
    }
  }

  lemma VisitOne(tree: Node, seen: set<Path>, pending: seq<Path>, directory: Path, rest: set<string>, name: string,
                 p: Path)
    requires Traversing(tree, seen, pending, directory, rest) && name in rest
    requires Exists(tree, p) && p != []
    ensures var path := directory + [name];
            var grown := if IsDir(tree, path) then pending + [path] else pending;
            p in seen + {path} <==> !BelowPending(p, grown) && !InRest(p, directory, rest - {name})
  {
    var path := directory + [name];
    var grown := if IsDir(tree, path) then pending + [path] else pending;
    if i :| 0 <= i < |grown| && StrictlyAbove(grown[i], p) {
      if i < |pending| { assert StrictlyAbove(pending[i], p); }
    }
    if i :| 0 <= i < |pending| && StrictlyAbove(pending[i], p) { assert StrictlyAbove(grown[i], p); }
    if path < p {
      assert p == path + p[|path|..];
      AboveExistingIsDir(tree, path, p[|path|..]);
      assert StrictlyAbove(grown[|pending|], p);
    }
    if p == path {
      forall i | 0 <= i < |pending| ensures !StrictlyAbove(pending[i], p) {
        assert Incomparable(pending[i], path);
      }
    }
    assert InRest(p, directory, rest) <==> InRest(p, directory, rest - {name}) || path <= p by {
      if InRest(p, directory, rest) && p[|directory|] == name { assert path == p[..|path|]; }
      if path <= p { assert p[|directory|] == name && directory <= p; }
    }
  }

  /** Nothing is left to visit: every path of the tree has been seen. */
  lemma TraversalDone(tree: Node, seen: set<Path>, directory: Path)
    requires Traversing(tree, seen, [], directory, {})
    ensures seen == ProperPaths(tree)
  {
    forall p ensures p in seen <==> p in ProperPaths(tree) {
      NodePathsExist(tree, p);
      assert !BelowPending(p, []) && !InRest(p, directory, {});
    }
  }

  lemma SeenAreProper(tree: Node, seen: set<Path>, pending: seq<Path>, directory: Path, rest: set<string>)
    requires WellNamed(tree) && Traversing(tree, seen, pending, directory, rest)
    ensures seen <= ProperPaths(tree)
    ensures forall p :: p in seen ==> p != [] && NormalComponents(p)
  {
    forall p | p in seen ensures p in ProperPaths(tree) && NormalComponents(p) {
      NodePathsExist(tree, p);
      WellNamedPath(tree, p);
    }
  }

  /** What holds of the counters after the paths in `seen` have been read. */
  ghost predicate Counted(tree: Node, seen: set<Path>, observed: map<string, Entry>, files: nat, bytes: nat,
                          limits: Limits) {
    && observed == EntriesAt(tree, seen)
    && NothingSpecial(observed)
    && files == |observed| <= limits.maxFiles
    && bytes == TotalSize(observed) <= limits.maxBytes
  }

  lemma CountOne(tree: Node, seen: set<Path>, pending: seq<Path>, directory: Path, rest: set<string>, name: string,
                 observed: map<string, Entry>)
    requires WellNamed(tree) && Traversing(tree, seen, pending, directory, rest) && name in rest
    requires observed == EntriesAt(tree, seen)
    ensures var path := directory + [name];
            && path != [] && path !in seen && Exists(tree, path)
            && Join(path) !in observed
            && observed[Join(path) := DescribeAt(tree, path)] == EntriesAt(tree, seen + {path})
            && |EntriesAt(tree, seen + {path})| == |observed| + 1
            && TotalSize(EntriesAt(tree, seen + {path})) == TotalSize(observed) + DescribeAt(tree, path).size
            && SubMap(EntriesAt(tree, seen + {path}), TreeEntries(tree))
  {
    hide Traversing, EntriesAt, TotalSize;
    var path := directory + [name];
    VisitEntry(tree, seen, pending, directory, rest, name);
    SeenAreProper(tree, seen, pending, directory, rest);
    assert Exists(tree, path) by { RestExists(tree, seen, pending, directory, rest, name); }
    WellNamedPath(tree, path);
    NodePathsExist(tree, path);
    EntriesAtOne(tree, seen, path);
    TotalSizeInsert(observed, Join(path), DescribeAt(tree, path));
    EntriesAtSubMap(tree, seen + {path}, ProperPaths(tree));
  }

  lemma RestExists(tree: Node, seen: set<Path>, pending: seq<Path>, directory: Path, rest: set<string>, name: string)
    requires Traversing(tree, seen, pending, directory, rest) && name in rest
    ensures Exists(tree, directory + [name])
  {
  }

  /** A part of the tree that is already too large, or holds a special file, condemns the tree. */
  lemma PartCondemnsTree(part: map<string, Entry>, whole: map<string, Entry>, limits: Limits)
    requires SubMap(part, whole)
    ensures !NothingSpecial(part) ==> !NothingSpecial(whole)
    ensures !FitsLimits(part, limits) ==> !FitsLimits(whole, limits)
  {
    SubMapSize(part, whole);
  }

  /** One more entry either keeps the counters right or condemns the tree. */
  lemma CountEntry(tree: Node, seen: set<Path>, pending: seq<Path>, directory: Path, rest: set<string>, name: string,
                   observed: map<string, Entry>, files: nat, bytes: nat, limits: Limits)
    requires WellNamed(tree) && Traversing(tree, seen, pending, directory, rest) && name in rest
    requires Counted(tree, seen, observed, files, bytes, limits)
    ensures Exists(tree, directory + [name])
    ensures var path := directory + [name];
            var node := At(tree, path).value;
            var total := if node.Regular? then bytes + node.size else bytes;
            if node.Special? || files + 1 > limits.maxFiles || total > limits.maxBytes
            then !NothingSpecial(TreeEntries(tree)) || !FitsLimits(TreeEntries(tree), limits)
            else Counted(tree, seen + {path}, observed[Join(path) := DescribeNode(node)], files + 1, total, limits)
  {
    hide Traversing, EntriesAt, TotalSize, WellNamed, SubMap;
    CountOne(tree, seen, pending, directory, rest, name, observed);
    var path := directory + [name];
    var node := At(tree, path).value;
    var grown := EntriesAt(tree, seen + {path});
    PartCondemnsTree(grown, TreeEntries(tree), limits);
    assert grown[Join(path)] == DescribeNode(node);
  }

  ghost predicate Matches(tree: Node, plan: Plan, limits: Limits) {
    var entries := TreeEntries(tree);
    && NothingSpecial(entries)
    && FitsLimits(entries, limits)
    && entries == Project(plan.manifest)
    && |entries| == plan.files
    && TotalSize(entries) == plan.bytes
  }

  /** Reads the entries of one directory, in any order. */
  method ReadDirectory(tree: Node, directory: Path, rest0: set<string>, limits: Limits,
                       pending0: seq<Path>, observed0: map<string, Entry>, files0: nat, bytes0: nat,
                       ghost seen0: set<Path>)
      returns (ok: bool, pending: seq<Path>, observed: map<string, Entry>, files: nat, bytes: nat,
               ghost seen: set<Path>)
    requires WellNamed(tree) && IsDir(tree, directory)
    requires rest0 == At(tree, directory).value.entries.Keys
    requires Traversing(tree, seen0, pending0, directory, rest0)
    requires Counted(tree, seen0, observed0, files0, bytes0, limits)
    ensures ok ==> Traversing(tree, seen, pending, directory, {})
    ensures ok ==> Counted(tree, seen, observed, files, bytes, limits)
    ensures ok ==> files - files0 >= 0 && |pending| - |pending0| <= files - files0
    ensures !ok ==> !NothingSpecial(TreeEntries(tree)) || !FitsLimits(TreeEntries(tree), limits)
  {
    hide Traversing, Counted, NothingSpecial, FitsLimits, TreeEntries, WellNamed;
    ok, pending, observed, files, bytes, seen := true, pending0, observed0, files0, bytes0, seen0;
    var rest := rest0;
    while rest != {}
      invariant ok && rest <= rest0
      invariant Traversing(tree, seen, pending, directory, rest)
      invariant Counted(tree, seen, observed, files, bytes, limits)
      invariant files0 <= files && |pending| - |pending0| <= files - files0
      decreases rest
    {
      var name :| name in rest;
      var path := directory + [name];
      CountEntry(tree, seen, pending, directory, rest, name, observed, files, bytes, limits);
      VisitEntry(tree, seen, pending, directory, rest, name);
      var node := At(tree, path).value;
      if node.Special? {
        ok := false;
        return;
      }
      files := files + 1;
      if node.Regular? {
        bytes := bytes + node.size;
      }
      if files > limits.maxFiles || bytes > limits.maxBytes {
        ok := false;
        return;
      }
      observed := observed[Join(path) := DescribeNode(node)];
      if node.Dir? {
        pending := pending + [path];
      }
      seen := seen + {path};
      rest := rest - {name};
    }
  }

  method VerifyExtractedManifest(tree: Node, plan: Plan, limits: Limits) returns (ok: bool)
    requires tree.Dir? && WellNamed(tree)
    ensures ok <==> Matches(tree, plan, limits)
  {
    hide Traversing, EntriesAt, TotalSize, WellNamed;
    var pending: seq<Path> := [[]];
    var observed: map<string, Entry> := map[];
    var files: nat, bytes: nat := 0, 0;
    ghost var seen: set<Path> := {};
    ghost var directory: Path := [];
    StartTraversal(tree);
    StartCounting(tree, limits);
    ghost var total := |TreeEntries(tree)|;
    while pending != []
      invariant Traversing(tree, seen, pending, directory, {})
      invariant Counted(tree, seen, observed, files, bytes, limits)
      invariant files <= total
      decreases total - files + |pending|
    {
      var current := pending[|pending| - 1];
      PendingIsDir(tree, seen, pending, directory);
      var names := At(tree, current).value.entries.Keys;
      OpenDirectory(tree, seen, pending, directory, names);
      ok, pending, observed, files, bytes, seen :=
        ReadDirectory(tree, current, names, limits, pending[..|pending| - 1], observed, files, bytes, seen);
      if !ok { return false; }
      CountedWithin(tree, seen, pending, current, observed);
      directory := current;
    }
    TraversalDone(tree, seen, directory);
    EntriesWellDescribed(tree, seen);
    ComparisonIsEquality(observed, files, bytes, plan);
    return CompareWithPlan(observed, files, bytes, plan);
  }

  /** Entries that can be observed carry a size only on files and a target only on links. */
  predicate WellDescribed(entry: Entry) {
    && (entry.kind != FileType.File ==> entry.size == 0)
    && (entry.kind != Symlink ==> entry.linkTarget == None)
  }

  lemma EntriesWellDescribed(tree: Node, paths: set<Path>)
    ensures forall key :: key in EntriesAt(tree, paths) ==> WellDescribed(EntriesAt(tree, paths)[key])
  {
  }

  lemma SubsetOfSameSize<T>(a: set<T>, b: set<T>)
    requires a <= b && |a| == |b|
    ensures a == b
  {
    if x :| x in b && x !in a {
      Subset(a + {x}, b);
    }
  }

  /** The cardinality argument: as many entries as planned, and every planned path observed, leaves
      no room for an unplanned one. */
  lemma ComparisonIsEquality(observed: map<string, Entry>, files: nat, bytes: nat, plan: Plan)
    requires NothingSpecial(observed) && files == |observed|
    requires forall key :: key in observed ==> WellDescribed(observed[key])
    ensures CompareWithPlan(observed, files, bytes, plan) <==>
            observed == Project(plan.manifest) && files == plan.files && bytes == plan.bytes
  {
    ProjectSize(plan.manifest);
    if CompareWithPlan(observed, files, bytes, plan) {
      SubsetOfSameSize(plan.manifest.Keys, observed.Keys);
      forall path | path in plan.manifest ensures observed[path] == Describe(plan.manifest[path]) {
        assert Agrees(observed[path], plan.manifest[path]);
      }
    }
  }

  lemma StartCounting(tree: Node, limits: Limits)
    ensures Counted(tree, {}, map[], 0, 0, limits)
  {
  }

  lemma PendingIsDir(tree: Node, seen: set<Path>, pending: seq<Path>, directory: Path)
    requires Traversing(tree, seen, pending, directory, {}) && pending != []
    ensures IsDir(tree, pending[|pending| - 1])
  {
  }

  lemma CountedWithin(tree: Node, seen: set<Path>, pending: seq<Path>, directory: Path, observed: map<string, Entry>)
    requires WellNamed(tree) && Traversing(tree, seen, pending, directory, {})
    requires observed == EntriesAt(tree, seen)
    ensures |observed| <= |TreeEntries(tree)|
  {
    SeenAreProper(tree, seen, pending, directory, {});
    EntriesAtSubMap(tree, seen, ProperPaths(tree));
    SubMapSize(observed, TreeEntries(tree));
  }

  /** The comparison after the traversal: same number of entries, same totals, and every planned
      path observed with the planned kind, file size and link target. */
  predicate CompareWithPlan(observed: map<string, Entry>, files: nat, bytes: nat, plan: Plan) {
    && |observed| == |plan.manifest|
    && files == plan.files
    && bytes == plan.bytes
    && forall path :: path in plan.manifest ==> path in observed && Agrees(observed[path], plan.manifest[path])
  }

  predicate Agrees(observed: Entry, expected: ArchiveItem) {
    && observed.kind == expected.kind
    && (expected.kind == FileType.File ==> observed.size == expected.size)
    && (expected.kind == Symlink ==> observed.linkTarget == expected.linkTarget)
  }

  // ---------------------------------------------------------------------------------------
  // What acceptance means for a plan made by planning
  // ---------------------------------------------------------------------------------------

  /** For every plan that planning produced, verification accepts exactly the trees whose entries
      are the planned ones. */
  lemma AcceptanceIsExact(tree: Node, items: seq<ArchiveItem>, paths: seq<string>, plan: Plan, limits: Limits)
    requires ManifestOf(items, paths, plan.manifest) && PlanInvariant(plan, limits)
    requires ScannedFit(items, |items|, paths)
    ensures Matches(tree, plan, limits) <==> TreeEntries(tree) == Project(plan.manifest)
  {
    hide ManifestOf, TreeEntries;
    ProjectSize(plan.manifest);
    PlannedNothingSpecial(items, paths, plan.manifest);
  }

  lemma PlannedNothingSpecial(items: seq<ArchiveItem>, paths: seq<string>, manifest: map<string, ArchiveItem>)
    requires ManifestOf(items, paths, manifest) && ScannedFit(items, |items|, paths)
    ensures NothingSpecial(Project(manifest))
  {
    hide Selects, IsAncestorOfSelection, ValidArchivePath;
    forall path | path in manifest ensures !manifest[path].kind.IsSpecial() {
      if PlanningIncludes(paths, path) && Listed(items, path) {
        var i :| 0 <= i < |items| && items[i].path == path;
        assert PlanningIncludes(paths, items[i].path);
        assert ItemFits(items[i], paths);
      }
    }
  }

  /** The node is what the item says: a file of its size, a link with its target, or a directory. */
  predicate NodeAgrees(node: Option<Node>, item: ArchiveItem) {
    node.Some? &&
    match item.kind
    case File => node.value.Regular? && node.value.size == item.size
    case Symlink => node.value.Link? && item.linkTarget == Some(node.value.target)
    case Directory => node.value.Dir?
    case _ => false
  }

  lemma EntryOfPath(tree: Node, q: Path)
    requires WellNamed(tree) && q != [] && Exists(tree, q)
    ensures Join(q) in TreeEntries(tree) && Split(Join(q)) == q
  {
    NodePathsExist(tree, q);
    WellNamedPath(tree, q);
    SplitNormal(q);
    assert q in ProperPaths(tree);
  }

  lemma PathOfEntry(tree: Node, path: string)
    requires WellNamed(tree) && path in TreeEntries(tree)
    ensures Split(path) != [] && Exists(tree, Split(path)) && Join(Split(path)) == path
    ensures TreeEntries(tree)[path] == DescribeNode(At(tree, Split(path)).value)
  {
    var q :| q in ProperPaths(tree) && Join(q) == path;
    NodePathsExist(tree, q);
    WellNamedPath(tree, q);
    SplitNormal(q);
  }

  lemma AgreesMeansEqualEntries(node: Node, item: ArchiveItem)
    ensures NodeAgrees(Some(node), item) <==> DescribeNode(node) == Describe(item) && !item.kind.IsSpecial()
  {
  }

  /** Every planned path holds what its item says, and nothing else is there. */
  ghost predicate ShowsPlan(tree: Node, manifest: map<string, ArchiveItem>) {
    && (forall path :: path in manifest ==> NodeAgrees(At(tree, Split(path)), manifest[path]))
    && (forall q: Path :: q != [] && Exists(tree, q) ==> Join(q) in manifest)
  }

  lemma EqualEntriesShow(tree: Node, manifest: map<string, ArchiveItem>)
    requires WellNamed(tree) && TreeEntries(tree) == Project(manifest) && NothingSpecial(TreeEntries(tree))
    ensures ShowsPlan(tree, manifest)
  {
    hide NodeAgrees, TreeEntries, DescribeNode, Describe;
    forall path | path in manifest ensures NodeAgrees(At(tree, Split(path)), manifest[path]) {
      assert path in Project(manifest);
      PathOfEntry(tree, path);
      EntryKind(manifest, path);
      AgreesMeansEqualEntries(At(tree, Split(path)).value, manifest[path]);
    }
    forall q: Path | q != [] && Exists(tree, q) ensures Join(q) in manifest {
      EntryOfPath(tree, q);
      assert Join(q) in Project(manifest);
    }
  }

  lemma EntryKind(manifest: map<string, ArchiveItem>, path: string)
    requires path in manifest
    ensures Project(manifest)[path] == Describe(manifest[path]) && Describe(manifest[path]).kind == manifest[path].kind
  {
  }

  lemma ShownEntriesAreEqual(tree: Node, manifest: map<string, ArchiveItem>)
    requires WellNamed(tree) && ShowsPlan(tree, manifest)
    ensures TreeEntries(tree) == Project(manifest) && NothingSpecial(TreeEntries(tree))
  {
    hide NodeAgrees, TreeEntries, DescribeNode, Describe, ShowsPlan;
    var entries := TreeEntries(tree);
    forall path ensures path in entries <==> path in manifest { SamePaths(tree, manifest, path); }
    forall path | path in manifest
      ensures entries[path] == Project(manifest)[path] && !entries[path].kind.IsSpecial()
    {
      PathOfEntry(tree, path);
      EntryKind(manifest, path);
      ShownNode(tree, manifest, path);
      AgreesMeansEqualEntries(At(tree, Split(path)).value, manifest[path]);
    }
  }

  lemma ShownNode(tree: Node, manifest: map<string, ArchiveItem>, path: string)
    requires ShowsPlan(tree, manifest) && path in manifest
    ensures NodeAgrees(At(tree, Split(path)), manifest[path])
  {
  }

  lemma SamePaths(tree: Node, manifest: map<string, ArchiveItem>, path: string)
    requires WellNamed(tree) && ShowsPlan(tree, manifest)
    ensures path in TreeEntries(tree) <==> path in manifest
  {
    hide TreeEntries;
    JoinSplit(path);
    if path in TreeEntries(tree) { PathOfEntry(tree, path); }
    if path in manifest {
      assert NodeAgrees(At(tree, Split(path)), manifest[path]);
      EntryOfPath(tree, Split(path));
    }
  }

  /** Acceptance in terms of the nodes of the tree. */
  lemma AcceptedTreeShowsThePlan(tree: Node, plan: Plan, limits: Limits)
    requires WellNamed(tree) && PlanInvariant(plan, limits)
    ensures Matches(tree, plan, limits) <==> ShowsPlan(tree, plan.manifest)
  {
    hide ShowsPlan, TreeEntries, TotalSize, Project, NothingSpecial;
    ProjectSize(plan.manifest);
    if Matches(tree, plan, limits) { EqualEntriesShow(tree, plan.manifest); }
    if ShowsPlan(tree, plan.manifest) { ShownEntriesAreEqual(tree, plan.manifest); }
  }

  /** A faithful extraction is accepted when the listing was complete, and refused when it was not. */
  lemma FaithfulExtractionAccepted(tree: Node, archive: seq<ArchiveItem>, plan: Plan, limits: Limits)
    requires ManifestOf(archive, plan.paths, plan.manifest) && PlanInvariant(plan, limits)
    requires ScannedFit(archive, |archive|, plan.paths) && EveryPathFound(archive, plan.paths)
    requires Extraction.IdealExtraction(archive, plan.paths, TreeEntries(tree))
    ensures Matches(tree, plan, limits) <==> Extraction.ListingComplete(archive, plan.paths)
  {
    hide ManifestOf, ScannedFit, EveryPathFound, Matches, TreeEntries, PlanInvariant;
    AcceptanceIsExact(tree, archive, plan.paths, plan, limits);
    Extraction.PlanExactForExtraction(archive, plan.paths, plan.manifest, TreeEntries(tree));
  }
}
