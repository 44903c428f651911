/** Publishing a verified tree at its original paths, one atomic exchange per root. */
module Publication {
  import opened Paths
  import opened Selection
  import opened FileTree
  import Protected

  // ---------------------------------------------------------------------------------------
  // Where to publish
  // ---------------------------------------------------------------------------------------

  datatype Stat = Found | NotFound | Failed

  predicate CrossesLink(live: Node, path: Path) {
    exists k :: 0 <= k < |path| && At(live, path[..k]).Some? && At(live, path[..k]).value.Link?
  }

  predicate CrossesFile(live: Node, path: Path) {
    exists k :: 0 <= k < |path| && At(live, path[..k]).Some? &&
                !At(live, path[..k]).value.Link? && !At(live, path[..k]).value.Dir?
  }

  /** `symlink_metadata`: the last component is not followed, but links above it are. What lies
      behind such a link is unknown and given by `through`. */
  function StatAt(live: Node, path: Path, through: Path -> Stat): Stat {
    if CrossesLink(live, path) then through(path)
    else if Exists(live, path) then Found
    else if CrossesFile(live, path) then Failed
    else NotFound
  }

  /** Whoever exists and is no link has no link above its children. */
  lemma LinkBelowExisting(live: Node, path: Path)
    requires path != [] && Exists(live, path[..|path| - 1]) && !At(live, path[..|path| - 1]).value.Link?
    ensures !CrossesLink(live, path)
  {
    var parent := path[..|path| - 1];
    forall j | 0 <= j < |path| ensures Exists(live, path[..j]) && !At(live, path[..j]).value.Link? {
      assert path[..j] == parent[..j];
      PrefixOfExisting(live, parent, j);
      assert parent[..|parent|] == parent;
    }
  }

  method EnsureNoSymlinkComponents(live: Node, path: Path, through: Path -> Stat) returns (ok: bool)
    requires live.Dir?
    ensures ok <==> Exists(live, path) && !At(live, path).value.Link?
  {
    assert path[..|path|] == path;
    for k := 1 to |path| + 1
      invariant Exists(live, path[..k - 1]) && !At(live, path[..k - 1]).value.Link?
    {
      var current := path[..k];
      assert current[..k - 1] == path[..k - 1];
      LinkBelowExisting(live, current);
      if StatAt(live, current, through) != Found || At(live, current).value.Link? {
        if Exists(live, path) && !At(live, path).value.Link? {
          PrefixOfExisting(live, path, k);
        }
        return false;
      }
    }
    return true;
  }

  /** The path itself if it exists or its parent does, and otherwise its highest missing ancestor. */
  function RootOf(live: Node, path: Path): (root: Path)
    ensures root <= path
    ensures path != [] ==> root != []
    decreases |path|
  {
    if |path| > 1 && !Exists(live, path) && !Exists(live, path[..|path| - 1])
    then RootOf(live, path[..|path| - 1])
    else path
  }

  /** The deepest existing node on the way to the path is a directory, reached without links. */
  ghost predicate Anchored(live: Node, path: Path) {
    exists k :: 0 <= k <= |path| && IsDir(live, path[..k]) && (k < |path| ==> !Exists(live, path[..k + 1]))
  }

  function RootNames(live: Node, paths: seq<string>): seq<string> {
    seq(|paths|, i requires 0 <= i < |paths| => Join(RootOf(live, Split(paths[i]))))
  }

  lemma {:induction false} RootOfMissing(live: Node, path: Path)
    requires live.Dir? && path != [] && !Exists(live, path)
    ensures var root := RootOf(live, path);
            !Exists(live, root) && Exists(live, root[..|root| - 1])
    decreases |path|
  {
    var parent := path[..|path| - 1];
    if |path| > 1 && !Exists(live, parent) {
      RootOfMissing(live, parent);
    } else if |path| == 1 {
      assert parent == [];
    }
  }

  lemma RootOfExisting(live: Node, path: Path)
    requires Exists(live, path)
    ensures RootOf(live, path) == path
  {
  }

  lemma {:induction false} RootOfPrefix(live: Node, path: Path, k: nat)
    requires k < |path| && !Exists(live, path) && !Exists(live, path[..k]) && k > 0
    ensures RootOf(live, path) == RootOf(live, path[..k])
    decreases |path|
  {
    var parent := path[..|path| - 1];
    assert parent[..k] == path[..k];
    if Exists(live, parent) { PrefixOfExisting(live, parent, k); }
    if k < |parent| {
      assert parent[..k] == path[..k];
      RootOfPrefix(live, parent, k);
    } else {
      assert parent == path[..k];
    }
  }

  /** Climbs from one selected path to the deepest existing node above it. */
  method FindRoot(live: Node, path: Path, through: Path -> Stat) returns (r: Option<Path>)
    requires live.Dir? && path != []
    ensures r.Some? <==> Anchored(live, path)
    ensures r.Some? ==> r.value == RootOf(live, path)
  {
    var candidate := path;
    var root := path;
    assert path[..|path|] == path;
    while true
      invariant candidate <= path && candidate == path[..|candidate|]
      invariant forall k :: |candidate| < k <= |path| ==> CrossesLink(live, path[..k]) || !Exists(live, path[..k])
      invariant forall k :: |candidate| < k <= |path| ==> CrossesLink(live, path[..k]) || !CrossesFile(live, path[..k])
      invariant root == if |candidate| < |path| then path[..|candidate| + 1] else path
      decreases |candidate|
    {
      assert candidate == [] ==> StatAt(live, candidate, through) == Found;
      match StatAt(live, candidate, through)
      case Found => break;
      case Failed =>
        if CrossesLink(live, candidate) {
          LinkNotAnchored(live, path, |candidate|);
        } else {
          FileNotAnchored(live, path, |candidate|);
        }
        return None;
      case NotFound =>
        root := candidate;
        candidate := candidate[..|candidate| - 1];
        assert candidate == path[..|candidate|];
    }
    var ok := EnsureNoSymlinkComponents(live, candidate, through);
    if !ok || !At(live, candidate).value.Dir? {
      NotAnchoredAbove(live, path, |candidate|);
      return None;
    }
    RootIsBelow(live, path, |candidate|);
    return Some(root);
  }

  lemma LinkNotAnchored(live: Node, path: Path, m: nat)
    requires m <= |path| && CrossesLink(live, path[..m])
    ensures !Anchored(live, path)
  {
    var j :| 0 <= j < m && At(live, path[..m][..j]).Some? && At(live, path[..m][..j]).value.Link?;
    assert path[..m][..j] == path[..j];
    NodeNotAnchored(live, path, j);
  }

  lemma FileNotAnchored(live: Node, path: Path, m: nat)
    requires m <= |path| && CrossesFile(live, path[..m])
    ensures !Anchored(live, path)
  {
    var j :| 0 <= j < m && At(live, path[..m][..j]).Some? &&
             !At(live, path[..m][..j]).value.Link? && !At(live, path[..m][..j]).value.Dir?;
    assert path[..m][..j] == path[..j];
    NodeNotAnchored(live, path, j);
  }

  /** An existing node on the way that is not a directory rules the path out. */
  lemma NodeNotAnchored(live: Node, path: Path, j: nat)
    requires j <= |path| && Exists(live, path[..j]) && !IsDir(live, path[..j])
    ensures !Anchored(live, path)
  {
    if Anchored(live, path) {
      var k :| 0 <= k <= |path| && IsDir(live, path[..k]) && (k < |path| ==> !Exists(live, path[..k + 1]));
      if k < j {
        assert path[..j][..k + 1] == path[..k + 1];
        PrefixOfExisting(live, path[..j], k + 1);
      } else {
        assert path[..k][..j] == path[..j] && path[..k][..k] == path[..k];
        PrefixOfExisting(live, path[..k], j);
      }
    }
  }

  lemma NotAnchoredAbove(live: Node, path: Path, m: nat)
    requires m <= |path|
    requires CrossesLink(live, path[..m]) || Exists(live, path[..m])
    requires !Exists(live, path[..m]) || !At(live, path[..m]).value.Dir?
    ensures !Anchored(live, path)
  {
    if CrossesLink(live, path[..m]) {
      LinkNotAnchored(live, path, m);
    } else {
      NodeNotAnchored(live, path, m);
    }
  }

  lemma RootIsBelow(live: Node, path: Path, m: nat)
    requires m <= |path| && path != [] && IsDir(live, path[..m])
    requires forall k :: m < k <= |path| ==> CrossesLink(live, path[..k]) || !Exists(live, path[..k])
    ensures Anchored(live, path)
    ensures RootOf(live, path) == if m < |path| then path[..m + 1] else path
  {
    if m < |path| {
      var next := path[..m + 1];
      assert next[..m] == path[..m];
      LinkBelowExisting(live, next);
      assert !Exists(live, next);
      if Exists(live, path) { PrefixOfExisting(live, path, m + 1); }
      if m + 1 < |path| { RootOfPrefix(live, path, m + 1); } else { assert next == path; }
    } else {
      assert path[..m] == path;
    }
  }

  method OriginalPublicationPaths(live: Node, paths: seq<string>, through: Path -> Stat)
      returns (r: Option<seq<string>>)
    requires live.Dir?
    ensures r.Some? <==> forall i :: 0 <= i < |paths| ==> Anchored(live, Split(paths[i]))
    ensures r.Some? ==> IsMinimalCover(RootNames(live, paths), r.value) && Antichain(r.value)
  {
    var publication: seq<string> := [];
    for i := 0 to |paths|
      invariant publication == RootNames(live, paths[..i])
      invariant forall k :: 0 <= k < i ==> Anchored(live, Split(paths[k]))
    {
      var root := FindRoot(live, Split(paths[i]), through);
      if root.None? { return None; }
      publication := publication + [Join(root.value)];
    }
    assert paths[..|paths|] == paths;
    var minimal := MinimalRestorePaths(publication);
    r := Some(minimal);
  }

  lemma PrefixTransitive<T>(a: seq<T>, b: seq<T>, c: seq<T>)
    requires a <= b && b <= c
    ensures a <= c
  {
    assert a == b[..|a|] == c[..|a|];
  }

  // ---------------------------------------------------------------------------------------
  // How the roots lie
  // ---------------------------------------------------------------------------------------

  ghost predicate ValidPaths(paths: seq<string>) {
    forall i :: 0 <= i < |paths| ==> ValidArchivePath(paths[i])
  }

  lemma RootNameSplits(live: Node, path: string)
    requires ValidArchivePath(path)
    ensures Split(Join(RootOf(live, Split(path)))) == RootOf(live, Split(path))
  {
    ValidComponents(path);
    var root := RootOf(live, Split(path));
    assert root == Split(path)[..|root|];
    SplitJoin(root);
  }

  /** Publication roots of incomparable selections are equal or incomparable. */
  lemma RootsEqualOrIncomparable(live: Node, a: Path, b: Path)
    requires live.Dir? && a != [] && b != [] && !(a <= b) && !(b <= a)
    requires RootOf(live, a) <= RootOf(live, b)
    ensures RootOf(live, a) == RootOf(live, b)
  {
    var ra, rb := RootOf(live, a), RootOf(live, b);
    assert ra <= b by { assert ra == rb[..|ra|] == b[..|ra|]; }
    assert !Exists(live, a) by {
      if Exists(live, a) { RootOfExisting(live, a); }
    }
    RootOfMissing(live, a);
    if |ra| < |rb| {
      if Exists(live, b) {
        RootOfExisting(live, b);
        assert b[..|ra|] == ra;
        PrefixOfExisting(live, b, |ra|);
      } else {
        RootOfMissing(live, b);
        assert rb[..|rb| - 1][..|ra|] == ra;
        PrefixOfExisting(live, rb[..|rb| - 1], |ra|);
      }
    } else {
      assert ra == rb[..|ra|] == rb;
    }
  }

  /** For a minimal selection the published roots are exactly the roots of the selected paths:
      taking the minimal cover only removes repetitions. */
  lemma EveryRootIsPublished(live: Node, paths: seq<string>, roots: seq<string>, i: nat)
    requires live.Dir? && ValidPaths(paths) && Antichain(paths)
    requires IsMinimalCover(RootNames(live, paths), roots)
    requires i < |paths|
    ensures Join(RootOf(live, Split(paths[i]))) in roots
  {
    var names := RootNames(live, paths);
    forall q | q in names && ArchivePathMatches(names[i], q) ensures q == names[i] {
      var j :| 0 <= j < |names| && names[j] == q;
      RootNameSplits(live, paths[i]);
      RootNameSplits(live, paths[j]);
      MatchesIsComponentPrefix(names[i], q);
      if i != j {
        MatchesIsComponentPrefix(paths[i], paths[j]);
        MatchesIsComponentPrefix(paths[j], paths[i]);
        RootsEqualOrIncomparable(live, Split(paths[j]), Split(paths[i]));
      }
    }
    assert names[i] in names;
  }

  /** Some ancestor of the path is missing that the staging directory lies in or is. */
  ghost predicate SharesMissingAncestor(live: Node, stagingDir: Path, path: Path) {
    exists k :: 0 < k < |path| && path[..k] <= stagingDir && !Exists(live, path[..k])
  }

  /** The root of an accepted selection never lies inside the staging directory, but it contains it
      exactly when an ancestor that the two share is missing. The roots are computed before the staging
      directory is created. */
  lemma RootHoldsStagingIff(live: Node, config: Protected.Protection, path: Path)
    requires path != [] && live.Dir?
    requires Protected.Accepted(config, path, false)
    ensures Overlap(RootOf(live, path), config.stagingDir) <==> RootOf(live, path) <= config.stagingDir
    ensures Overlap(RootOf(live, path), config.stagingDir) <==> SharesMissingAncestor(live, config.stagingDir, path)
  {
    var root, staging := RootOf(live, path), config.stagingDir;
    assert staging in config.Denied() && !config.Exempt(path, false, staging);
    assert !Overlap(path, staging);
    if staging <= root { PrefixTransitive(staging, root, path); }
    if root <= staging {
      if Exists(live, path) { RootOfExisting(live, path); }
      RootOfMissing(live, path);
      assert root == path[..|root|];
    }
    if k :| 0 < k < |path| && path[..k] <= staging && !Exists(live, path[..k]) {
      if Exists(live, path) { PrefixOfExisting(live, path, k); }
      RootOfMissing(live, path);
      RootOfPrefix(live, path, k);
      PrefixTransitive(root, path[..k], staging);
    }
  }

  // ---------------------------------------------------------------------------------------
  // Exchanging the roots
  // ---------------------------------------------------------------------------------------

  ghost predicate Under(path: Path, roots: seq<string>) {
    exists i :: 0 <= i < |roots| && Split(roots[i]) <= path
  }

  /** Both trees after the subtrees at these roots have traded places. */
  ghost predicate Exchanged(live0: Node, staged0: Node, roots: seq<string>, live: Node, staged: Node) {
    && (forall q: Path :: LabelAt(live, q) == if Under(q, roots) then LabelAt(staged0, q) else LabelAt(live0, q))
    && (forall q: Path :: LabelAt(staged, q) == if Under(q, roots) then LabelAt(live0, q) else LabelAt(staged0, q))
  }

  /** Both ends of an exchange: the parent directories, and the staged node. */
  predicate EndsExist(live: Node, staged: Node, root: Path) {
    && root != []
    && IsDir(live, root[..|root| - 1])
    && IsDir(staged, root[..|root| - 1])
    && Exists(staged, root)
  }

  /** What the kernel asks of one exchange. The staged tree lies inside the staging directory, so a
      target that holds this directory would have to trade places with a part of itself. */
  predicate Publishable(live: Node, staged: Node, stagingDir: Path, root: Path) {
    EndsExist(live, staged, root) && !(root <= stagingDir)
  }

  class Disk {
    /** The file system without what staging holds, and the staged tree. */
    var live: Node
    var staged: Node

    const stagingDir: Path

    /** Which of the system calls fail for reasons outside the two trees. */
    const ioFails: nat -> bool
    var calls: nat

    constructor (live: Node, staged: Node, stagingDir: Path, ioFails: nat -> bool)
      ensures this.live == live && this.staged == staged && this.stagingDir == stagingDir && this.ioFails == ioFails
    {
      this.live, this.staged, this.stagingDir, this.ioFails, this.calls := live, staged, stagingDir, ioFails, 0;
    }

    ghost predicate Faulty() {
      exists n :: ioFails(n)
    }

    method SystemCallFails() returns (failed: bool)
      modifies this`calls
      ensures failed ==> Faulty()
    {
      failed := ioFails(calls);
      calls := calls + 1;
    }

    method CreateDirectory(path: Path) returns (ok: bool)
      requires live.Dir?
      modifies this`live, this`calls
      ensures live.Dir? && (ok ==> MakeDirs(old(live), path) == Some(live))
      ensures !ok ==> PartlyMade(old(live), path, live) && (Faulty() || MakeDirs(old(live), path) == None)
    {
      ok, live, calls := CreateDirectories(live, path, ioFails, calls);
    }

    /** RENAME_EXCHANGE when the target exists and RENAME_NOREPLACE when it does not. */
    method PublishOriginalPath(root: Path) returns (ok: bool)
      modifies this`live, this`staged, this`calls
      ensures !ok ==> live == old(live) && staged == old(staged)
      ensures !ok ==> Faulty() || !Publishable(live, staged, stagingDir, root)
      ensures ok ==>
                && Publishable(old(live), old(staged), stagingDir, root)
                && live == Graft(old(live), root, At(old(staged), root))
                && staged == Graft(old(staged), root, At(old(live), root))
    {
      var failed := SystemCallFails();
      if failed || !Publishable(live, staged, stagingDir, root) { return false; }
      var source := At(staged, root).value;
      if Exists(live, root) {
        var target := At(live, root).value;
        live, staged := Graft(live, root, Some(source)), Graft(staged, root, Some(target));
      } else {
        live, staged := Graft(live, root, Some(source)), Graft(staged, root, None);
      }
      return true;
    }

    method PublishOriginalPaths(roots: seq<string>) returns (published: nat)
      requires Antichain(roots)
      modifies this`live, this`staged, this`calls
      ensures published <= |roots|
      ensures Exchanged(old(live), old(staged), roots[..published], live, staged)
      ensures forall i :: 0 <= i < published ==> !(Split(roots[i]) <= stagingDir)
      ensures !Faulty() && published < |roots| ==>
                !Publishable(old(live), old(staged), stagingDir, Split(roots[published]))
    {
      published := 0;
      NothingExchanged(live, staged);
      while published < |roots|
        invariant published <= |roots|
        invariant Exchanged(old(live), old(staged), roots[..published], live, staged)
        invariant forall i :: 0 <= i < published ==> !(Split(roots[i]) <= stagingDir)
      {
        ghost var live1, staged1 := live, staged;
        OthersStayPublishable(old(live), old(staged), roots, published, live1, staged1);
        var ok := PublishOriginalPath(Split(roots[published]));
        if !ok { return; }
        ExchangeOne(old(live), old(staged), roots, published, live1, staged1);
        published := published + 1;
      }
    }
  }

  /** Everything of the program under "/etc" and "/var", except for the restore staging directory and
      perhaps the state directory. */
  function StagingOnData(stateDir: Path): Protected.Protection {
    Protected.Protection([], ["etc", "secret"], ["etc", "key"], ["etc", "hosts"], stateDir,
                         ["var", "cache", "boxup"], ["var", "lib", "index"], ["data", "stage"], None, None, None, None)
  }

  /** For example, with staging at /data/stage and /data missing, a selection of data/docs is accepted
      and its root is /data. Once the staging directory exists, that root cannot be exchanged. */
  lemma RootMayHoldStaging(staged: Node)
    ensures var config, path, live := StagingOnData(["var", "lib", "boxup"]), ["data", "docs"], Dir(0, map[]);
            && Protected.Accepted(config, path, false)
            && MakeDirs(live, config.stateDir).Some?
            && var planned := MakeDirs(live, config.stateDir).value;
            && RootOf(planned, path) == ["data"] && ["data"] <= config.stagingDir
            && MakeDirs(planned, config.stagingDir).Some?
            && !Publishable(MakeDirs(planned, config.stagingDir).value, staged, config.stagingDir, ["data"])
  {
    var config, path, live := StagingOnData(["var", "lib", "boxup"]), ["data", "docs"], Dir(0, map[]);
    DocsAccepted(["var", "lib", "boxup"]);
    EmptyTreeMakes(config.stateDir);
    var planned := MakeDirs(live, config.stateDir).value;
    MakeDirsLabel(live, config.stateDir, ["data"]);
    MakeDirsLabel(live, config.stateDir, path);
    assert path[..1] == ["data"];
    assert !Exists(planned, ["data"]) && !Exists(planned, path);
    RootOfPrefix(planned, path, 1);
    MakeDirsWhen(planned, config.stagingDir);
    forall j | 0 <= j <= 2 && Exists(planned, config.stagingDir[..j]) ensures IsDir(planned, config.stagingDir[..j]) {
      MakeDirsLabel(live, config.stateDir, config.stagingDir[..j]);
    }
  }

  /** With the state directory below /data as well, that directory exists when the roots are computed: the
      root is then the selected path itself, and does not hold staging. */
  lemma StateDirectoryMayMakeRoom()
    ensures var config, path, live := StagingOnData(["data", "state"]), ["data", "docs"], Dir(0, map[]);
            && Protected.Accepted(config, path, false)
            && SharesMissingAncestor(live, config.stagingDir, path)
            && MakeDirs(live, config.stateDir).Some?
            && var planned := MakeDirs(live, config.stateDir).value;
            && !SharesMissingAncestor(planned, config.stagingDir, path)
            && RootOf(planned, path) == path && !(path <= config.stagingDir)
  {
    var config, path, live := StagingOnData(["data", "state"]), ["data", "docs"], Dir(0, map[]);
    DocsAccepted(["data", "state"]);
    EmptyTreeMakes(config.stateDir);
    MakeDirsLabel(live, config.stateDir, ["data"]);
    assert path[..1] == ["data"];
    assert !Exists(live, ["data"]);
    assert path[1] != config.stagingDir[1];
  }

  lemma DocsAccepted(stateDir: Path)
    requires stateDir == ["data", "state"] || stateDir == ["var", "lib", "boxup"]
    ensures Protected.Accepted(StagingOnData(stateDir), ["data", "docs"], false)
  {
    var path := ["data", "docs"];
    forall d | d in StagingOnData(stateDir).Denied() ensures !Overlap(path, d) {
      assert d[0] == "etc" || d[0] == "var" || d == ["data", "stage"] || d == ["data", "state"];
      assert path[1] != ["data", "stage"][1] && path[1] != ["data", "state"][1];
    }
  }

  lemma EmptyTreeMakes(path: Path)
    ensures MakeDirs(Dir(0, map[]), path).Some?
  {
    var live := Dir(0, map[]);
    MakeDirsWhen(live, path);
    forall j | 0 <= j <= |path| && Exists(live, path[..j]) ensures IsDir(live, path[..j]) { assert j == 0; }
  }

  /** Creating one path first leaves an ancestor missing if it was and is not above that path. So the
      condition can be told before the state directory is created. */
  lemma MissingBeforehand(live: Node, made: Node, stateDir: Path, stagingDir: Path, path: Path)
    requires MakeDirs(live, stateDir) == Some(made)
    ensures SharesMissingAncestor(made, stagingDir, path) <==>
            exists k :: 0 < k < |path| && path[..k] <= stagingDir &&
                        !Exists(live, path[..k]) && !(path[..k] <= stateDir)
  {
    forall k | 0 < k < |path|
      ensures !Exists(made, path[..k]) <==> !Exists(live, path[..k]) && !(path[..k] <= stateDir)
    {
      MakeDirsLabel(live, stateDir, path[..k]);
    }
  }

  lemma NothingExchanged(live: Node, staged: Node)
    ensures Exchanged(live, staged, [], live, staged)
  {
  }

  lemma UnderOneMore(roots: seq<string>, k: nat, q: Path)
    requires k < |roots| && Antichain(roots)
    ensures Under(q, roots[..k + 1]) <==> Under(q, roots[..k]) || Split(roots[k]) <= q
    ensures !(Under(q, roots[..k]) && (Split(roots[k]) <= q || q < Split(roots[k])))
  {
    var longer, shorter := roots[..k + 1], roots[..k];
    if i :| 0 <= i < |shorter| && Split(shorter[i]) <= q { assert longer[i] == shorter[i]; }
    if i :| 0 <= i < |longer| && Split(longer[i]) <= q {
      if i < k { assert shorter[i] == longer[i]; }
    }
    if Split(roots[k]) <= q { assert longer[k] == roots[k]; }
    forall i | 0 <= i < |shorter| && Split(shorter[i]) <= q ensures !(Split(roots[k]) <= q) && !(q < Split(roots[k])) {
      MatchesIsComponentPrefix(roots[i], roots[k]);
      MatchesIsComponentPrefix(roots[k], roots[i]);
      if Split(roots[k]) <= q { PrefixesComparable(Split(roots[k]), Split(roots[i]), q); }
      if q < Split(roots[k]) { PrefixTransitive(Split(roots[i]), q, Split(roots[k])); }
    }
  }

  lemma SubtreeLabel(tree: Node, root: Path, q: Path)
    requires root <= q
    ensures OptionalLabelAt(At(tree, root), q[|root|..]) == LabelAt(tree, q)
  {
    assert q == root + q[|root|..];
    AtConcat(tree, root, q[|root|..]);
  }

  lemma ExchangeOne(live0: Node, staged0: Node, roots: seq<string>, k: nat, live1: Node, staged1: Node)
    requires k < |roots| && Antichain(roots)
    requires Exchanged(live0, staged0, roots[..k], live1, staged1)
    requires EndsExist(live1, staged1, Split(roots[k]))
    ensures var root := Split(roots[k]);
            Exchanged(live0, staged0, roots[..k + 1],
                      Graft(live1, root, At(staged1, root)), Graft(staged1, root, At(live1, root)))
  {
    var root := Split(roots[k]);
    var live2, staged2 := Graft(live1, root, At(staged1, root)), Graft(staged1, root, At(live1, root));
    forall q: Path
      ensures LabelAt(live2, q) == if Under(q, roots[..k + 1]) then LabelAt(staged0, q) else LabelAt(live0, q)
      ensures LabelAt(staged2, q) == if Under(q, roots[..k + 1]) then LabelAt(live0, q) else LabelAt(staged0, q)
    {
      UnderOneMore(roots, k, q);
      GraftLabel(live1, root, At(staged1, root), q);
      GraftLabel(staged1, root, At(live1, root), q);
      if root <= q {
        SubtreeLabel(staged1, root, q);
        SubtreeLabel(live1, root, q);
      }
    }
  }

  lemma OthersStayPublishable(live0: Node, staged0: Node, roots: seq<string>, k: nat, live1: Node, staged1: Node)
    requires k < |roots| && Antichain(roots)
    requires Exchanged(live0, staged0, roots[..k], live1, staged1)
    ensures EndsExist(live0, staged0, Split(roots[k])) ==> EndsExist(live1, staged1, Split(roots[k]))
  {
    var root := Split(roots[k]);
    var parent := root[..|root| - 1];
    UnderOneMore(roots, k, root);
    UnderOneMore(roots, k, parent);
    assert LabelAt(live1, parent) == LabelAt(live0, parent);
    assert LabelAt(staged1, parent) == LabelAt(staged0, parent);
    assert LabelAt(staged1, root) == LabelAt(staged0, root);
  }

  // ---------------------------------------------------------------------------------------
  // What a complete publication has done
  // ---------------------------------------------------------------------------------------

  ghost predicate SelectedAt(paths: seq<string>, q: Path) {
    exists i :: 0 <= i < |paths| && Split(paths[i]) <= q
  }

  /** After all exchanges every selected subtree is the extracted one, every node that existed
      before and lies at or below no selection is untouched, what appears outside the selections
      lies below a directory that was missing, and staging holds what was displaced. */
  lemma PublicationReplacesTheSelection(live0: Node, staged0: Node, paths: seq<string>, roots: seq<string>,
                                        live: Node, staged: Node, q: Path)
    requires live0.Dir? && ValidPaths(paths) && Antichain(paths)
    requires IsMinimalCover(RootNames(live0, paths), roots)
    requires Exchanged(live0, staged0, roots, live, staged)
    ensures SelectedAt(paths, q) ==> LabelAt(live, q) == LabelAt(staged0, q)
    ensures SelectedAt(paths, q) ==> LabelAt(staged, q) == LabelAt(live0, q)
    ensures !SelectedAt(paths, q) && Exists(live0, q) ==> LabelAt(live, q) == LabelAt(live0, q)
    ensures !SelectedAt(paths, q) && !Exists(live0, q) ==>
              LabelAt(live, q) == None || LabelAt(live, q) == LabelAt(staged0, q)
    ensures Exists(live0, q) && LabelAt(live, q) != LabelAt(live0, q) ==> LabelAt(staged, q) == LabelAt(live0, q)
  {
    if SelectedAt(paths, q) {
      var i :| 0 <= i < |paths| && Split(paths[i]) <= q;
      EveryRootIsPublished(live0, paths, roots, i);
      var root := RootOf(live0, Split(paths[i]));
      RootNameSplits(live0, paths[i]);
      var k :| 0 <= k < |roots| && roots[k] == Join(root);
      PrefixTransitive(root, Split(paths[i]), q);
      assert Under(q, roots);
    } else if Exists(live0, q) {
      if Under(q, roots) { UnderRootExisting(live0, paths, roots, q); }
    }
  }

  lemma UnderRootExisting(live0: Node, paths: seq<string>, roots: seq<string>, q: Path)
    requires live0.Dir? && ValidPaths(paths) && IsMinimalCover(RootNames(live0, paths), roots)
    requires Under(q, roots) && Exists(live0, q)
    ensures SelectedAt(paths, q)
  {
    var k :| 0 <= k < |roots| && Split(roots[k]) <= q;
    assert roots[k] in roots;
    var names := RootNames(live0, paths);
    assert roots[k] in names;
    var i :| 0 <= i < |names| && names[i] == roots[k];
    RootNameSplits(live0, paths[i]);
    var path := Split(paths[i]);
    var root := RootOf(live0, path);
    assert q[..|root|] == root;
    PrefixOfExisting(live0, q, |root|);
    if !Exists(live0, path) { RootOfMissing(live0, path); }
    RootOfExisting(live0, path);
  }

  /** An existing target is accepted exactly when it is a directory. */
  lemma ExistingTargetAccepted(live: Node, path: Path)
    requires Exists(live, path)
    ensures Anchored(live, path) <==> IsDir(live, path)
  {
    assert path[..|path|] == path;
    if !IsDir(live, path) { NodeNotAnchored(live, path, |path|); }
  }

  /** The documentation offers to replace single files at their original path; the code refuses. */
  lemma ReplacingAFileIsRefused()
    ensures var live := Dir(0, map["etc" := Dir(0, map["hosts" := Regular(12, 7)])]);
            Exists(live, ["etc", "hosts"]) && !Anchored(live, ["etc", "hosts"])
  {
    var etc := Dir(0, map["hosts" := Regular(12, 7)]);
    var live := Dir(0, map["etc" := etc]);
    AtChild(live, "etc");
    AtChild(etc, "hosts");
    assert ["etc"] + ["hosts"] == ["etc", "hosts"];
    AtConcat(live, ["etc"], ["hosts"]);
    ExistingTargetAccepted(live, ["etc", "hosts"]);
  }
}
