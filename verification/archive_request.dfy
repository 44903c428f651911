/** The sources and exclusions of an archive request (src/jobs.rs:258-299, 390-414, 1572-1600):
    Boxup's own exclusions must not cut off the inventory and the staged copies that it adds. */
module ArchiveRequest {
  import opened Paths
  import opened Selection

  // ---------------------------------------------------------------------------------------
  // What Borg archives
  // ---------------------------------------------------------------------------------------

  datatype Exclude =
    | Prefix(path: Path)     // "pp:PATH"
    | Full(path: Path)       // "pf:PATH"
    | Other(text: string)

  predicate Excludes(e: Exclude, other: (string, Path) -> bool, path: Path) {
    match e
    case Prefix(prefix) => prefix <= path
    case Full(full) => full == path
    case Other(text) => other(text, path)
  }

  /** Borg walks down from the source and does not descend into what is excluded. */
  ghost predicate Cut(excludes: set<Exclude>, other: (string, Path) -> bool, source: Path, path: Path) {
    exists e, q :: e in excludes && source <= q <= path && Excludes(e, other, q)
  }

  /** What a walk meets on disk: which paths the operator's own patterns match, and devices. */
  datatype Walk = Walk(other: (string, Path) -> bool, oneFileSystem: bool, device: Path -> int)

  /** With `--one-file-system` Borg does not descend into a directory on another device. */
  ghost predicate MountedOver(walk: Walk, source: Path, path: Path) {
    walk.oneFileSystem && exists q :: source <= q < path && walk.device(q) != walk.device(source)
  }

  ghost predicate Archived(sources: seq<Path>, excludes: set<Exclude>, walk: Walk, path: Path) {
    exists s :: s in sources && s <= path && !Cut(excludes, walk.other, s, path) && !MountedOver(walk, s, path)
  }

  // ---------------------------------------------------------------------------------------
  // The configuration
  // ---------------------------------------------------------------------------------------

  datatype Config = Config(
    sources: seq<Path>,
    excludes: seq<Exclude>,
    oneFileSystem: bool,
    stateDir: Path,
    cacheDir: Path,
    restoreStaging: Path,
    indexPath: Path)

  datatype Snapshot = Snapshot(staging: Path, stagedSources: seq<Path>)

  predicate Apart(paths: seq<Path>) {
    forall i, j :: 0 <= i < j < |paths| ==> !Overlap(paths[i], paths[j])
  }

  function OwnPaths(config: Config): seq<Path> {
    [config.stateDir, config.cacheDir, config.restoreStaging, config.indexPath]
  }

  /** The part of configuration validation that this module relies on. */
  predicate ValidConfig(config: Config) {
    Apart(OwnPaths(config))
  }

  predicate ValidStaging(config: Config, staging: Path) {
    forall i :: 0 <= i < |OwnPaths(config)| ==> !Overlap(staging, OwnPaths(config)[i])
  }

  const RECOVERY: Path := ["var", "lib", "boxup-recovery"]

  const STATE_FILES: seq<string> := ["boxup.lock", "setup-mode", "requires-live-validation", "last-success.json"]

  /** The index path with a suffix on its file name. */
  function Sidecar(index: Path, suffix: string): Path {
    if index == [] then [suffix] else index[..|index| - 1] + [index[|index| - 1] + suffix]
  }

  const SUFFIXES: seq<string> := ["-wal", "-shm"]

  function InventoryPath(config: Config, archive: string): Path {
    config.stateDir + ["inventory", archive + ".json"]
  }

  predicate IsStagedCopy(snapshot: Snapshot, path: Path) {
    && snapshot.staging < path
    && path[|snapshot.staging|] in ["mounts", "services", "postgres"]
  }

  function FixedExcludes(config: Config): seq<Exclude> {
    var state, index := config.stateDir, config.indexPath;
    [Prefix(RECOVERY), Prefix(config.cacheDir), Prefix(config.restoreStaging), Full(index),
     Full(state + ["boxup.lock"]), Full(state + ["setup-mode"]),
     Full(state + ["requires-live-validation"]), Full(state + ["last-success.json"]),
     Full(Sidecar(index, "-wal")), Full(Sidecar(index, "-shm"))]
  }

  ghost function InternalExcludes(config: Config, snapshot: Option<Snapshot>): set<Exclude> {
    (set e | e in FixedExcludes(config))
    + (if snapshot.Some? then set s | s in snapshot.value.stagedSources :: Prefix(s) else {})
  }

  // ---------------------------------------------------------------------------------------
  // Building the request
  // ---------------------------------------------------------------------------------------

  /** The sources are the configured ones and whatever of the inventory and the staging directory they
      do not cover; the exclusions are the configured and the internal ones. */
  ghost predicate RequestIsComplete(config: Config, snapshot: Option<Snapshot>, archive: string,
                                    sources: seq<Path>, excludes: seq<Exclude>) {
    && config.sources <= sources
    && (forall s :: s in sources ==>
          || s in config.sources
          || s == InventoryPath(config, archive)
          || (snapshot.Some? && s == snapshot.value.staging))
    && (exists s :: s in sources && s <= InventoryPath(config, archive))
    && (snapshot.Some? ==> exists s :: s in sources && s <= snapshot.value.staging)
    && (forall e :: e in excludes <==> e in config.excludes || e in InternalExcludes(config, snapshot))
  }

  /** With `one_file_system`, a source covers only what is on its own device. */
  predicate Covers(source: Path, item: Path, oneFileSystem: bool, device: Path -> Option<int>) {
    source <= item && (oneFileSystem ==> device(source).Some? && device(source) == device(item))
  }

  /** A walk from the source gets to the item: the source is the item, or lies above it and, if the walk
      stays on one file system, on the same device. */
  ghost predicate Reaches(source: Path, item: Path, oneFileSystem: bool, device: Path -> Option<int>) {
    source == item || (source <= item && (oneFileSystem ==> device(source) == device(item) != None))
  }

  method AddSourceIfUncovered(sources: seq<Path>, item: Path, oneFileSystem: bool, device: Path -> Option<int>)
      returns (r: seq<Path>)
    ensures exists s :: s in r && Reaches(s, item, oneFileSystem, device)
    ensures r == sources || r == sources + [item]
    ensures r == sources <==> exists s :: s in sources && Covers(s, item, oneFileSystem, device)
  {
    for i := 0 to |sources|
      invariant forall k :: 0 <= k < i ==> !Covers(sources[k], item, oneFileSystem, device)
    {
      if Covers(sources[i], item, oneFileSystem, device) {
        assert sources[i] in sources && Reaches(sources[i], item, oneFileSystem, device);
        return sources;
      }
    }
    r := sources + [item];
    assert item in r && Reaches(item, item, oneFileSystem, device);
  }

  method AddInternalExclude(excludes: seq<Exclude>, e: Exclude) returns (r: seq<Exclude>)
    ensures excludes <= r
    ensures forall x :: x in r <==> x in excludes || x == e
  {
    r := if e in excludes then excludes else excludes + [e];
  }

  method AddInternalExcludes(excludes: seq<Exclude>, more: seq<Exclude>) returns (r: seq<Exclude>)
    ensures excludes <= r
    ensures forall x :: x in r <==> x in excludes || x in more
  {
    r := excludes;
    for i := 0 to |more|
      invariant excludes <= r
      invariant forall x :: x in r <==> x in excludes || x in more[..i]
    {
      r := AddInternalExclude(r, more[i]);
    }
  }

  method AddStagedSources(excludes: seq<Exclude>, staged: seq<Path>) returns (r: seq<Exclude>)
    ensures excludes <= r
    ensures forall x :: x in r <==> x in excludes || (x.Prefix? && x.path in staged)
  {
    r := excludes;
    for i := 0 to |staged|
      invariant excludes <= r
      invariant forall x :: x in r <==> x in excludes || (x.Prefix? && x.path in staged[..i])
    {
      r := AddInternalExclude(r, Prefix(staged[i]));
    }
  }

  /** Fails when a configured source is absent or none is configured. */
  method AvailableSources(configured: seq<Path>, present: Path -> bool) returns (ok: bool, sources: seq<Path>)
    ensures ok <==> configured != [] && forall s :: s in configured ==> present(s)
    ensures ok ==> sources == configured
  {
    sources := [];
    for i := 0 to |configured|
      invariant sources == configured[..i]
      invariant forall s :: s in configured[..i] ==> present(s)
    {
      if !present(configured[i]) { return false, sources; }
      sources := sources + [configured[i]];
    }
    ok := sources != [];
  }

  method InternallyExcluded(config: Config, snapshot: Option<Snapshot>) returns (excludes: seq<Exclude>)
    ensures config.excludes <= excludes
    ensures forall e :: e in excludes <==> e in config.excludes || e in InternalExcludes(config, snapshot)
  {
    hide FixedExcludes;
    excludes := AddInternalExcludes(config.excludes, FixedExcludes(config));
    if snapshot.Some? { excludes := AddStagedSources(excludes, snapshot.value.stagedSources); }
  }

  method BuildRequest(config: Config, snapshot: Option<Snapshot>, archive: string,
                      present: Path -> bool, device: Path -> Option<int>)
      returns (ok: bool, sources: seq<Path>, excludes: seq<Exclude>)
    ensures ok <==> config.sources != [] && forall s :: s in config.sources ==> present(s)
    ensures ok ==> RequestIsComplete(config, snapshot, archive, sources, excludes)
    ensures ok ==> exists s :: s in sources && Reaches(s, config.stateDir + ["inventory", archive + ".json"],
                                                       config.oneFileSystem, device)
    ensures ok && snapshot.Some? ==> exists s :: s in sources && Reaches(s, snapshot.value.staging,
                                                                         config.oneFileSystem, device)
  {
    excludes := [];
    ok, sources := AvailableSources(config.sources, present);
    if !ok { return; }
    var inventory := InventoryPath(config, archive);
    sources := AddSourceIfUncovered(sources, inventory, config.oneFileSystem, device);
    ghost var s :| s in sources && Reaches(s, inventory, config.oneFileSystem, device);
    if snapshot.Some? {
      sources := AddSourceIfUncovered(sources, snapshot.value.staging, config.oneFileSystem, device);
    }
    assert s in sources;
    excludes := InternallyExcluded(config, snapshot);
  }

  // ---------------------------------------------------------------------------------------
  // What the internal exclusions cut off
  // ---------------------------------------------------------------------------------------

  /** What validation does not rule out: the recovery root at or above the base directory, an index
      sidecar between the source and the base directory, a staged source at or above the path. */
  ghost predicate Hidden(config: Config, snapshot: Option<Snapshot>, base: Path, source: Path, path: Path) {
    || RECOVERY <= base
    || (exists suffix :: suffix in SUFFIXES && source <= Sidecar(config.indexPath, suffix) <= base)
    || (snapshot.Some? && exists s :: s in snapshot.value.stagedSources && s <= path)
  }

  predicate Hits(e: Exclude, source: Path, path: Path) {
    (e.Prefix? && e.path <= path) || (e.Full? && source <= e.path <= path)
  }

  lemma CutIffHit(config: Config, snapshot: Option<Snapshot>, other: (string, Path) -> bool, source: Path, path: Path)
    requires source <= path
    ensures Cut(InternalExcludes(config, snapshot), other, source, path) <==>
            exists e :: e in InternalExcludes(config, snapshot) && Hits(e, source, path)
  {
    var excludes := InternalExcludes(config, snapshot);
    forall e | e in excludes ensures e.Prefix? || e.Full? {}
    hide InternalExcludes;
    if e, q :| e in excludes && source <= q <= path && Excludes(e, other, q) {
      assert Hits(e, source, path);
    }
    if e :| e in excludes && Hits(e, source, path) {
      assert Excludes(e, other, if e.Prefix? then path else e.path);
    }
  }

  /** A file beside the index cannot lie below a directory that does not hold the index. */
  lemma SidecarOutside(index: Path, suffix: string, base: Path, path: Path)
    requires !Overlap(base, index) && base <= path && Sidecar(index, suffix) <= path
    ensures Sidecar(index, suffix) <= base
  {
    var sidecar := Sidecar(index, suffix);
    assert |base| <= |sidecar| ==> base <= sidecar;
    assert base < sidecar ==> base <= index;
  }

  lemma FixedPrefixHit(config: Config, base: Path, path: Path, prefix: Path)
    requires base < path && path[|base|] !in RECOVERY
    requires !Overlap(base, config.cacheDir) && !Overlap(base, config.restoreStaging)
    requires Prefix(prefix) in FixedExcludes(config) && prefix <= path
    ensures RECOVERY <= base
  {
    assert forall k :: 0 <= k < |prefix| ==> prefix[k] == path[k] && prefix[k] in prefix;
  }

  lemma FixedFullHit(config: Config, base: Path, path: Path, full: Path)
    requires base < path && !Overlap(base, config.indexPath)
    requires forall name :: name in STATE_FILES ==> !(config.stateDir + [name] <= path)
    requires Full(full) in FixedExcludes(config) && full <= path
    ensures exists suffix :: suffix in SUFFIXES && full == Sidecar(config.indexPath, suffix) && full <= base
  {
    var index := config.indexPath;
    assert "-wal" in SUFFIXES && "-shm" in SUFFIXES;
    if full == Sidecar(index, "-wal") {
      SidecarOutside(index, "-wal", base, path);
    } else if full == Sidecar(index, "-shm") {
      SidecarOutside(index, "-shm", base, path);
    }
  }

  lemma InternalHit(config: Config, snapshot: Option<Snapshot>, base: Path, source: Path, path: Path, e: Exclude)
    requires base < path && path[|base|] !in RECOVERY
    requires !Overlap(base, config.cacheDir) && !Overlap(base, config.restoreStaging) &&
             !Overlap(base, config.indexPath)
    requires forall name :: name in STATE_FILES ==> !(config.stateDir + [name] <= path)
    requires e in InternalExcludes(config, snapshot) && Hits(e, source, path)
    ensures Hidden(config, snapshot, base, source, path)
  {
    hide FixedExcludes, Overlap, RECOVERY, SUFFIXES, STATE_FILES;
    if e in FixedExcludes(config) {
      if e.Prefix? {
        FixedPrefixHit(config, base, path, e.path);
      } else {
        FixedFullHit(config, base, path, e.path);
      }
    }
  }

  lemma HiddenIsHit(config: Config, snapshot: Option<Snapshot>, base: Path, source: Path, path: Path)
    requires base <= path && Hidden(config, snapshot, base, source, path)
    ensures exists e :: e in InternalExcludes(config, snapshot) && Hits(e, source, path)
  {
    var excludes := InternalExcludes(config, snapshot);
    if RECOVERY <= base {
      assert Hits(Prefix(RECOVERY), source, path);
    } else if suffix :| suffix in SUFFIXES && source <= Sidecar(config.indexPath, suffix) <= base {
      assert Full(Sidecar(config.indexPath, suffix)) in excludes;
      assert Hits(Full(Sidecar(config.indexPath, suffix)), source, path);
    } else {
      var s :| s in snapshot.value.stagedSources && s <= path;
      assert Prefix(s) in excludes && Hits(Prefix(s), source, path);
    }
  }

  lemma CutIffHidden(config: Config, snapshot: Option<Snapshot>, other: (string, Path) -> bool,
                     base: Path, source: Path, path: Path)
    requires base < path && source <= path && path[|base|] !in RECOVERY
    requires !Overlap(base, config.cacheDir) && !Overlap(base, config.restoreStaging) &&
             !Overlap(base, config.indexPath)
    requires forall name :: name in STATE_FILES ==> !(config.stateDir + [name] <= path)
    ensures Cut(InternalExcludes(config, snapshot), other, source, path) <==>
            Hidden(config, snapshot, base, source, path)
  {
    hide Cut, Hidden, InternalExcludes, Hits, Overlap;
    CutIffHit(config, snapshot, other, source, path);
    if e :| e in InternalExcludes(config, snapshot) && Hits(e, source, path) {
      InternalHit(config, snapshot, base, source, path, e);
    }
    if Hidden(config, snapshot, base, source, path) { HiddenIsHit(config, snapshot, base, source, path); }
  }

  /** Boxup's own exclusions cut the inventory off from a source exactly in the hidden cases. */
  lemma InventoryCutIff(config: Config, snapshot: Option<Snapshot>, archive: string, other: (string, Path) -> bool,
                        source: Path)
    requires ValidConfig(config) && source <= InventoryPath(config, archive)
    ensures Cut(InternalExcludes(config, snapshot), other, source, InventoryPath(config, archive)) <==>
            Hidden(config, snapshot, config.stateDir, source, InventoryPath(config, archive))
  {
    var path, own := InventoryPath(config, archive), OwnPaths(config);
    assert path[|config.stateDir|] == "inventory";
    assert !Overlap(own[0], own[1]) && !Overlap(own[0], own[2]) && !Overlap(own[0], own[3]);
    forall name | name in STATE_FILES ensures !(config.stateDir + [name] <= path) {
      assert (config.stateDir + [name])[|config.stateDir|] == name;
    }
    CutIffHidden(config, snapshot, other, config.stateDir, source, path);
  }

  /** The same for everything in the staging directory that a backup puts there. */
  lemma StagedCopyCutIff(config: Config, snapshot: Snapshot, other: (string, Path) -> bool, source: Path, path: Path)
    requires ValidConfig(config) && ValidStaging(config, snapshot.staging)
    requires IsStagedCopy(snapshot, path) && source <= path
    ensures Cut(InternalExcludes(config, Some(snapshot)), other, source, path) <==>
            Hidden(config, Some(snapshot), snapshot.staging, source, path)
  {
    var base, own := snapshot.staging, OwnPaths(config);
    assert !Overlap(base, own[0]) && !Overlap(base, own[1]) && !Overlap(base, own[2]) && !Overlap(base, own[3]);
    forall name | name in STATE_FILES ensures !(config.stateDir + [name] <= path) {
      if config.stateDir + [name] <= path {
        assert config.stateDir <= config.stateDir + [name];
        OverlapOfPrefixes(config.stateDir, base, path);
      }
    }
    CutIffHidden(config, Some(snapshot), other, base, source, path);
  }

  lemma OverlapOfPrefixes(a: Path, b: Path, path: Path)
    requires a <= path && b <= path
    ensures Overlap(a, b)
  {
  }

  ghost function Elements(excludes: seq<Exclude>): set<Exclude> {
    set e | e in excludes
  }

  /** Some source holds the path, and neither the operator nor a mount nor a hidden case cuts it off from
      there. */
  ghost predicate Reached(config: Config, snapshot: Option<Snapshot>, walk: Walk,
                          sources: seq<Path>, base: Path, path: Path) {
    exists s :: s in sources && s <= path && !Cut(Elements(config.excludes), walk.other, s, path) &&
                !MountedOver(walk, s, path) && !Hidden(config, snapshot, base, s, path)
  }

  lemma CutUnion(config: Config, snapshot: Option<Snapshot>, excludes: seq<Exclude>, other: (string, Path) -> bool,
                 source: Path, path: Path)
    requires forall e :: e in excludes <==> e in config.excludes || e in InternalExcludes(config, snapshot)
    ensures Cut(Elements(excludes), other, source, path) <==>
            || Cut(Elements(config.excludes), other, source, path)
            || Cut(InternalExcludes(config, snapshot), other, source, path)
  {
    hide InternalExcludes, Excludes;
  }

  lemma InventoryIsArchivedIff(config: Config, snapshot: Option<Snapshot>, archive: string, walk: Walk,
                               sources: seq<Path>, excludes: seq<Exclude>)
    requires ValidConfig(config) && RequestIsComplete(config, snapshot, archive, sources, excludes)
    ensures Archived(sources, Elements(excludes), walk, InventoryPath(config, archive)) <==>
            Reached(config, snapshot, walk, sources, config.stateDir, InventoryPath(config, archive))
  {
    hide InternalExcludes, Cut, Hidden, ValidConfig, Elements, InventoryPath;
    var path := InventoryPath(config, archive);
    forall s | s in sources && s <= path
      ensures Cut(Elements(excludes), walk.other, s, path) <==>
              Cut(Elements(config.excludes), walk.other, s, path) || Hidden(config, snapshot, config.stateDir, s, path)
    {
      CutUnion(config, snapshot, excludes, walk.other, s, path);
      InventoryCutIff(config, snapshot, archive, walk.other, s);
    }
  }

  lemma StagedCopyIsArchivedIff(config: Config, snapshot: Snapshot, archive: string, walk: Walk,
                                sources: seq<Path>, excludes: seq<Exclude>, path: Path)
    requires ValidConfig(config) && ValidStaging(config, snapshot.staging)
    requires RequestIsComplete(config, Some(snapshot), archive, sources, excludes)
    requires IsStagedCopy(snapshot, path)
    ensures Archived(sources, Elements(excludes), walk, path) <==>
            Reached(config, Some(snapshot), walk, sources, snapshot.staging, path)
  {
    hide InternalExcludes, Cut, Hidden, ValidConfig, ValidStaging, Elements, InventoryPath, IsStagedCopy;
    forall s | s in sources && s <= path
      ensures Cut(Elements(excludes), walk.other, s, path) <==>
              || Cut(Elements(config.excludes), walk.other, s, path)
              || Hidden(config, Some(snapshot), snapshot.staging, s, path)
    {
      CutUnion(config, Some(snapshot), excludes, walk.other, s, path);
      StagedCopyCutIff(config, snapshot, walk.other, s, path);
    }
  }

  /** Without exclusions of the operator's own, and with no other file system in the way if the walk stays
      on one, the inventory and every staged copy are archived unless the recovery root, an index sidecar
      or a staged source lies in the way. */
  lemma InternalDataIsArchived(config: Config, snapshot: Snapshot, archive: string, walk: Walk,
                               sources: seq<Path>, excludes: seq<Exclude>, path: Path)
    requires ValidConfig(config) && ValidStaging(config, snapshot.staging) && config.excludes == []
    requires walk.oneFileSystem ==> forall p, q :: walk.device(p) == walk.device(q)
    requires RequestIsComplete(config, Some(snapshot), archive, sources, excludes)
    requires !(RECOVERY <= config.stateDir) && !(RECOVERY <= snapshot.staging)
    requires forall suffix :: suffix in SUFFIXES ==>
               var sidecar := Sidecar(config.indexPath, suffix);
               !(sidecar <= config.stateDir) && !(sidecar <= snapshot.staging)
    requires forall s :: s in snapshot.stagedSources ==> !(s <= InventoryPath(config, archive)) && !(s <= path)
    requires IsStagedCopy(snapshot, path)
    ensures Archived(sources, Elements(excludes), walk, InventoryPath(config, archive))
    ensures Archived(sources, Elements(excludes), walk, path)
  {
    hide InternalExcludes, RECOVERY, SUFFIXES, Sidecar, ValidConfig, ValidStaging, InventoryPath;
    var inventory := InventoryPath(config, archive);
    var s :| s in sources && s <= inventory;
    assert Reached(config, Some(snapshot), walk, sources, config.stateDir, inventory);
    InventoryIsArchivedIff(config, Some(snapshot), archive, walk, sources, excludes);
    var t :| t in sources && t <= snapshot.staging;
    assert t <= path;
    assert Reached(config, Some(snapshot), walk, sources, snapshot.staging, path);
    StagedCopyIsArchivedIff(config, snapshot, archive, walk, sources, excludes, path);
  }

  /** What a backup must keep out of its archive: the recovery area, the caches, the restore staging
      directory and every source that was staged, each with all below it, and the live index and state
      files. */
  ghost predicate KeptOut(config: Config, snapshot: Option<Snapshot>, path: Path) {
    || ["var", "lib", "boxup-recovery"] <= path
    || config.cacheDir <= path
    || config.restoreStaging <= path
    || (snapshot.Some? && exists s :: s in snapshot.value.stagedSources && s <= path)
    || path == config.indexPath
    || path == config.stateDir + ["boxup.lock"]
    || path == config.stateDir + ["setup-mode"]
    || path == config.stateDir + ["requires-live-validation"]
    || path == config.stateDir + ["last-success.json"]
    || IsBeside(config.indexPath, "-wal", path)
    || IsBeside(config.indexPath, "-shm", path)
  }

  /** The path names the file with this suffix beside the index. */
  ghost predicate IsBeside(index: Path, suffix: string, path: Path) {
    if index == [] then path == [suffix]
    else && |path| == |index|
         && path[..|path| - 1] == index[..|index| - 1]
         && path[|path| - 1] == index[|index| - 1] + suffix
  }

  lemma SidecarIsBeside(index: Path, suffix: string, path: Path)
    ensures IsBeside(index, suffix, path) <==> path == Sidecar(index, suffix)
  {
    if index != [] && path != [] { assert path == path[..|path| - 1] + [path[|path| - 1]]; }
  }

  lemma KeptOutBy(config: Config, snapshot: Option<Snapshot>, path: Path) returns (e: Exclude)
    requires KeptOut(config, snapshot, path)
    ensures e in InternalExcludes(config, snapshot)
    ensures (e.Prefix? && e.path <= path) || (e.Full? && e.path == path)
  {
    FixedMembers(config);
    SidecarIsBeside(config.indexPath, "-wal", path);
    SidecarIsBeside(config.indexPath, "-shm", path);
    hide FixedExcludes, IsBeside, Sidecar;
    if snapshot.Some? && exists s :: s in snapshot.value.stagedSources && s <= path {
      var s :| s in snapshot.value.stagedSources && s <= path;
      e := Prefix(s);
    } else if RECOVERY <= path {
      e := Prefix(RECOVERY);
    } else if config.cacheDir <= path {
      e := Prefix(config.cacheDir);
    } else if config.restoreStaging <= path {
      e := Prefix(config.restoreStaging);
    } else {
      e := Full(path);
    }
  }

  lemma FixedMembers(config: Config)
    ensures var state, index, fixed := config.stateDir, config.indexPath, FixedExcludes(config);
            && Prefix(RECOVERY) in fixed && Prefix(config.cacheDir) in fixed && Prefix(config.restoreStaging) in fixed
            && Full(index) in fixed && Full(Sidecar(index, "-wal")) in fixed && Full(Sidecar(index, "-shm")) in fixed
            && Full(state + ["boxup.lock"]) in fixed && Full(state + ["setup-mode"]) in fixed
            && Full(state + ["requires-live-validation"]) in fixed && Full(state + ["last-success.json"]) in fixed
  {
  }

  lemma KeptOutByItself(config: Config, snapshot: Option<Snapshot>, path: Path, e: Exclude)
    requires e in InternalExcludes(config, snapshot)
    requires (e.Prefix? && e.path <= path) || (e.Full? && e.path == path)
    ensures KeptOut(config, snapshot, path)
  {
    SidecarIsBeside(config.indexPath, "-wal", path);
    SidecarIsBeside(config.indexPath, "-shm", path);
    hide IsBeside, Sidecar;
  }

  /** Boxup's own exclusions cut a path off from a source exactly if they keep out something on the way. */
  lemma InternalCutIff(config: Config, snapshot: Option<Snapshot>, other: (string, Path) -> bool, source: Path,
                       path: Path)
    requires source <= path
    ensures Cut(InternalExcludes(config, snapshot), other, source, path) <==>
            exists q :: source <= q <= path && KeptOut(config, snapshot, q)
  {
    CutIffHit(config, snapshot, other, source, path);
    hide InternalExcludes, KeptOut, Cut;
    if e :| e in InternalExcludes(config, snapshot) && Hits(e, source, path) {
      KeptOutByItself(config, snapshot, if e.Prefix? then path else e.path, e);
    }
    if q :| source <= q <= path && KeptOut(config, snapshot, q) {
      var e := KeptOutBy(config, snapshot, q);
      assert e.path <= path by { assert e.path <= q; PrefixOf(e.path, q, path); }
      assert Hits(e, source, path);
    }
  }

  lemma PrefixOf(a: Path, b: Path, c: Path)
    requires a <= b && b <= c
    ensures a <= c
  {
    assert a == b[..|a|] == c[..|a|];
  }

  /** Exactly what a complete request archives: what lies at or below some source, without anything on the
      way there that the operator excludes, that is kept out, or that another file system covers. */
  lemma ArchivedIff(config: Config, snapshot: Option<Snapshot>, archive: string, walk: Walk,
                    sources: seq<Path>, excludes: seq<Exclude>, path: Path)
    requires RequestIsComplete(config, snapshot, archive, sources, excludes)
    ensures Archived(sources, Elements(excludes), walk, path) <==>
            exists s :: && s in sources && s <= path
                        && !Cut(Elements(config.excludes), walk.other, s, path)
                        && !MountedOver(walk, s, path)
                        && forall q :: s <= q <= path ==> !KeptOut(config, snapshot, q)
  {
    hide InternalExcludes, Cut, Elements, MountedOver, KeptOut, InventoryPath;
    forall s | s in sources && s <= path
      ensures Cut(Elements(excludes), walk.other, s, path) <==>
              || Cut(Elements(config.excludes), walk.other, s, path)
              || exists q :: s <= q <= path && KeptOut(config, snapshot, q)
    {
      CutUnion(config, snapshot, excludes, walk.other, s, path);
      InternalCutIff(config, snapshot, walk.other, s, path);
    }
  }

  /** So no complete request archives what is kept out, whatever its sources and whatever the walk meets. */
  lemma KeptOutIsNotArchived(config: Config, snapshot: Option<Snapshot>, archive: string, walk: Walk,
                             sources: seq<Path>, excludes: seq<Exclude>, path: Path)
    requires RequestIsComplete(config, snapshot, archive, sources, excludes) && KeptOut(config, snapshot, path)
    ensures !Archived(sources, Elements(excludes), walk, path)
  {
    hide Cut, Elements, MountedOver, KeptOut, RequestIsComplete;
    ArchivedIff(config, snapshot, archive, walk, sources, excludes, path);
    assert path <= path;
  }

  /** The directories of the copies and dumps that a backup stages all count as staged copies. */
  lemma SlotsAreStagedCopies(snapshot: Snapshot, id: string, name: string, below: Path)
    ensures IsStagedCopy(snapshot, snapshot.staging + ["mounts", id, name] + below)
    ensures IsStagedCopy(snapshot, snapshot.staging + ["services", name] + below)
    ensures IsStagedCopy(snapshot, snapshot.staging + ["postgres", name])
  {
    var base := snapshot.staging;
    assert (base + ["mounts", id, name] + below)[|base|] == "mounts";
    assert (base + ["services", name] + below)[|base|] == "services";
  }

  function ExampleConfig(): Config {
    Config([["home"]], [], false, ["var", "lib", "boxup"], ["var", "cache", "boxup"], ["var", "lib", "restore"],
           ["var", "lib", "index"])
  }

  lemma Differ(p: Path, q: Path, k: nat)
    requires k < |p| && k < |q| && p[k] != q[k]
    ensures !Overlap(p, q)
  {
  }

  lemma ExampleIsValid()
    ensures ValidConfig(ExampleConfig()) && ValidStaging(ExampleConfig(), ["var", "lib", "docker"])
  {
    var config, docker := ExampleConfig(), ["var", "lib", "docker"];
    Differ(config.stateDir, config.cacheDir, 1);
    Differ(config.stateDir, config.restoreStaging, 2);
    Differ(config.stateDir, config.indexPath, 2);
    Differ(config.cacheDir, config.restoreStaging, 1);
    Differ(config.cacheDir, config.indexPath, 1);
    Differ(config.restoreStaging, config.indexPath, 2);
    Differ(docker, config.stateDir, 2);
    Differ(docker, config.cacheDir, 1);
    Differ(docker, config.restoreStaging, 2);
    Differ(docker, config.indexPath, 2);
    hide Overlap;
  }

  /** For example, when a container mounts /var/lib, that source is staged, its exclusion covers the
      state directory, and no request archives the inventory. */
  lemma StagedSourceHidesInventory(archive: string, walk: Walk, sources: seq<Path>, excludes: seq<Exclude>)
    ensures var config, snapshot := ExampleConfig(), Snapshot(["var", "lib", "docker"], [["var", "lib"]]);
            && ValidConfig(config) && ValidStaging(config, snapshot.staging)
            && (RequestIsComplete(config, Some(snapshot), archive, sources, excludes) ==>
                  !Archived(sources, Elements(excludes), walk, InventoryPath(config, archive)))
  {
    ExampleIsValid();
    hide ValidConfig, ValidStaging, RequestIsComplete, Cut, Archived, Elements;
    var config, snapshot := ExampleConfig(), Snapshot(["var", "lib", "docker"], [["var", "lib"]]);
    assert InventoryPath(config, archive)[..2] == ["var", "lib"];
    if RequestIsComplete(config, Some(snapshot), archive, sources, excludes) {
      assert ["var", "lib"] in snapshot.stagedSources && ["var", "lib"] <= InventoryPath(config, archive);
      InventoryIsArchivedIff(config, Some(snapshot), archive, walk, sources, excludes);
    }
  }
}
