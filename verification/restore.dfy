/** The restore drivers: plan, extract, verify, revalidate and only then publish. */
module Restore {
  import opened Paths
  import opened Selection
  import opened Planning
  import opened FileTree
  import opened Protected
  import Verification

  /** What the repository answers at each step of one restore; it may change in between. `None` and
      incomplete listings are failed calls. */
  datatype Repository = Repository(
    atPlanning: Option<seq<Snapshot>>,
    listing: Listing,
    beforeExtraction: Option<seq<Snapshot>>,
    extracted: Option<Node>,
    afterVerification: Option<seq<Snapshot>>)

  method RevalidateSnapshot(snapshots: Option<seq<Snapshot>>, plan: Plan) returns (ok: bool)
    ensures ok <==> snapshots.Some? && IdentifiesUniquely(snapshots.value, plan.snapshot, plan.snapshotId)
  {
    if snapshots.None? { return false; }
    var matching := Matching(snapshots.value, plan.snapshot);
    OneMatchMeansUnique(snapshots.value, plan.snapshot, plan.snapshotId);
    MatchingMembers(snapshots.value, plan.snapshot);
    ok := |matching| == 1 && matching[0].id == plan.snapshotId;
    if ok {
      assert matching[0] in matching;
      assert matching == [Snapshot(plan.snapshot, plan.snapshotId)];
    }
  }

  /** The plan that a listing and a snapshot name determine. */
  ghost predicate PlanFor(repository: Repository, name: string, paths: seq<string>, limits: Limits, plan: Plan) {
    && repository.atPlanning.Some?
    && repository.listing.complete
    && ValidArchiveId(plan.snapshotId)
    && IdentifiesUniquely(repository.atPlanning.value, name, plan.snapshotId)
    && PlanAccepts(repository.listing.items, paths, limits)
    && ManifestOf(repository.listing.items, paths, plan.manifest)
    && PlanInvariant(plan, limits)
    && plan.snapshot == name && plan.paths == paths
  }

  lemma PlanUnique(repository: Repository, name: string, paths: seq<string>, limits: Limits, a: Plan, b: Plan)
    requires PlanFor(repository, name, paths, limits, a) && PlanFor(repository, name, paths, limits, b)
    ensures a == b
  {
    hide PlanAccepts, ManifestOf;
    ManifestUnique(repository.listing.items, paths, a.manifest, b.manifest);
  }

  method PlanRestore(repository: Repository, name: string, paths: seq<string>, limits: Limits)
      returns (r: Option<Plan>)
    requires limits.Valid() && Acceptable(paths)
    ensures r.Some? <==> exists plan :: PlanFor(repository, name, paths, limits, plan)
    ensures r.Some? ==> PlanFor(repository, name, paths, limits, r.value)
  {
    hide PlanAccepts, ManifestOf, PlanInvariant, IdentifiesUniquely, ValidArchiveId;
    r := ValidateLiveSelection(repository.atPlanning, name, paths, repository.listing, limits);
    if plan :| PlanFor(repository, name, paths, limits, plan) {
      assert r.Some?;
    }
    if r.Some? {
      PlannedIsAccepted(repository.listing.items, paths, r.value, limits);
      assert PlanFor(repository, name, paths, limits, r.value);
    }
  }

  lemma PlannedIsAccepted(items: seq<ArchiveItem>, paths: seq<string>, plan: Plan, limits: Limits)
    ensures PlanAccepts(items, paths, limits) ==> ScannedFit(items, |items|, paths) && EveryPathFound(items, paths)
  {
    hide PlanningIncludes, ItemFits, ValidArchivePath, EveryPathFound;
  }

  /** The checked extraction: the tree matches the plan, and the snapshot name stood for the planned
      archive both before the extraction and after the verification. */
  ghost predicate ExtractionTrusted(repository: Repository, plan: Plan, limits: Limits) {
    && repository.beforeExtraction.Some? && repository.afterVerification.Some? && repository.extracted.Some?
    && IdentifiesUniquely(repository.beforeExtraction.value, plan.snapshot, plan.snapshotId)
    && IdentifiesUniquely(repository.afterVerification.value, plan.snapshot, plan.snapshotId)
    && Verification.Matches(repository.extracted.value, plan, limits)
  }

  /** Extraction produces some directory tree, whatever it holds. */
  ghost predicate ExtractsTree(repository: Repository) {
    repository.extracted.Some? ==> repository.extracted.value.Dir? && WellNamed(repository.extracted.value)
  }

  method ExtractAndVerify(repository: Repository, plan: Plan, limits: Limits) returns (r: Option<Node>)
    requires ExtractsTree(repository)
    ensures r.Some? <==> ExtractionTrusted(repository, plan, limits)
    ensures r.Some? ==> r == repository.extracted
  {
    var valid := RevalidateSnapshot(repository.beforeExtraction, plan);
    if !valid || repository.extracted.None? { return None; }
    var matches := Verification.VerifyExtractedManifest(repository.extracted.value, plan, limits);
    if !matches { return None; }
    valid := RevalidateSnapshot(repository.afterVerification, plan);
    return if valid then repository.extracted else None;
  }

  // ---------------------------------------------------------------------------------------
  // The directories a restore creates for itself
  // ---------------------------------------------------------------------------------------

  /** The file system once the state directory exists. */
  function WithState(live: Node, config: Protection): Option<Node> {
    MakeDirs(live, config.stateDir)
  }

  /** The file system once the state directory and then the restore staging directory exist. */
  function WithStaging(live: Node, config: Protection): Option<Node> {
    if WithState(live, config).None? then None else MakeDirs(WithState(live, config).value, config.stagingDir)
  }

  /** At most these directories and their ancestors have been created. */
  ghost predicate PartlyPrepared(live0: Node, config: Protection, live: Node) {
    || PartlyMade(live0, config.stateDir, live)
    || (WithState(live0, config).Some? && PartlyMade(WithState(live0, config).value, config.stagingDir, live))
  }

  /** They change nothing that existed, and nothing else is new. */
  lemma PartlyPreparedLabel(live0: Node, config: Protection, live: Node, q: Path)
    requires PartlyPrepared(live0, config, live)
    ensures Exists(live0, q) ==> LabelAt(live, q) == LabelAt(live0, q)
    ensures !Exists(live0, q) ==>
              || LabelAt(live, q) == None
              || ((q <= config.stateDir || q <= config.stagingDir) && LabelAt(live, q) == Some(DirLabel(NEW_DIRECTORY)))
  {
    if PartlyMade(live0, config.stateDir, live) {
      PartlyMadeLabel(live0, config.stateDir, live, q);
    } else {
      MakeDirsLabel(live0, config.stateDir, q);
      PartlyMadeLabel(WithState(live0, config).value, config.stagingDir, live, q);
    }
  }

  lemma NothingIsPrepared(live: Node, config: Protection)
    requires live.Dir?
    ensures PartlyPrepared(live, config, live)
  {
    NothingIsPartlyMade(live, config.stateDir);
  }

  lemma PreparedLabel(live: Node, config: Protection, q: Path)
    requires WithStaging(live, config).Some?
    ensures LabelAt(WithStaging(live, config).value, q) ==
            if Exists(live, q) then LabelAt(live, q)
            else if q <= config.stateDir || q <= config.stagingDir then Some(DirLabel(NEW_DIRECTORY)) else None
  {
    MakeDirsLabel(live, config.stateDir, q);
    MakeDirsLabel(WithState(live, config).value, config.stagingDir, q);
  }

  // ---------------------------------------------------------------------------------------
  // Restore into a new directory
  // ---------------------------------------------------------------------------------------

  predicate EmptyDir(tree: Node, path: Path) {
    IsDir(tree, path) && At(tree, path).value.entries == map[]
  }

  /** The target is absent or an empty directory, below existing real directories. */
  predicate TargetReady(live: Node, target: Path) {
    && target != []
    && IsDir(live, target[..|target| - 1])
    && (Exists(live, target) ==> EmptyDir(live, target))
  }

  /** Both directories can be created, and the target is found ready between the two steps. */
  predicate ReadyFor(live: Node, config: Protection, target: Path) {
    WithStaging(live, config).Some? && TargetReady(WithState(live, config).value, target)
  }

  /** The two directories exist, and the tree stands at the target. */
  ghost predicate Published(live0: Node, config: Protection, target: Path, tree: Option<Node>, live: Node) {
    && ReadyFor(live0, config, target)
    && TargetReady(WithStaging(live0, config).value, target)
    && live == Graft(WithStaging(live0, config).value, target, tree)
  }

  /** The two directories exist, and the empty target has been removed. */
  ghost predicate TargetGone(live0: Node, config: Protection, target: Path, live: Node) {
    EmptyDir(live0, target) && Published(live0, config, target, None, live)
  }

  /** Creating the staging directory, which a permitted target does not overlap, leaves the target ready. */
  lemma StaysReady(live: Node, config: Protection, target: Path)
    requires ReadyFor(live, config, target) && TargetPermitted(config, target)
    ensures TargetReady(WithStaging(live, config).value, target)
    ensures EmptyDir(WithStaging(live, config).value, target) <==> EmptyDir(live, target)
  {
    var planned := WithState(live, config).value;
    assert config.stateDir in config.Denied() && config.stagingDir in config.Denied();
    MakeDirsAt(live, config.stateDir, target);
    MakeDirsAt(planned, config.stagingDir, target);
    MakeDirsLabel(planned, config.stagingDir, target[..|target| - 1]);
  }

  /** An empty directory holds no path, and a directory that holds none is empty. */
  lemma EmptyDirHoldsNothing(tree: Node, path: Path)
    ensures EmptyDir(tree, path) <==> IsDir(tree, path) && forall name :: !Exists(tree, path + [name])
  {
    forall name ensures Exists(tree, path + [name]) <==>
                        IsDir(tree, path) && name in At(tree, path).value.entries {
      AtConcat(tree, path, [name]);
      if Exists(tree, path) { AtChild(At(tree, path).value, name); }
    }
    if IsDir(tree, path) && forall name :: !Exists(tree, path + [name]) {
      assert At(tree, path).value.entries == map[];
    }
  }

  /** A target where both directories can be made is ready if its parent is a real directory and it is
      absent or a directory without entries; and only then, up to parents that the state directory brings. */
  lemma ReadyTargetHoldsNothing(live: Node, config: Protection, target: Path)
    requires TargetPermitted(config, target) && WithStaging(live, config).Some? && target != []
    ensures ReadyFor(live, config, target) <==>
            && (IsDir(live, target[..|target| - 1]) ||
                (!Exists(live, target[..|target| - 1]) && target[..|target| - 1] <= config.stateDir))
            && (Exists(live, target) ==> IsDir(live, target) && forall name :: !Exists(live, target + [name]))
  {
    assert config.stateDir in config.Denied();
    MakeDirsAt(live, config.stateDir, target);
    MakeDirsLabel(live, config.stateDir, target[..|target| - 1]);
    EmptyDirHoldsNothing(live, target);
  }

  /** So publishing at the target, or removing it, loses nothing that existed. */
  lemma NothingIsLost(live0: Node, config: Protection, target: Path, tree: Option<Node>, live: Node, q: Path)
    requires Published(live0, config, target, tree, live) && Exists(live0, q) && q != target
    ensures LabelAt(live, q) == LabelAt(live0, q)
  {
    GraftLabel(WithStaging(live0, config).value, target, tree, q);
    PreparedLabel(live0, config, q);
    if target <= q {
      var made := WithStaging(live0, config).value;
      var name := q[|target|];
      assert Exists(made, q) && q[..|target|] == target;
      PrefixOfExisting(made, q, |target|);
      PrefixOfExisting(made, q, |target| + 1);
      assert q[..|target| + 1] == target + [name];
      EmptyDirHoldsNothing(made, target);
    }
  }

  lemma PublishedWhereNothingWas(live0: Node, config: Protection, target: Path, tree: Option<Node>, live: Node)
    requires Published(live0, config, target, tree, live) && TargetPermitted(config, target)
    ensures Exists(live0, target) ==> IsDir(live0, target) && forall name :: !Exists(live0, target + [name])
  {
    hide TargetPermitted;
    ReadyTargetHoldsNothing(live0, config, target);
  }

  class Host {
    var live: Node

    /** Which of the system calls fail for reasons outside the tree. */
    const ioFails: nat -> bool
    var calls: nat

    constructor (live: Node, ioFails: nat -> bool)
      ensures this.live == live && this.ioFails == ioFails
    {
      this.live, this.ioFails, this.calls := live, ioFails, 0;
    }

    ghost predicate Faulty() {
      exists n :: ioFails(n)
    }

    method SystemCallFails() returns (failed: bool)
      modifies this`calls
      ensures failed ==> Faulty()
    {
      failed := ioFails(calls);
      calls := calls + 1;
    }

    /** Removes an empty target and renames the staged tree to it without replacing anything. */
    method PublishDirectory(staged: Node, target: Path) returns (ok: bool)
      requires TargetReady(live, target)
      modifies this
      ensures ok ==> live == Graft(old(live), target, Some(staged))
      ensures !ok ==> Faulty()
      ensures !ok ==> live == old(live) || (EmptyDir(old(live), target) && live == Graft(old(live), target, None))
    {
      if Exists(live, target) {
        var failed := SystemCallFails();
        if failed { return false; }
        live := Graft(live, target, None);
      }
      GraftTwice(old(live), target, Some(staged));
      var failed := SystemCallFails();
      if failed { return false; }
      live := Graft(live, target, Some(staged));
      return true;
    }

    method CreateDirectory(path: Path) returns (ok: bool)
      requires live.Dir?
      modifies this
      ensures live.Dir? && (ok ==> MakeDirs(old(live), path) == Some(live))
      ensures !ok ==> PartlyMade(old(live), path, live) && (Faulty() || MakeDirs(old(live), path) == None)
    {
      ok, live, calls := CreateDirectories(live, path, ioFails, calls);
    }

    /** Success publishes the complete verified tree; every failure leaves the target as it was,
        except that its empty directory may be gone. */
    method RestoreNormalized(config: Protection, paths: seq<string>, name: string, target: Path,
                             limits: Limits, repository: Repository)
        returns (r: Option<Plan>)
      requires limits.Valid() && Acceptable(paths) && ExtractsTree(repository) && live.Dir?
      modifies this
      ensures r.Some? ==>
                && PlanFor(repository, name, paths, limits, r.value)
                && ExtractionTrusted(repository, r.value, limits)
                && TargetPermitted(config, target)
                && Published(old(live), config, target, repository.extracted, live)
      ensures r.None? ==>
                PartlyPrepared(old(live), config, live) || TargetGone(old(live), config, target, live)
      ensures r.None? && !Faulty() ==>
                && PartlyPrepared(old(live), config, live)
                && !(&& ReadyFor(old(live), config, target)
                     && TargetPermitted(config, target)
                     && exists plan :: PlanFor(repository, name, paths, limits, plan) &&
                                       ExtractionTrusted(repository, plan, limits))
    {
      hide PlanFor, ExtractionTrusted, TargetReady;
      NothingIsPartlyMade(live, config.stateDir);
      if target == [] {
        assert !ReadyFor(live, config, target) by { RootNotReady(live, config, target); }
        return None;
      }
      var permitted := EnsureTargetNotDenied(config, target);
      if !permitted { return None; }
      var created := CreateDirectory(config.stateDir);
      if !created { return None; }
      AllIsPartlyMade(old(live), config.stateDir, live);
      r := PlanRestore(repository, name, paths, limits);
      if r.None? || !TargetReady(live, target) { return None; }
      forall other | PlanFor(repository, name, paths, limits, other) ensures other == r.value {
        PlanUnique(repository, name, paths, limits, other, r.value);
      }
      created := CreateDirectory(config.stagingDir);
      if !created { return None; }
      AllIsPartlyMade(WithState(old(live), config).value, config.stagingDir, live);
      StaysReady(old(live), config, target);
      var tree := ExtractAndVerify(repository, r.value, limits);
      if tree.None? { return None; }
      var ok := PublishDirectory(tree.value, target);
      if !ok { return None; }
    }

    method Restore(config: Protection, configValid: bool, inputs: seq<string>, name: string, target: Path,
                   limits: Limits, repository: Repository)
        returns (r: Option<Plan>)
      requires limits.Valid() && ExtractsTree(repository) && live.Dir?
      modifies this
      ensures r.Some? ==>
                && InputsAccepted(config, configValid, inputs)
                && PlanFor(repository, name, NormalizedInputs(inputs), limits, r.value)
                && ExtractionTrusted(repository, r.value, limits)
                && TargetPermitted(config, target)
                && Published(old(live), config, target, repository.extracted, live)
      ensures !InputsAccepted(config, configValid, inputs) ==> live == old(live)
      ensures r.None? ==>
                PartlyPrepared(old(live), config, live) || TargetGone(old(live), config, target, live)
      ensures forall q :: Exists(old(live), q) && q != target ==> LabelAt(live, q) == LabelAt(old(live), q)
      ensures r.Some? && Exists(old(live), target) ==>
                IsDir(old(live), target) && forall name :: !Exists(old(live), target + [name])
      ensures r.None? && !Faulty() ==>
                && PartlyPrepared(old(live), config, live)
                && !(&& InputsAccepted(config, configValid, inputs)
                     && ReadyFor(old(live), config, target)
                     && TargetPermitted(config, target)
                     && exists plan :: PlanFor(repository, name, NormalizedInputs(inputs), limits, plan) &&
                                       ExtractionTrusted(repository, plan, limits))
    {
      hide PlanFor, ExtractionTrusted, ReadyFor, Published, InputsAccepted, TargetPermitted, PartlyPrepared;
      NothingIsPrepared(live, config);
      var paths := NormalizePaths(config, configValid, inputs);
      if paths.None? { return None; }
      r := RestoreNormalized(config, paths.value, name, target, limits, repository);
      forall q | Exists(old(live), q) && q != target ensures LabelAt(live, q) == LabelAt(old(live), q) {
        if r.Some? {
          NothingIsLost(old(live), config, target, repository.extracted, live, q);
        } else if PartlyPrepared(old(live), config, live) {
          PartlyPreparedLabel(old(live), config, live, q);
        } else {
          NothingIsLost(old(live), config, target, None, live, q);
        }
      }
      if r.Some? { PublishedWhereNothingWas(old(live), config, target, repository.extracted, live); }
    }
  }

  /** What a successful restore leaves at every path of the file system. */
  lemma RestoreChangesOnlyTheTarget(live0: Node, config: Protection, target: Path, tree: Node, live: Node, q: Path)
    requires Published(live0, config, target, Some(tree), live)
    ensures target <= q ==> LabelAt(live, q) == LabelAt(tree, q[|target|..])
    ensures !(target <= q) && Exists(live0, q) ==> LabelAt(live, q) == LabelAt(live0, q)
    ensures !(target <= q) && !Exists(live0, q) ==>
              LabelAt(live, q) ==
              if q <= config.stateDir || q <= config.stagingDir then Some(DirLabel(NEW_DIRECTORY)) else None
  {
    GraftLabel(WithStaging(live0, config).value, target, Some(tree), q);
    PreparedLabel(live0, config, q);
  }

  lemma PlanKeepsPaths(repository: Repository, name: string, paths: seq<string>, limits: Limits, plan: Plan)
    requires PlanFor(repository, name, paths, limits, plan)
    ensures plan.paths == paths
  {
  }

  lemma RootNotReady(live: Node, config: Protection, target: Path)
    requires target == []
    ensures !ReadyFor(live, config, target)
  {
  }

  lemma GraftTwice(tree: Node, path: Path, node: Option<Node>)
    requires path != [] && IsDir(tree, path[..|path| - 1])
    ensures IsDir(Graft(tree, path, None), path[..|path| - 1])
    ensures Graft(Graft(tree, path, None), path, node) == Graft(tree, path, node)
  {
    var parent := path[..|path| - 1];
    GraftLabel(tree, path, None, parent);
    assert LabelAt(Graft(tree, path, None), parent) == LabelAt(tree, parent);
    var once, twice := Graft(tree, path, node), Graft(Graft(tree, path, None), path, node);
    forall q: Path ensures LabelAt(once, q) == LabelAt(twice, q) {
      GraftLabel(tree, path, node, q);
      GraftLabel(Graft(tree, path, None), path, node, q);
      GraftLabel(tree, path, None, q);
    }
    LabelsDetermineTree(once, twice);
  }
}
