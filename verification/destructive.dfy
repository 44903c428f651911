/** The two restores that write over live data: exact replacement at the original paths, and the
    emergency merge into "/". */
module DestructiveRestore {
  import opened Paths
  import opened Selection
  import opened Planning
  import opened FileTree
  import opened Protected
  import opened Restore
  import opened Verification
  import opened Publication
  import opened Merge

  // ---------------------------------------------------------------------------------------
  // What a verified tree contains
  // ---------------------------------------------------------------------------------------

  lemma StagedPathIsPlanned(staged: Node, plan: Plan, limits: Limits, q: Path)
    requires WellNamed(staged) && Verification.Matches(staged, plan, limits)
    requires q != [] && Exists(staged, q)
    ensures NormalComponents(q) && Join(q) in plan.manifest && Split(Join(q)) == q
  {
    NodePathsExist(staged, q);
    WellNamedPath(staged, q);
    SplitNormal(q);
    assert q in ProperPaths(staged);
    assert Join(q) in TreeEntries(staged);
    assert Join(q) in Project(plan.manifest);
  }

  lemma PlannedPathIsStaged(staged: Node, plan: Plan, limits: Limits, path: string)
    requires WellNamed(staged) && Verification.Matches(staged, plan, limits)
    requires path in plan.manifest
    ensures Exists(staged, Split(path))
  {
    assert path in TreeEntries(staged);
    var q :| q in ProperPaths(staged) && Join(q) == path;
    NodePathsExist(staged, q);
    WellNamedPath(staged, q);
    SplitNormal(q);
  }

  /** A verified tree holds every selected path, although the listing may have shown only what lies
      below it. */
  lemma SelectedPathIsStaged(staged: Node, items: seq<ArchiveItem>, plan: Plan, limits: Limits, i: nat)
    requires WellNamed(staged) && Verification.Matches(staged, plan, limits)
    requires ManifestOf(items, plan.paths, plan.manifest) && EveryPathFound(items, plan.paths)
    requires i < |plan.paths|
    ensures Exists(staged, Split(plan.paths[i]))
  {
    hide Verification.Matches, WellNamed;
    var path := plan.paths[i];
    assert FoundIn(items, |items|, path);
    var k :| 0 <= k < |items| && ArchivePathMatches(items[k].path, path);
    assert PlanningIncludes(plan.paths, items[k].path);
    PlannedPathIsStaged(staged, plan, limits, items[k].path);
    MatchesIsComponentPrefix(items[k].path, path);
    var full := Split(items[k].path);
    assert full[..|Split(path)|] == Split(path);
    PrefixOfExisting(staged, full, |Split(path)|);
  }

  /** Both ends of every publication root exist once the restore is verified. */
  lemma RootsHaveBothEnds(live: Node, staged: Node, items: seq<ArchiveItem>, plan: Plan, limits: Limits, i: nat)
    requires live.Dir? && WellNamed(staged) && Verification.Matches(staged, plan, limits)
    requires ManifestOf(items, plan.paths, plan.manifest) && EveryPathFound(items, plan.paths)
    requires i < |plan.paths| && Anchored(live, Split(plan.paths[i]))
    ensures EndsExist(live, staged, RootOf(live, Split(plan.paths[i])))
  {
    hide Verification.Matches, ManifestOf, EveryPathFound, Anchored;
    SelectedPathIsStaged(staged, items, plan, limits, i);
    AnchoredHasBothEnds(live, staged, Split(plan.paths[i]));
  }

  lemma AnchoredHasBothEnds(live: Node, staged: Node, path: Path)
    requires live.Dir? && path != [] && Anchored(live, path) && Exists(staged, path)
    ensures EndsExist(live, staged, RootOf(live, path))
  {
    var root := RootOf(live, path);
    assert path[..|root|] == root;
    PrefixOfExisting(staged, path, |root|);
    PrefixOfExisting(staged, root, |root| - 1);
    if Exists(live, path) {
      RootOfExisting(live, path);
      PrefixOfExisting(live, path, |path| - 1);
    } else {
      MissingRootParent(live, path);
    }
  }

  lemma MissingRootParent(live: Node, path: Path)
    requires live.Dir? && path != [] && !Exists(live, path) && Anchored(live, path)
    ensures var root := RootOf(live, path); IsDir(live, root[..|root| - 1])
  {
    var k :| 0 <= k <= |path| && IsDir(live, path[..k]) && (k < |path| ==> !Exists(live, path[..k + 1]));
    assert path[..|path|] == path;
    forall m | k < m <= |path| ensures !Exists(live, path[..m]) {
      assert path[..m][..k + 1] == path[..k + 1];
      if Exists(live, path[..m]) { PrefixOfExisting(live, path[..m], k + 1); }
    }
    RootIsBelow(live, path, k);
    assert RootOf(live, path)[..k] == path[..k];
  }

  /** Nothing of a verified tree lies at or below a protected path. */
  lemma StagedAvoidsProtectedPaths(staged: Node, items: seq<ArchiveItem>, plan: Plan, limits: Limits,
                                   config: Protection, allowInventory: bool, denied: Path, q: Path)
    requires WellNamed(staged) && Verification.Matches(staged, plan, limits)
    requires ManifestOf(items, plan.paths, plan.manifest) && Acceptable(plan.paths)
    requires forall i :: 0 <= i < |plan.paths| ==>
               Accepted(config, Split(plan.paths[i]), allowInventory) &&
               !config.Exempt(Split(plan.paths[i]), allowInventory, denied)
    requires denied in config.Denied() && denied <= q
    ensures !Exists(staged, q)
  {
    assert Accepted(config, Split(plan.paths[0]), allowInventory);
    assert denied != [];
    if Exists(staged, q) {
      StagedPathIsPlanned(staged, plan, limits, q);
      PlannedNotBelowProtected(items, plan, config, allowInventory, denied, Join(q));
    }
  }

  lemma PlannedNotBelowProtected(items: seq<ArchiveItem>, plan: Plan, config: Protection, allowInventory: bool,
                                 denied: Path, path: string)
    requires ManifestOf(items, plan.paths, plan.manifest) && path in plan.manifest
    requires forall i :: 0 <= i < |plan.paths| ==>
               Accepted(config, Split(plan.paths[i]), allowInventory) &&
               !config.Exempt(Split(plan.paths[i]), allowInventory, denied)
    requires denied in config.Denied()
    ensures !(denied <= Split(path))
  {
    hide Accepted;
    if Selects(plan.paths, path) {
      var i :| 0 <= i < |plan.paths| && ArchivePathMatches(path, plan.paths[i]);
      AcceptedSelectionsAvoidProtectedPaths(config, plan.paths[i], allowInventory, path, denied);
    } else {
      assert IsAncestorOfSelection(plan.paths, path);
      var i :| 0 <= i < |plan.paths| && ProperAncestor(path, plan.paths[i]);
      AncestorsOfAcceptedSelectionsAreUnprotected(config, plan.paths[i], allowInventory, path, denied);
    }
  }

  // ---------------------------------------------------------------------------------------
  // Exact replacement at the original paths
  // ---------------------------------------------------------------------------------------

  /** `published` counts the roots that have been exchanged, in order. */
  datatype OriginalResult = Refused | Stopped(published: nat, roots: seq<string>, plan: Plan)
                          | Completed(roots: seq<string>, plan: Plan)

  ghost predicate OriginalPlanned(config: Protection, name: string, limits: Limits, repository: Repository,
                                  live: Node, roots: seq<string>, plan: Plan) {
    && PlanFor(repository, name, plan.paths, limits, plan)
    && ExtractionTrusted(repository, plan, limits)
    && Acceptable(plan.paths) && Antichain(plan.paths)
    && (forall p :: p in plan.paths ==> Accepted(config, Split(p), false))
    && (forall i :: 0 <= i < |plan.paths| ==> Anchored(live, Split(plan.paths[i])))
    && IsMinimalCover(RootNames(live, plan.paths), roots) && Antichain(roots)
  }

  /** The plan is for the canonical cover of what the operator typed. */
  ghost predicate OriginalRequested(inputs: seq<string>, plan: Plan) {
    IsMinimalCover(NormalizedInputs(inputs), plan.paths)
  }

  method AllPermitted(config: Protection, paths: seq<string>) returns (ok: bool)
    ensures ok <==> forall p :: p in paths ==> Accepted(config, Split(p), false)
  {
    for i := 0 to |paths|
      invariant forall k :: 0 <= k < i ==> Accepted(config, Split(paths[k]), false)
    {
      ok := EnsureNotDenied(config, Split(paths[i]), false);
      if !ok {
        assert paths[i] in paths;
        return;
      }
    }
    return true;
  }

  /** The state directory is created before the publication roots are computed, the restore staging
      directory after that. */
  method RestoreOriginal(disk: Disk, config: Protection, configValid: bool, inputs: seq<string>, name: string,
                         limits: Limits, repository: Repository, through: Path -> Stat)
      returns (r: OriginalResult)
    requires limits.Valid() && ExtractsTree(repository) && disk.live.Dir? && disk.stagingDir == config.stagingDir
    modifies disk
    ensures r.Refused? ==> PartlyPrepared(old(disk.live), config, disk.live)
    ensures !InputsAccepted(config, configValid, inputs) ==> disk.live == old(disk.live)
    ensures r.Refused? && !disk.Faulty() ==>
              !(&& InputsAccepted(config, configValid, inputs)
                && WithStaging(old(disk.live), config).Some?
                && exists roots, plan :: OriginalRequested(inputs, plan) &&
                     OriginalPlanned(config, name, limits, repository, WithState(old(disk.live), config).value,
                                     roots, plan))
    ensures !r.Refused? ==>
              && InputsAccepted(config, configValid, inputs)
              && WithStaging(old(disk.live), config).Some?
              && OriginalRequested(inputs, r.plan)
              && OriginalPlanned(config, name, limits, repository, WithState(old(disk.live), config).value,
                                 r.roots, r.plan)
    ensures r.Completed? ==>
              && Exchanged(WithStaging(old(disk.live), config).value, repository.extracted.value, r.roots,
                           disk.live, disk.staged)
              && RootsAvoid(r.roots, config.stagingDir)
    ensures r.Stopped? ==>
              && r.published < |r.roots|
              && Exchanged(WithStaging(old(disk.live), config).value, repository.extracted.value,
                           r.roots[..r.published], disk.live, disk.staged)
              && RootsAvoid(r.roots[..r.published], config.stagingDir)
              && (disk.Faulty() || Split(r.roots[r.published]) <= config.stagingDir)
    ensures !r.Refused? && !disk.Faulty() ==>
              (r.Completed? <==>
               forall p :: p in r.plan.paths ==>
                 !SharesMissingAncestor(WithState(old(disk.live), config).value, config.stagingDir, Split(p)))
  {
    hide PlanFor, ExtractionTrusted, Accepted, InputsAccepted, Anchored, SharesMissingAncestor, Exchanged, PartlyMade;
    ghost var live0 := disk.live;
    NothingIsPartlyMade(live0, config.stateDir);
    var normalized := NormalizePaths(config, configValid, inputs);
    if normalized.None? { return Refused; }
    var paths := MinimalRestorePaths(normalized.value);
    MinimalSelection(normalized.value, paths);
    forall other: Plan | OriginalRequested(inputs, other) ensures other.paths == paths {
      MinimalCoverUnique(normalized.value, normalized.value, other.paths, paths);
    }
    var permitted := AllPermitted(config, paths);
    if !permitted { return Refused; }
    var created := disk.CreateDirectory(config.stateDir);
    if !created { return Refused; }
    AllIsPartlyMade(live0, config.stateDir, disk.live);
    ghost var planned := disk.live;
    var plan := PlanRestore(repository, name, paths, limits);
    if plan.None? { return Refused; }
    PlanKeepsPaths(repository, name, paths, limits, plan.value);
    forall other | PlanFor(repository, name, paths, limits, other) ensures other == plan.value {
      PlanUnique(repository, name, paths, limits, other, plan.value);
    }
    var roots := OriginalPublicationPaths(disk.live, paths, through);
    if roots.None? { return Refused; }
    created := disk.CreateDirectory(config.stagingDir);
    if !created { return Refused; }
    AllIsPartlyMade(planned, config.stagingDir, disk.live);
    var tree := ExtractAndVerify(repository, plan.value, limits);
    if tree.None? { return Refused; }
    disk.staged := tree.value;
    ghost var made := disk.live;
    assert OriginalPlanned(config, name, limits, repository, planned, roots.value, plan.value);
    AllRootsHaveEnds(config, name, limits, repository, planned, made, roots.value, plan.value);
    RootsHoldStagingIff(config, name, limits, repository, planned, roots.value, plan.value);
    var published := disk.PublishOriginalPaths(roots.value);
    assert roots.value[..|roots.value|] == roots.value;
    return if published == |roots.value| then Completed(roots.value, plan.value)
           else Stopped(published, roots.value, plan.value);
  }

  ghost predicate RootsAvoid(roots: seq<string>, stagingDir: Path) {
    forall i :: 0 <= i < |roots| ==> !(Split(roots[i]) <= stagingDir)
  }

  lemma SomePathHasRoot(config: Protection, name: string, limits: Limits, repository: Repository,
                        live: Node, roots: seq<string>, plan: Plan, k: nat) returns (i: nat)
    requires OriginalPlanned(config, name, limits, repository, live, roots, plan) && k < |roots|
    ensures i < |plan.paths| && Split(roots[k]) == RootOf(live, Split(plan.paths[i]))
  {
    hide PlanFor, ExtractionTrusted, Anchored, Accepted;
    var names := RootNames(live, plan.paths);
    assert roots[k] in roots && roots[k] in names;
    i :| 0 <= i < |names| && names[i] == roots[k];
    RootNameSplits(live, plan.paths[i]);
  }

  /** Some root holds the staging directory exactly when some selected path shares a missing ancestor
      with it. */
  lemma RootsHoldStagingIff(config: Protection, name: string, limits: Limits, repository: Repository,
                            live: Node, roots: seq<string>, plan: Plan)
    requires OriginalPlanned(config, name, limits, repository, live, roots, plan) && live.Dir?
    ensures RootsAvoid(roots, config.stagingDir) <==>
            forall p :: p in plan.paths ==> !SharesMissingAncestor(live, config.stagingDir, Split(p))
  {
    hide PlanFor, ExtractionTrusted, Anchored, Accepted, SharesMissingAncestor;
    forall p | p in plan.paths
      ensures SharesMissingAncestor(live, config.stagingDir, Split(p)) <==> RootOf(live, Split(p)) <= config.stagingDir
    {
      RootHoldsStagingIff(live, config, Split(p));
    }
    if k: nat :| k < |roots| && Split(roots[k]) <= config.stagingDir {
      var i := SomePathHasRoot(config, name, limits, repository, live, roots, plan, k);
      assert plan.paths[i] in plan.paths;
    }
    if p :| p in plan.paths && SharesMissingAncestor(live, config.stagingDir, Split(p)) {
      var i :| 0 <= i < |plan.paths| && plan.paths[i] == p;
      EveryRootIsPublished(live, plan.paths, roots, i);
      RootNameSplits(live, p);
      var k :| 0 <= k < |roots| && roots[k] == Join(RootOf(live, Split(p)));
      assert Split(roots[k]) <= config.stagingDir;
    }
  }

  lemma MinimalSelection(paths: seq<string>, cover: seq<string>)
    requires Acceptable(paths) && IsMinimalCover(paths, cover)
    ensures Acceptable(cover) && Antichain(cover)
    ensures forall p :: p in cover ==> p in paths
    ensures forall p :: p in paths ==> CoveredBy(p, cover)
  {
    hide ValidArchivePath;
    forall p | p in paths ensures CoveredBy(p, cover) { MinimalCoverCovers(paths, cover, p); }
    assert CoveredBy(paths[0], cover);
    forall i | 0 <= i < |cover| ensures ValidArchivePath(cover[i]) { assert cover[i] in cover; }
    forall i, j | 0 <= i < |cover| && 0 <= j < |cover| && i != j ensures !ArchivePathMatches(cover[i], cover[j]) {
      assert cover[i] in cover && cover[j] in cover;
      if i < j { assert cover[i] != cover[j]; } else { assert cover[j] != cover[i]; }
    }
  }

  lemma AllRootsHaveEnds(config: Protection, name: string, limits: Limits, repository: Repository,
                         live0: Node, made: Node, roots: seq<string>, plan: Plan)
    requires OriginalPlanned(config, name, limits, repository, live0, roots, plan)
    requires ExtractsTree(repository) && live0.Dir? && MakeDirs(live0, config.stagingDir) == Some(made)
    ensures forall k :: 0 <= k < |roots| ==> EndsExist(made, repository.extracted.value, Split(roots[k]))
  {
    hide Anchored, ManifestOf, PlanAccepts, Accepted, Verification.Matches, EveryPathFound, EndsExist;
    PlannedIsAccepted(repository.listing.items, plan.paths, plan, limits);
    forall k | 0 <= k < |roots| ensures EndsExist(made, repository.extracted.value, Split(roots[k])) {
      var i := SomePathHasRoot(config, name, limits, repository, live0, roots, plan, k);
      RootsHaveBothEnds(live0, repository.extracted.value, repository.listing.items, plan, limits, i);
      EndsStay(live0, made, config.stagingDir, repository.extracted.value, Split(roots[k]));
    }
  }

  lemma EndsStay(live0: Node, made: Node, stagingDir: Path, staged: Node, root: Path)
    requires MakeDirs(live0, stagingDir) == Some(made) && EndsExist(live0, staged, root)
    ensures EndsExist(made, staged, root)
  {
    MakeDirsLabel(live0, stagingDir, root[..|root| - 1]);
  }

  lemma NotAbove(root: Path, q: Path, created: Path)
    requires root <= q && !(root <= created)
    ensures !(q <= created)
  {
    if q <= created { PrefixTransitive(root, q, created); }
  }

  /** Creating the staging directory leaves the roots that do not hold it as they were. */
  lemma RootsStay(live0: Node, made: Node, stagingDir: Path, path: Path)
    requires live0.Dir? && path != [] && MakeDirs(live0, stagingDir) == Some(made)
    requires !(RootOf(live0, path) <= stagingDir)
    ensures RootOf(made, path) == RootOf(live0, path)
    ensures forall q :: path <= q ==> LabelAt(made, q) == LabelAt(live0, q)
  {
    var root := RootOf(live0, path);
    forall q | root <= q ensures LabelAt(made, q) == LabelAt(live0, q) {
      NotAbove(root, q, stagingDir);
      MakeDirsLabel(live0, stagingDir, q);
    }
    forall q | path <= q ensures LabelAt(made, q) == LabelAt(live0, q) { PrefixTransitive(root, path, q); }
    if Exists(live0, path) {
      RootOfExisting(live0, path);
      assert LabelAt(made, path) == LabelAt(live0, path);
      RootOfExisting(made, path);
    } else {
      RootOfMissing(live0, path);
      assert LabelAt(made, root) == LabelAt(live0, root) && LabelAt(made, path) == LabelAt(live0, path);
      var parent := root[..|root| - 1];
      MakeDirsLabel(live0, stagingDir, parent);
      assert Exists(made, parent) && !Exists(made, root) && !Exists(made, path);
      assert root == path[..|root|];
      if |root| < |path| { RootOfPrefix(made, path, |root|); }
    }
  }

  /** From the moment the roots are computed to the end of a completed restore. */
  lemma PublicationSincePlanning(
      config: Protection, name: string, limits: Limits, repository: Repository,
      live0: Node, made: Node, roots: seq<string>, plan: Plan, live: Node, staged: Node, q: Path)
    requires live0.Dir? && OriginalPlanned(config, name, limits, repository, live0, roots, plan)
    requires MakeDirs(live0, config.stagingDir) == Some(made) && RootsAvoid(roots, config.stagingDir)
    requires Exchanged(made, repository.extracted.value, roots, live, staged)
    ensures SelectedAt(plan.paths, q) ==>
              LabelAt(live, q) == LabelAt(repository.extracted.value, q) && LabelAt(staged, q) == LabelAt(live0, q)
    ensures !SelectedAt(plan.paths, q) && Exists(live0, q) ==> LabelAt(live, q) == LabelAt(live0, q)
    ensures !SelectedAt(plan.paths, q) && !Exists(live0, q) ==>
              || LabelAt(live, q) == None
              || LabelAt(live, q) == LabelAt(repository.extracted.value, q)
              || (q <= config.stagingDir && LabelAt(live, q) == Some(DirLabel(NEW_DIRECTORY)))
    ensures Exists(live0, q) && LabelAt(live, q) != LabelAt(live0, q) ==> LabelAt(staged, q) == LabelAt(live0, q)
  {
    hide PlanFor, Verification.Matches, IdentifiesUniquely, Anchored, Accepted;
    MakeDirsLabel(live0, config.stagingDir, q);
    forall i | 0 <= i < |plan.paths|
      ensures RootOf(made, Split(plan.paths[i])) == RootOf(live0, Split(plan.paths[i]))
      ensures Split(plan.paths[i]) <= q ==> LabelAt(made, q) == LabelAt(live0, q)
    {
      EveryRootIsPublished(live0, plan.paths, roots, i);
      RootNameSplits(live0, plan.paths[i]);
      var k :| 0 <= k < |roots| && roots[k] == Join(RootOf(live0, Split(plan.paths[i])));
      RootsStay(live0, made, config.stagingDir, Split(plan.paths[i]));
    }
    assert RootNames(made, plan.paths) == RootNames(live0, plan.paths);
    hide Exchanged;
    PublicationReplacesTheSelection(made, repository.extracted.value, plan.paths, roots, live, staged, q);
    if !SelectedAt(plan.paths, q) && !Exists(live0, q) && Exists(made, q) { assert q <= config.stagingDir; }
  }

  /** The end-to-end statement of a completed original-path restore, for every path of the file system:
      `live0` is the file system at its beginning. */
  lemma OriginalRestoreReplacesExactlyTheSelection(
      config: Protection, name: string, limits: Limits, repository: Repository,
      live0: Node, roots: seq<string>, plan: Plan, live: Node, staged: Node, q: Path)
    requires live0.Dir? && WithStaging(live0, config).Some?
    requires OriginalPlanned(config, name, limits, repository, WithState(live0, config).value, roots, plan)
    requires RootsAvoid(roots, config.stagingDir)
    requires Exchanged(WithStaging(live0, config).value, repository.extracted.value, roots, live, staged)
    ensures SelectedAt(plan.paths, q) ==>
              LabelAt(live, q) == LabelAt(repository.extracted.value, q) && LabelAt(staged, q) == LabelAt(live0, q)
    ensures !SelectedAt(plan.paths, q) && Exists(live0, q) ==> LabelAt(live, q) == LabelAt(live0, q)
    ensures !SelectedAt(plan.paths, q) && !Exists(live0, q) ==>
              || LabelAt(live, q) == None
              || LabelAt(live, q) == LabelAt(repository.extracted.value, q)
              || ((q <= config.stateDir || q <= config.stagingDir) && LabelAt(live, q) == Some(DirLabel(NEW_DIRECTORY)))
    ensures Exists(live0, q) && LabelAt(live, q) != LabelAt(live0, q) ==> LabelAt(staged, q) == LabelAt(live0, q)
  {
    hide PlanFor, Verification.Matches, IdentifiesUniquely, Anchored, Exchanged;
    var planned, made := WithState(live0, config).value, WithStaging(live0, config).value;
    MakeDirsLabel(live0, config.stateDir, q);
    PublicationSincePlanning(config, name, limits, repository, planned, made, roots, plan, live, staged, q);
    forall i | 0 <= i < |plan.paths| && Split(plan.paths[i]) <= q ensures !(q <= config.stateDir) {
      assert plan.paths[i] in plan.paths && config.stateDir in config.Denied();
      NotAbove(Split(plan.paths[i]), q, config.stateDir);
    }
  }

  /** Whatever part of the roots was exchanged, nothing at or below a protected path has changed since
      `live0`, the file system at the beginning, except that the two directories have been created. */
  lemma ProtectedPathsSurviveOriginalRestore(
      config: Protection, name: string, limits: Limits, repository: Repository,
      live0: Node, roots: seq<string>, plan: Plan, k: nat, live: Node, staged: Node, denied: Path, q: Path)
    requires live0.Dir? && WithStaging(live0, config).Some?
    requires OriginalPlanned(config, name, limits, repository, WithState(live0, config).value, roots, plan)
    requires ExtractsTree(repository) && k <= |roots| && RootsAvoid(roots[..k], config.stagingDir)
    requires Exchanged(WithStaging(live0, config).value, repository.extracted.value, roots[..k], live, staged)
    requires denied in config.Denied() && denied <= q
    ensures LabelAt(live, q) ==
            if Exists(live0, q) then LabelAt(live0, q)
            else if q <= config.stateDir || q <= config.stagingDir then Some(DirLabel(NEW_DIRECTORY)) else None
  {
    hide Anchored, ManifestOf, PlanAccepts;
    PreparedLabel(live0, config, q);
    if Under(q, roots[..k]) {
      var planned := WithState(live0, config).value;
      var i :| 0 <= i < k && Split(roots[i]) <= q;
      assert Under(q, roots) by { assert Split(roots[i]) <= q; }
      forall j | 0 <= j < |plan.paths|
        ensures Accepted(config, Split(plan.paths[j]), false) && !config.Exempt(Split(plan.paths[j]), false, denied)
      {
        assert plan.paths[j] in plan.paths;
      }
      StagedAvoidsProtectedPaths(repository.extracted.value, repository.listing.items, plan, limits,
                                 config, false, denied, q);
      MakeDirsLabel(planned, config.stagingDir, q);
      assert roots[..k][i] == roots[i];
      NotAbove(Split(roots[i]), q, config.stagingDir);
      if Exists(planned, q) {
        UnderRootExisting(planned, plan.paths, roots, q);
        var j :| 0 <= j < |plan.paths| && Split(plan.paths[j]) <= q;
        assert Accepted(config, Split(plan.paths[j]), false);
        PrefixesComparable(denied, Split(plan.paths[j]), q);
      }
    }
  }

  // ---------------------------------------------------------------------------------------
  // The merge into "/"
  // ---------------------------------------------------------------------------------------

  datatype OverwriteResult = NotStarted | Merged(outcome: Outcome, plan: Plan)

  method RestoreOverwrite(volumes: Volumes, config: Protection, configValid: bool, inputs: seq<string>,
                          name: string, confirmed: bool, limits: Limits, repository: Repository)
      returns (r: OverwriteResult)
    requires limits.Valid() && ExtractsTree(repository) && volumes.live.Dir?
    modifies volumes
    ensures r.NotStarted? ==> PartlyPrepared(old(volumes.live), config, volumes.live)
    ensures !InputsAccepted(config, configValid, inputs) ==> volumes.live == old(volumes.live)
    ensures r.NotStarted? && !volumes.Faulty() ==>
              !(&& InputsAccepted(config, configValid, inputs)
                && WithStaging(old(volumes.live), config).Some?
                && confirmed
                && exists plan :: PlanFor(repository, name, NormalizedInputs(inputs), limits, plan) &&
                                  ExtractionTrusted(repository, plan, limits))
    ensures r.Merged? ==>
              && InputsAccepted(config, configValid, inputs) && confirmed
              && PlanFor(repository, name, NormalizedInputs(inputs), limits, r.plan)
              && ExtractionTrusted(repository, r.plan, limits)
              && Acceptable(r.plan.paths)
              && (forall p :: p in r.plan.paths ==> Accepted(config, Split(p), true))
              && WithStaging(old(volumes.live), config).Some?
              && var made := WithStaging(old(volumes.live), config).value;
              && volumes.live.Dir? && volumes.staged.Dir? && made.Dir?
              && volumes.live.meta == made.meta
              && Partial(made, repository.extracted.value, volumes.live, volumes.staged)
              && (r.outcome == Done ==>
                    volumes.live.entries == Overlay(made, repository.extracted.value).entries &&
                    volumes.staged.entries == map[])
              && (!volumes.Faulty() ==>
                    (r.outcome == Done <==> Compatible(made, repository.extracted.value)))
  {
    hide PlanFor, ExtractionTrusted, Accepted, InputsAccepted, Partial, Compatible, Overlay, PartlyMade;
    ghost var live0 := volumes.live;
    NothingIsPartlyMade(live0, config.stateDir);
    var paths := NormalizePaths(config, configValid, inputs);
    if paths.None? { return NotStarted; }
    var created := volumes.CreateDirectory(config.stateDir);
    if !created { return NotStarted; }
    AllIsPartlyMade(live0, config.stateDir, volumes.live);
    var plan := PlanRestore(repository, name, paths.value, limits);
    if plan.None? || !confirmed { return NotStarted; }
    PlanKeepsPaths(repository, name, paths.value, limits, plan.value);
    forall other | PlanFor(repository, name, paths.value, limits, other) ensures other == plan.value {
      PlanUnique(repository, name, paths.value, limits, other, plan.value);
    }
    created := volumes.CreateDirectory(config.stagingDir);
    if !created { return NotStarted; }
    AllIsPartlyMade(WithState(live0, config).value, config.stagingDir, volumes.live);
    var tree := ExtractAndVerify(repository, plan.value, limits);
    if tree.None? { return NotStarted; }
    volumes.staged := tree.value;
    var outcome := volumes.MergeIntoDirectory([]);
    assert volumes.staged == At(volumes.staged, []).value && volumes.live == At(volumes.live, []).value;
    return Merged(outcome, plan.value);
  }

  /** However far the merge got, nothing at or below a protected path has changed. In particular it
      never reaches the staging directory it reads from, although that lies inside "/". */
  lemma ProtectedPathsSurviveMerge(config: Protection, limits: Limits, items: seq<ArchiveItem>, plan: Plan,
                                   live0: Node, staged0: Node, live: Node, staged: Node, denied: Path, q: Path)
    requires WellNamed(staged0) && Verification.Matches(staged0, plan, limits)
    requires ManifestOf(items, plan.paths, plan.manifest) && Acceptable(plan.paths)
    requires AllDirs(live0, staged0, live, staged) && Partial(live0, staged0, live, staged)
    requires forall p :: p in plan.paths ==> Accepted(config, Split(p), true) && !config.Exempt(Split(p), true, denied)
    requires denied in config.Denied() && denied <= q
    ensures LabelAt(live, q) == LabelAt(live0, q)
  {
    hide ManifestOf, Accepted;
    forall j | 0 <= j < |plan.paths|
      ensures Accepted(config, Split(plan.paths[j]), true) && !config.Exempt(Split(plan.paths[j]), true, denied)
    {
      assert plan.paths[j] in plan.paths;
    }
    StagedAvoidsProtectedPaths(staged0, items, plan, limits, config, true, denied, q);
    PartialConserves(live0, staged0, live, staged, q);
  }

  /** Without I/O faults a compatible merge shows the staged tree wherever it has something, and the
      previous content everywhere else. */
  lemma OverwriteShowsTheOverlay(live0: Node, staged0: Node, live: Node, q: Path)
    requires live0.Dir? && staged0.Dir? && live.Dir? && live.meta == live0.meta
    requires Compatible(live0, staged0) && live.entries == Overlay(live0, staged0).entries
    requires q != []
    ensures LabelAt(live, q) == if Exists(staged0, q) then LabelAt(staged0, q) else LabelAt(live0, q)
  {
    OverlayLabel(live0, staged0, q);
    assert At(live, q) == At(Overlay(live0, staged0), q);
  }
}
