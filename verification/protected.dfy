/** Which restore selections and targets are refused because they touch protected paths. */
module Protected {
  import opened Paths
  import opened Selection

  const MAX_SELECTIONS := 10_000

  /** The configured paths a restore may not touch, as components below "/". */
  datatype Protection = Protection(
    deniedPaths: seq<Path>,
    passphraseFile: Path,
    sshKey: Path,
    knownHosts: Path,
    stateDir: Path,
    cacheDir: Path,
    indexPath: Path,
    stagingDir: Path,
    sourcePath: Option<Path>,
    maintenanceSshKey: Option<Path>,
    webhookFile: Option<Path>,
    dockerStaging: Option<Path>)
  {
    function Inventory(): Path { stateDir + ["inventory"] }

    function Denied(): seq<Path> {
      deniedPaths
      + [passphraseFile, sshKey, knownHosts, stateDir, cacheDir, indexPath, stagingDir]
      + (if sourcePath.Some? then [sourcePath.value] else [])
      + (if maintenanceSshKey.Some? then [maintenanceSshKey.value] else [])
      + (if webhookFile.Some? then [webhookFile.value] else [])
    }

    /** A selection inside the inventory is not held to the rule for the state directory. */
    predicate Exempt(path: Path, allowInventory: bool, denied: Path) {
      allowInventory && denied == stateDir && Inventory() <= path
    }
  }

  ghost predicate Accepted(config: Protection, path: Path, allowInventory: bool) {
    forall d :: d in config.Denied() && !config.Exempt(path, allowInventory, d) ==> !Overlap(path, d)
  }

  method EnsureNotDenied(config: Protection, path: Path, allowInventory: bool) returns (ok: bool)
    ensures ok <==> Accepted(config, path, allowInventory)
  {
    var denied := config.Denied();
    for i := 0 to |denied|
      invariant forall k :: 0 <= k < i && !config.Exempt(path, allowInventory, denied[k]) ==>
                  !Overlap(path, denied[k])
    {
      if config.Exempt(path, allowInventory, denied[i]) {
        continue;
      }
      if Overlap(path, denied[i]) {
        return false;
      }
    }
    return true;
  }

  /** Field by field: an accepted path lies apart from every denied path, from the credentials, from the
      state, cache, index and restore staging paths, and from the configuration itself. Only what is
      inside the inventory may lie inside the state directory, and only where that is allowed. */
  lemma AcceptedIsApart(config: Protection, path: Path, allowInventory: bool)
    ensures var apart := (d: Path) =>
              !Overlap(path, d) || (allowInventory && d == config.stateDir && config.stateDir + ["inventory"] <= path);
            Accepted(config, path, allowInventory) <==>
              && (forall d :: d in config.deniedPaths ==> apart(d))
              && apart(config.passphraseFile) && apart(config.sshKey) && apart(config.knownHosts)
              && apart(config.stateDir) && apart(config.cacheDir) && apart(config.indexPath)
              && apart(config.stagingDir)
              && (config.sourcePath.Some? ==> apart(config.sourcePath.value))
              && (config.maintenanceSshKey.Some? ==> apart(config.maintenanceSshKey.value))
              && (config.webhookFile.Some? ==> apart(config.webhookFile.value))
  {
    hide Overlap;
    DeniedMembers(config);
  }

  lemma DeniedMembers(config: Protection)
    ensures forall d :: d in config.Denied() <==>
              || d in config.deniedPaths
              || d == config.passphraseFile || d == config.sshKey || d == config.knownHosts
              || d == config.stateDir || d == config.cacheDir || d == config.indexPath || d == config.stagingDir
              || config.sourcePath == Some(d)
              || config.maintenanceSshKey == Some(d)
              || config.webhookFile == Some(d)
  {
  }

  /** Nothing an accepted selection can restore lies at, below or above a protected path. */
  lemma AcceptedSelectionsAvoidProtectedPaths(
      config: Protection, selected: string, allowInventory: bool, item: string, denied: Path)
    requires Accepted(config, Split(selected), allowInventory)
    requires ArchivePathMatches(item, selected)
    requires denied in config.Denied()
    ensures config.Exempt(Split(selected), allowInventory, denied) || !Overlap(Split(item), denied)
    ensures config.Exempt(Split(selected), allowInventory, denied) ==>
              allowInventory && denied == config.stateDir && config.Inventory() <= Split(item)
  {
    MatchesIsComponentPrefix(item, selected);
    if denied <= Split(item) {
      PrefixesComparable(denied, Split(selected), Split(item));
    }
  }

  /** The directories above an accepted selection, which a restore may create or re-own, are not
      protected themselves and lie inside nothing that is protected. */
  lemma AncestorsOfAcceptedSelectionsAreUnprotected(
      config: Protection, selected: string, allowInventory: bool, ancestor: string, denied: Path)
    requires Accepted(config, Split(selected), allowInventory)
    requires ProperAncestor(ancestor, selected)
    requires denied in config.Denied() && !config.Exempt(Split(selected), allowInventory, denied)
    ensures !(denied <= Split(ancestor))
  {
    MatchesIsComponentPrefix(selected, ancestor);
  }

  function StripRoot(input: string): string {
    if input != "" && input[0] == '/' then input[1..] else input
  }

  ghost predicate InputAccepted(config: Protection, input: string) {
    && !HasControl(input)
    && ValidArchivePath(StripRoot(input))
    && Accepted(config, Split(StripRoot(input)), true)
  }

  predicate Distinct<T(==)>(s: seq<T>) {
    forall i, j :: 0 <= i < j < |s| ==> s[i] != s[j]
  }

  /** The inputs without their leading slash, each at its first occurrence only. */
  function NormalizedInputs(inputs: seq<string>): seq<string> {
    if inputs == [] then []
    else
      var before, path := NormalizedInputs(inputs[..|inputs| - 1]), StripRoot(inputs[|inputs| - 1]);
      if path in before then before else before + [path]
  }

  lemma {:induction false} NormalizedInputsMembers(inputs: seq<string>)
    ensures Distinct(NormalizedInputs(inputs))
    ensures forall p :: p in NormalizedInputs(inputs) <==> exists i :: 0 <= i < |inputs| && p == StripRoot(inputs[i])
  {
    if inputs != [] {
      var n := |inputs| - 1;
      NormalizedInputsMembers(inputs[..n]);
      forall p ensures p in NormalizedInputs(inputs) <==> exists i :: 0 <= i < |inputs| && p == StripRoot(inputs[i]) {
        if i :| 0 <= i < |inputs| && p == StripRoot(inputs[i]) {
          assert i < n ==> inputs[..n][i] == inputs[i];
        }
      }
    }
  }

  /** Reading more inputs only appends, so the first occurrences keep their order. */
  lemma {:induction false} NormalizedInputsInOrder(inputs: seq<string>, n: nat)
    requires n <= |inputs|
    ensures NormalizedInputs(inputs[..n]) <= NormalizedInputs(inputs)
  {
    if n < |inputs| {
      var shorter := inputs[..|inputs| - 1];
      NormalizedInputsInOrder(shorter, n);
      assert shorter[..n] == inputs[..n];
    } else {
      assert inputs[..n] == inputs;
    }
  }

  /** One leading slash is dropped, and nothing else. */
  lemma StripRootMeaning(path: string)
    ensures StripRoot("/" + path) == path
    ensures !("/" <= path) ==> StripRoot(path) == path
  {
  }

  lemma NoInputs(inputs: seq<string>)
    ensures NormalizedInputs(inputs[..0]) == []
  {
  }

  lemma OneMoreInput(inputs: seq<string>, i: nat)
    requires i < |inputs|
    ensures var before, path := NormalizedInputs(inputs[..i]), StripRoot(inputs[i]);
            NormalizedInputs(inputs[..i + 1]) == if path in before then before else before + [path]
  {
    assert inputs[..i + 1][..i] == inputs[..i];
  }

  /** `configValid` stands for the configuration's own validation, which runs first. */
  ghost predicate InputsAccepted(config: Protection, configValid: bool, inputs: seq<string>) {
    && configValid
    && 0 < |inputs| <= 10_000
    && forall i :: 0 <= i < |inputs| ==> InputAccepted(config, inputs[i])
  }

  method NormalizePaths(config: Protection, configValid: bool, inputs: seq<string>)
      returns (r: Option<seq<string>>)
    ensures r.Some? <==> InputsAccepted(config, configValid, inputs)
    ensures r.Some? ==> r.value == NormalizedInputs(inputs)
    ensures r.Some? ==> Distinct(r.value) && Acceptable(r.value)
    ensures r.Some? ==> forall p :: p in r.value <==> exists i :: 0 <= i < |inputs| && p == StripRoot(inputs[i])
    ensures r.Some? ==> forall p :: p in r.value ==> Accepted(config, Split(p), true)
  {
    hide Accepted, HasControl, NormalizedInputs, StripRoot;
    NoInputs(inputs);
    if !configValid || inputs == [] || |inputs| > MAX_SELECTIONS { return None; }
    var normalized: seq<string> := [];
    for i := 0 to |inputs|
      invariant forall k :: 0 <= k < i ==> InputAccepted(config, inputs[k])
      invariant normalized == NormalizedInputs(inputs[..i])
      invariant forall p :: p in normalized ==> ValidArchivePath(p) && Accepted(config, Split(p), true)
    {
      OneMoreInput(inputs, i);
      var archivePath := StripRoot(inputs[i]);
      if HasControl(inputs[i]) || archivePath == "" || !ValidArchivePath(archivePath) { return None; }
      var permitted := EnsureNotDenied(config, Split(archivePath), true);
      if !permitted { return None; }
      if archivePath !in normalized {
        normalized := normalized + [archivePath];
      }
    }
    assert inputs[..|inputs|] == inputs;
    NormalizedInputsMembers(inputs);
    assert StripRoot(inputs[0]) in normalized;
    r := Some(normalized);
  }

  ghost predicate TargetPermitted(config: Protection, target: Path) {
    && Accepted(config, target, false)
    && (config.dockerStaging.Some? ==> !Overlap(target, config.dockerStaging.value))
  }

  method EnsureTargetNotDenied(config: Protection, target: Path) returns (ok: bool)
    ensures ok <==> TargetPermitted(config, target)
  {
    ok := EnsureNotDenied(config, target, false);
    if ok && config.dockerStaging.Some? {
      ok := !Overlap(target, config.dockerStaging.value);
    }
  }
}
