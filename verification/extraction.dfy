/** The planned manifest against what extraction with the `+ pp:` patterns would create. */
module Extraction {
  import opened Paths
  import opened Selection
  import opened Planning

  /** What Borg creates when nothing goes wrong: every item at or below a selection as it is in
      the archive, and a directory for each missing component above one of them. */
  ghost predicate IdealExtraction(archive: seq<ArchiveItem>, paths: seq<string>, ideal: map<string, Entry>) {
    && (forall path :: path in ideal <==> Reached(archive, paths, path))
    && (forall i :: 0 <= i < |archive| && Selects(paths, archive[i].path) ==>
          archive[i].path in ideal && ideal[archive[i].path] == Describe(archive[i]))
    && (forall path :: path in ideal && !ExtractedItem(archive, paths, path) ==> ideal[path] == DirectoryEntry)
  }

  ghost predicate ExtractedItem(archive: seq<ArchiveItem>, paths: seq<string>, path: string) {
    Selects(paths, path) && Listed(archive, path)
  }

  /** The path is an extracted item or lies above one. */
  ghost predicate Reached(archive: seq<ArchiveItem>, paths: seq<string>, path: string) {
    exists i :: 0 <= i < |archive| && Selects(paths, archive[i].path) && ArchivePathMatches(archive[i].path, path)
  }

  /** The archive lists each selected path and every directory between it and its descendants,
      unless that directory is planned anyway because it lies above another selection. */
  ghost predicate ListingComplete(archive: seq<ArchiveItem>, paths: seq<string>) {
    forall i, p, path ::
      0 <= i < |archive| && 0 <= p < |paths| && Between(archive[i].path, path, paths[p]) ==>
        Listed(archive, path) || IsAncestorOfSelection(paths, path)
  }

  ghost predicate Between(item: string, path: string, selected: string) {
    ArchivePathMatches(item, path) && ArchivePathMatches(path, selected)
  }

  lemma ReachedIsPlanned(archive: seq<ArchiveItem>, paths: seq<string>, manifest: map<string, ArchiveItem>,
                         path: string)
    requires ManifestOf(archive, paths, manifest)
    requires ListingComplete(archive, paths) && Reached(archive, paths, path)
    ensures path in manifest
  {
    var i :| 0 <= i < |archive| && Selects(paths, archive[i].path) && ArchivePathMatches(archive[i].path, path);
    var p :| 0 <= p < |paths| && ArchivePathMatches(archive[i].path, paths[p]);
    MatchesComparable(archive[i].path, path, paths[p]);
    if ArchivePathMatches(path, paths[p]) {
      assert Between(archive[i].path, path, paths[p]);
      if Listed(archive, path) {
        var k :| 0 <= k < |archive| && archive[k].path == path;
        assert Selects(paths, path);
      }
    } else {
      assert ProperAncestor(path, paths[p]);
    }
  }

  lemma PlannedIsReached(archive: seq<ArchiveItem>, paths: seq<string>, manifest: map<string, ArchiveItem>,
                         path: string)
    requires ManifestOf(archive, paths, manifest) && EveryPathFound(archive, paths)
    requires path in manifest
    ensures Reached(archive, paths, path)
  {
    if IsAncestorOfSelection(paths, path) {
      var p :| 0 <= p < |paths| && ProperAncestor(path, paths[p]);
      assert FoundIn(archive, |archive|, paths[p]);
      var i :| 0 <= i < |archive| && ArchivePathMatches(archive[i].path, paths[p]);
      MatchesTransitive(archive[i].path, paths[p], path);
    } else {
      var i :| 0 <= i < |archive| && archive[i].path == path;
    }
  }

  lemma PlannedEntry(archive: seq<ArchiveItem>, paths: seq<string>, manifest: map<string, ArchiveItem>,
                     ideal: map<string, Entry>, path: string)
    requires ManifestOf(archive, paths, manifest) && IdealExtraction(archive, paths, ideal)
    requires ScannedFit(archive, |archive|, paths)
    requires path in manifest && path in ideal
    ensures Describe(manifest[path]) == ideal[path]
  {
    hide ArchivePathMatches, ValidArchivePath, Selects, IsAncestorOfSelection, Reached;
    if Listed(archive, path) && PlanningIncludes(paths, path) {
      var i :| 0 <= i < |archive| && archive[i].path == path;
      assert PlanningIncludes(paths, archive[i].path);
      assert manifest[path] == archive[i] && ItemFits(archive[i], paths);
      if !Selects(paths, path) { assert ideal[path] == DirectoryEntry; }
    } else {
      assert manifest[path] == SyntheticDirectory(path);
      assert ideal[path] == DirectoryEntry;
    }
  }

  lemma CompleteListingMakesPlanExact(archive: seq<ArchiveItem>, paths: seq<string>,
                                      manifest: map<string, ArchiveItem>, ideal: map<string, Entry>)
    requires ManifestOf(archive, paths, manifest) && IdealExtraction(archive, paths, ideal)
    requires ScannedFit(archive, |archive|, paths) && EveryPathFound(archive, paths)
    requires ListingComplete(archive, paths)
    ensures Project(manifest) == ideal
  {
    hide ManifestOf, ScannedFit, EveryPathFound, ListingComplete, Reached, Describe;
    forall path ensures path in manifest <==> path in ideal {
      if path in ideal { ReachedIsPlanned(archive, paths, manifest, path); }
      if path in manifest { PlannedIsReached(archive, paths, manifest, path); }
    }
    forall path | path in manifest ensures Describe(manifest[path]) == ideal[path] {
      PlannedEntry(archive, paths, manifest, ideal, path);
    }
  }

  lemma SamePathsMeanCompleteListing(archive: seq<ArchiveItem>, paths: seq<string>,
                                     manifest: map<string, ArchiveItem>, ideal: map<string, Entry>)
    requires ManifestOf(archive, paths, manifest) && IdealExtraction(archive, paths, ideal)
    requires manifest.Keys == ideal.Keys
    ensures ListingComplete(archive, paths)
  {
    hide PlanningIncludes, ArchivePathMatches, IsAncestorOfSelection, Listed, ManifestOf, IdealExtraction;
    forall i, p, path |
      0 <= i < |archive| && 0 <= p < |paths| && Between(archive[i].path, path, paths[p])
      ensures Listed(archive, path) || IsAncestorOfSelection(paths, path)
    {
      BetweenIsPlanned(archive, paths, manifest, ideal, i, p, path);
    }
  }

  lemma BetweenIsPlanned(archive: seq<ArchiveItem>, paths: seq<string>, manifest: map<string, ArchiveItem>,
                         ideal: map<string, Entry>, i: nat, p: nat, path: string)
    requires ManifestOf(archive, paths, manifest) && IdealExtraction(archive, paths, ideal)
    requires manifest.Keys == ideal.Keys
    requires i < |archive| && p < |paths| && Between(archive[i].path, path, paths[p])
    ensures Listed(archive, path) || IsAncestorOfSelection(paths, path)
  {
    hide PlanningIncludes, ArchivePathMatches, IsAncestorOfSelection, Listed;
    MatchesTransitive(archive[i].path, path, paths[p]);
    assert Selects(paths, archive[i].path);
    assert Reached(archive, paths, path);
    assert path in ideal;
    assert path in manifest.Keys;
  }

  /** The manifest describes the ideal extraction exactly when the listing is complete. */
  lemma PlanExactForExtraction(archive: seq<ArchiveItem>, paths: seq<string>,
                               manifest: map<string, ArchiveItem>, ideal: map<string, Entry>)
    requires ManifestOf(archive, paths, manifest) && IdealExtraction(archive, paths, ideal)
    requires ScannedFit(archive, |archive|, paths) && EveryPathFound(archive, paths)
    ensures manifest.Keys == ideal.Keys <==> ListingComplete(archive, paths)
    ensures Project(manifest) == ideal <==> ListingComplete(archive, paths)
  {
    hide ManifestOf, IdealExtraction, ScannedFit, EveryPathFound, ListingComplete;
    if ListingComplete(archive, paths) {
      CompleteListingMakesPlanExact(archive, paths, manifest, ideal);
    }
    if manifest.Keys == ideal.Keys {
      SamePathsMeanCompleteListing(archive, paths, manifest, ideal);
    }
  }

  /** Everything above a selection is planned as a directory. */
  lemma AncestorsArePlannedDirectories(archive: seq<ArchiveItem>, paths: seq<string>,
                                       manifest: map<string, ArchiveItem>, ancestor: string)
    requires ManifestOf(archive, paths, manifest) && ScannedFit(archive, |archive|, paths)
    requires IsAncestorOfSelection(paths, ancestor)
    ensures ancestor in manifest && manifest[ancestor].kind == Directory
  {
    if Listed(archive, ancestor) {
      var i :| 0 <= i < |archive| && archive[i].path == ancestor;
    }
  }

  // ---------------------------------------------------------------------------------------
  // The backend delivers only what its selector includes
  // ---------------------------------------------------------------------------------------

  function Delivered(archive: seq<ArchiveItem>, paths: seq<string>): seq<ArchiveItem> {
    if archive == [] then []
    else (if PlanningIncludes(paths, archive[0].path) then [archive[0]] else []) + Delivered(archive[1..], paths)
  }

  lemma {:induction false} DeliveredMembers(archive: seq<ArchiveItem>, paths: seq<string>)
    ensures forall item :: item in Delivered(archive, paths) <==> item in archive && PlanningIncludes(paths, item.path)
  {
    hide PlanningIncludes;
    if archive != [] {
      DeliveredMembers(archive[1..], paths);
      assert archive == [archive[0]] + archive[1..];
    }
  }

  lemma SameRelevantItems(a: seq<ArchiveItem>, b: seq<ArchiveItem>, paths: seq<string>,
                          manifest: map<string, ArchiveItem>)
    requires forall item: ArchiveItem :: PlanningIncludes(paths, item.path) ==> (item in a <==> item in b)
    requires ManifestOf(a, paths, manifest)
    ensures ManifestOf(b, paths, manifest)
  {
    hide PlanningIncludes, IsAncestorOfSelection;
    forall i | 0 <= i < |b| && PlanningIncludes(paths, b[i].path)
      ensures b[i].path in manifest && manifest[b[i].path] == b[i]
    {
      assert b[i] in b && b[i] in a;
      var k :| 0 <= k < |a| && a[k] == b[i];
    }
    forall path | PlanningIncludes(paths, path) && Listed(a, path) ensures Listed(b, path) {
      var i :| 0 <= i < |a| && a[i].path == path;
      assert a[i] in a && a[i] in b;
      var k :| 0 <= k < |b| && b[k] == a[i];
      assert b[k].path == path;
    }
  }

  /** Planning on the filtered stream is planning on the whole archive. */
  lemma DeliveryKeepsTheManifest(archive: seq<ArchiveItem>, paths: seq<string>, manifest: map<string, ArchiveItem>)
    ensures ManifestOf(Delivered(archive, paths), paths, manifest) <==> ManifestOf(archive, paths, manifest)
  {
    hide PlanningIncludes, ManifestOf, Delivered;
    var delivered := Delivered(archive, paths);
    DeliveredMembers(archive, paths);
    if ManifestOf(archive, paths, manifest) { SameRelevantItems(archive, delivered, paths, manifest); }
    if ManifestOf(delivered, paths, manifest) { SameRelevantItems(delivered, archive, paths, manifest); }
  }
}
