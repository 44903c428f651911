/** The live manifest: which archive items a restore must produce, and within which limits. */
module Planning {
  import opened Paths
  import opened Selection

  const U64_MAX := 0xFFFF_FFFF_FFFF_FFFF

  datatype FileType =
    | File | Directory | Symlink
    | Fifo | BlockDevice | CharDevice | Socket | Other
  {
    predicate IsSpecial() { !File? && !Directory? && !Symlink? }
  }

  datatype ArchiveItem = ArchiveItem(path: string, kind: FileType, size: nat, linkTarget: Option<string>)

  datatype Snapshot = Snapshot(name: string, id: string)

  /** The bounds that configuration validation puts on the restore limits. */
  const MAX_MAX_FILES := 10_000_000
  const MAX_MAX_BYTES := 10 * 1024 * 1024 * 1024 * 1024 * 1024

  datatype Limits = Limits(maxFiles: nat, maxBytes: nat) {
    predicate Valid() { maxFiles <= MAX_MAX_FILES && maxBytes <= MAX_MAX_BYTES }
  }

  datatype Plan = Plan(
    snapshot: string,
    snapshotId: string,
    paths: seq<string>,
    files: nat,
    bytes: nat,
    manifest: map<string, ArchiveItem>)

  /** A backend stream: the items it delivered, and whether it ended without an error. */
  datatype Listing = Listing(items: seq<ArchiveItem>, complete: bool)

  // ---------------------------------------------------------------------------------------
  // Entries and their total size
  // ---------------------------------------------------------------------------------------

  /** What verification can observe of one path: sizes of files and targets of links only. */
  datatype Entry = Entry(kind: FileType, size: nat, linkTarget: Option<string>)

  const DirectoryEntry := Entry(Directory, 0, None)

  function Describe(item: ArchiveItem): Entry {
    match item.kind
    case File => Entry(File, item.size, None)
    case Symlink => Entry(Symlink, 0, item.linkTarget)
    case _ => Entry(item.kind, 0, None)
  }

  function Project(manifest: map<string, ArchiveItem>): (r: map<string, Entry>)
    ensures r.Keys == manifest.Keys
  {
    map path | path in manifest :: Describe(manifest[path])
  }

  lemma ProjectSize(manifest: map<string, ArchiveItem>)
    ensures |Project(manifest)| == |manifest|
  {
    assert |Project(manifest)| == |Project(manifest).Keys| && |manifest| == |manifest.Keys|;
  }

  ghost function TotalSize(entries: map<string, Entry>): nat {
    if entries == map[] then 0
    else
      var path :| path in entries;
      entries[path].size + TotalSize(entries - {path})
  }

  lemma {:induction false} TotalSizeWithout(entries: map<string, Entry>, path: string)
    requires path in entries
    ensures TotalSize(entries) == entries[path].size + TotalSize(entries - {path})
    decreases |entries|
  {
    var first :| first in entries && TotalSize(entries) == entries[first].size + TotalSize(entries - {first});
    if first != path {
      TotalSizeWithout(entries - {first}, path);
      TotalSizeWithout(entries - {path}, first);
      assert entries - {first} - {path} == entries - {path} - {first};
    }
  }

  lemma TotalSizeInsert(entries: map<string, Entry>, path: string, entry: Entry)
    requires path !in entries
    ensures TotalSize(entries[path := entry]) == TotalSize(entries) + entry.size
    ensures |entries[path := entry]| == |entries| + 1
  {
    var larger := entries[path := entry];
    TotalSizeWithout(larger, path);
    assert larger - {path} == entries;
  }

  ghost predicate SubMap<K, V>(small: map<K, V>, large: map<K, V>) {
    forall k :: k in small ==> k in large && large[k] == small[k]
  }

  lemma {:induction false} SubMapSize(small: map<string, Entry>, large: map<string, Entry>)
    requires SubMap(small, large)
    ensures TotalSize(small) <= TotalSize(large)
    ensures |small| <= |large|
    decreases |large|
  {
    if large == map[] {
      assert small == map[];
    } else {
      var path :| path in large;
      TotalSizeWithout(large, path);
      if path in small {
        TotalSizeWithout(small, path);
        SubMapSize(small - {path}, large - {path});
      } else {
        assert small - {path} == small;
        SubMapSize(small, large - {path});
      }
    }
  }

  // ---------------------------------------------------------------------------------------
  // The manifest of a selection
  // ---------------------------------------------------------------------------------------

  function SyntheticDirectory(path: string): ArchiveItem {
    ArchiveItem(path, Directory, 0, None)
  }

  function AncestorSet(paths: seq<string>): set<string> {
    if paths == [] then {} else AncestorSet(paths[..|paths| - 1]) + Ancestors(paths[|paths| - 1])
  }

  lemma {:induction false} AncestorSetMember(paths: seq<string>, a: string)
    requires forall i :: 0 <= i < |paths| ==> ValidArchivePath(paths[i])
    ensures a in AncestorSet(paths) <==> IsAncestorOfSelection(paths, a)
  {
    if paths != [] {
      var n := |paths| - 1;
      AncestorSetMember(paths[..n], a);
      AncestorsAreProper(paths[n], a);
      if i :| 0 <= i < n && ProperAncestor(a, paths[..n][i]) { assert ProperAncestor(a, paths[i]); }
      if i :| 0 <= i < |paths| && ProperAncestor(a, paths[i]) {
        if i < n { assert ProperAncestor(a, paths[..n][i]); }
      }
    }
  }

  lemma {:induction false} AncestorSetPrefix(paths: seq<string>, i: nat)
    requires i <= |paths|
    ensures AncestorSet(paths[..i]) <= AncestorSet(paths)
    decreases |paths|
  {
    if i < |paths| {
      var shorter := paths[..|paths| - 1];
      AncestorSetPrefix(shorter, i);
      assert shorter[..i] == paths[..i];
    } else {
      assert paths[..i] == paths;
    }
  }

  ghost predicate Listed(items: seq<ArchiveItem>, path: string) {
    exists i :: 0 <= i < |items| && items[i].path == path
  }

  /** The manifest holds every relevant item under its path, and an empty-handed directory for
      each proper ancestor of a selection that was not listed; nothing else. */
  ghost predicate ManifestOf(items: seq<ArchiveItem>, paths: seq<string>, manifest: map<string, ArchiveItem>) {
    && (forall i :: 0 <= i < |items| && PlanningIncludes(paths, items[i].path) ==>
          items[i].path in manifest && manifest[items[i].path] == items[i])
    && (forall a :: IsAncestorOfSelection(paths, a) ==> a in manifest)
    && (forall path :: path in manifest ==>
          || (PlanningIncludes(paths, path) && Listed(items, path))
          || (IsAncestorOfSelection(paths, path) && manifest[path] == SyntheticDirectory(path)))
  }

  lemma ManifestUnique(items: seq<ArchiveItem>, paths: seq<string>,
                       a: map<string, ArchiveItem>, b: map<string, ArchiveItem>)
    requires ManifestOf(items, paths, a) && ManifestOf(items, paths, b)
    ensures a == b
  {
    ManifestSubMap(items, paths, a, b);
    ManifestSubMap(items, paths, b, a);
  }

  lemma ManifestSubMap(items: seq<ArchiveItem>, paths: seq<string>,
                       a: map<string, ArchiveItem>, b: map<string, ArchiveItem>)
    requires ManifestOf(items, paths, a) && ManifestOf(items, paths, b)
    ensures SubMap(a, b)
  {
    forall path | path in a ensures path in b && b[path] == a[path] {
      if Listed(items, path) && PlanningIncludes(paths, path) {
        var i :| 0 <= i < |items| && items[i].path == path;
      }
    }
  }

  predicate ItemFits(item: ArchiveItem, paths: seq<string>) {
    && (IsAncestorOfSelection(paths, item.path) ==> item.kind == Directory)
    && !item.kind.IsSpecial()
  }

  /** Files, directories and links can be restored, and only directories above a selection. */
  lemma FittingKinds(item: ArchiveItem, paths: seq<string>)
    ensures ItemFits(item, paths) <==>
            && (item.kind == File || item.kind == Directory || item.kind == Symlink)
            && ((exists i :: 0 <= i < |paths| && ProperAncestor(item.path, paths[i])) ==> item.kind == Directory)
  {
  }

  ghost predicate WithinLimits(manifest: map<string, ArchiveItem>, limits: Limits) {
    |manifest| <= limits.maxFiles && TotalSize(Project(manifest)) <= limits.maxBytes
  }

  ghost predicate FoundIn(items: seq<ArchiveItem>, n: nat, path: string)
    requires n <= |items|
  {
    exists i :: 0 <= i < n && ArchivePathMatches(items[i].path, path)
  }

  ghost predicate EveryPathFound(items: seq<ArchiveItem>, paths: seq<string>) {
    forall p :: 0 <= p < |paths| ==> FoundIn(items, |items|, paths[p])
  }

  /** Exactly when a delivered listing can be restored. */
  ghost predicate PlanAccepts(items: seq<ArchiveItem>, paths: seq<string>, limits: Limits) {
    && |items| < 0x1_0000_0000_0000_0000
    && (forall i :: 0 <= i < |items| ==> ValidArchivePath(items[i].path))
    && (forall i :: 0 <= i < |items| && PlanningIncludes(paths, items[i].path) ==> ItemFits(items[i], paths))
    && (forall i, j :: 0 <= i < j < |items| && PlanningIncludes(paths, items[i].path) ==>
          items[i].path != items[j].path)
    && EveryPathFound(items, paths)
    && (exists manifest :: ManifestOf(items, paths, manifest) && WithinLimits(manifest, limits))
  }

  predicate IsHexDigit(c: char) {
    '0' <= c <= '9' || 'a' <= c <= 'f' || 'A' <= c <= 'F'
  }

  predicate ValidArchiveId(id: string) {
    |id| == 64 && forall i :: 0 <= i < |id| ==> IsHexDigit(id[i])
  }

  lemma ArchiveIdDigits(id: string)
    ensures ValidArchiveId(id) <==> |id| == 64 && forall c :: c in id ==> c in "0123456789abcdefABCDEF"
  {
    if forall c :: c in id ==> c in "0123456789abcdefABCDEF" {
      forall i | 0 <= i < |id| ensures IsHexDigit(id[i]) { assert id[i] in id; }
    }
    if forall i :: 0 <= i < |id| ==> IsHexDigit(id[i]) {
      forall c | c in id ensures c in "0123456789abcdefABCDEF" { HexDigit(c); }
    }
  }

  lemma HexDigit(c: char)
    ensures IsHexDigit(c) <==> c in "0123456789abcdefABCDEF"
  {
    if '0' <= c <= '9' {
      assert "0123456789abcdefABCDEF"[c as int - '0' as int] == c;
    } else if 'a' <= c <= 'f' {
      assert "0123456789abcdefABCDEF"[10 + c as int - 'a' as int] == c;
    } else if 'A' <= c <= 'F' {
      assert "0123456789abcdefABCDEF"[16 + c as int - 'A' as int] == c;
    }
  }

  /** The one snapshot of that name. */
  ghost predicate IdentifiesUniquely(snapshots: seq<Snapshot>, name: string, id: string) {
    exists i :: 0 <= i < |snapshots| && snapshots[i] == Snapshot(name, id) &&
                forall j :: 0 <= j < |snapshots| && snapshots[j].name == name ==> j == i
  }

  /** The manifest with a synthetic directory for each of these paths that it does not hold. */
  ghost function WithDirectories(manifest: map<string, ArchiveItem>,
                                 directories: set<string>): (r: map<string, ArchiveItem>)
    ensures r.Keys == manifest.Keys + directories
  {
    map path | path in manifest.Keys + directories ::
      if path in manifest then manifest[path] else SyntheticDirectory(path)
  }

  /** Those of these paths that the manifest does not hold. */
  ghost function Missing(manifest: map<string, ArchiveItem>, directories: set<string>): set<string> {
    set path | path in directories && path !in manifest
  }

  lemma MissingTwice(manifest: map<string, ArchiveItem>, first: set<string>, second: set<string>)
    ensures WithDirectories(WithDirectories(manifest, first), second) == WithDirectories(manifest, first + second)
    ensures |Missing(manifest, first + second)| ==
            |Missing(manifest, first)| + |Missing(WithDirectories(manifest, first), second)|
  {
    var a, b := Missing(manifest, first), Missing(WithDirectories(manifest, first), second);
    assert a !! b;
    assert Missing(manifest, first + second) == a + b;
  }

  lemma OneMore<T>(added: set<T>, x: T, wanted: set<T>)
    requires added <= wanted && x in wanted && x !in added
    ensures |added + {x}| == |added| + 1 <= |wanted|
  {
    Subset(added + {x}, wanted);
  }

  lemma OneMoreDirectory(manifest: map<string, ArchiveItem>, added: set<string>, a: string)
    requires a !in manifest
    ensures WithDirectories(manifest, added)[a := SyntheticDirectory(a)] == WithDirectories(manifest, added + {a})
  {
  }

  lemma OnlyMissingCount(manifest: map<string, ArchiveItem>, directories: set<string>)
    ensures WithDirectories(manifest, Missing(manifest, directories)) == WithDirectories(manifest, directories)
  {
  }

  lemma Climb(path: string)
    requires path != ""
    ensures |Parent(path)| < |path|
    ensures forall a :: a in AtAndAbove(path) <==> a == path || a in AtAndAbove(Parent(path))
  {
  }

  lemma ClimbedOut()
    ensures AtAndAbove("") == {}
  {
  }

  lemma NoDirectories(manifest: map<string, ArchiveItem>)
    ensures WithDirectories(manifest, {}) == manifest
  {
  }

  method AddAncestorsOf(path: string, manifest: map<string, ArchiveItem>, files: nat, maxFiles: nat)
      returns (ok: bool, grown: map<string, ArchiveItem>, count: nat)
    requires ValidArchivePath(path)
    ensures var missing := Missing(manifest, Ancestors(path));
            && (ok <==> missing == {} || files + |missing| <= maxFiles)
            && (ok ==> grown == WithDirectories(manifest, Ancestors(path)) && count == files + |missing|)
  {
    hide WithDirectories, ValidArchivePath, AtAndAbove, Parent;
    ok, grown, count := true, manifest, files;
    NoDirectories(manifest);
    ghost var missing := Missing(manifest, Ancestors(path));
    ghost var added: set<string> := {};
    var ancestor := Parent(path);
    while ancestor != ""
      invariant forall a :: a in missing && a !in added ==> a in AtAndAbove(ancestor)
      invariant forall a :: a in AtAndAbove(ancestor) ==> a in Ancestors(path)
      invariant added <= missing
      invariant ok && grown == WithDirectories(manifest, added)
      invariant count == files + |added|
      invariant added != {} ==> count <= maxFiles
      decreases |ancestor|
    {
      Climb(ancestor);
      if ancestor !in grown {
        OneMore(added, ancestor, missing);
        OneMoreDirectory(manifest, added, ancestor);
        if count + 1 > maxFiles { ok := false; return; }
        count := count + 1;
        added := added + {ancestor};
        grown := grown[ancestor := SyntheticDirectory(ancestor)];
      }
      ancestor := Parent(ancestor);
    }
    ClimbedOut();
    assert added == missing;
    OnlyMissingCount(manifest, Ancestors(path));
  }

  method AddSyntheticAncestors(paths: seq<string>, manifest: map<string, ArchiveItem>, files: nat, maxFiles: nat)
      returns (ok: bool, grown: map<string, ArchiveItem>, count: nat)
    requires forall i :: 0 <= i < |paths| ==> ValidArchivePath(paths[i])
    ensures var missing := Missing(manifest, AncestorSet(paths));
            && (ok <==> missing == {} || files + |missing| <= maxFiles)
            && (ok ==> grown == WithDirectories(manifest, AncestorSet(paths)) && count == files + |missing|)
  {
    ok, grown, count := true, manifest, files;
    assert AncestorSet(paths[..0]) == {};
    assert grown == WithDirectories(manifest, {});
    for i := 0 to |paths|
      invariant ok && grown == WithDirectories(manifest, AncestorSet(paths[..i]))
      invariant count == files + |Missing(manifest, AncestorSet(paths[..i]))|
      invariant Missing(manifest, AncestorSet(paths[..i])) != {} ==> count <= maxFiles
    {
      AncestorSetPrefix(paths, i + 1);
      assert paths[..i + 1][..i] == paths[..i];
      MissingTwice(manifest, AncestorSet(paths[..i]), Ancestors(paths[i]));
      Subset(Missing(manifest, AncestorSet(paths[..i + 1])), Missing(manifest, AncestorSet(paths)));
      ok, grown, count := AddAncestorsOf(paths[i], grown, count, maxFiles);
      if !ok { return; }
    }
    assert paths[..|paths|] == paths;
  }

  // ---------------------------------------------------------------------------------------
  // Planning
  // ---------------------------------------------------------------------------------------

  function Matching(snapshots: seq<Snapshot>, name: string): seq<Snapshot> {
    if snapshots == [] then []
    else (if snapshots[0].name == name then [snapshots[0]] else []) + Matching(snapshots[1..], name)
  }

  lemma {:induction false} MatchingMembers(snapshots: seq<Snapshot>, name: string)
    ensures forall s :: s in Matching(snapshots, name) <==> s in snapshots && s.name == name
  {
    if snapshots != [] {
      MatchingMembers(snapshots[1..], name);
      assert snapshots == [snapshots[0]] + snapshots[1..];
    }
  }

  lemma {:induction false} OneMatchMeansUnique(snapshots: seq<Snapshot>, name: string, id: string)
    ensures Matching(snapshots, name) == [Snapshot(name, id)] <==> IdentifiesUniquely(snapshots, name, id)
  {
    if snapshots != [] {
      var rest := snapshots[1..];
      MatchingMembers(rest, name);
      if snapshots[0].name == name {
        assert Matching(rest, name) == [] <==> forall j :: 0 < j < |snapshots| ==> snapshots[j].name != name by {
          forall j | 0 < j < |snapshots| && snapshots[j].name == name ensures Matching(rest, name) != [] {
            assert rest[j - 1] in Matching(rest, name);
          }
          if Matching(rest, name) != [] {
            var s := Matching(rest, name)[0];
            assert s in rest;
            var j :| 0 <= j < |rest| && rest[j] == s;
            assert snapshots[j + 1].name == name;
          }
        }
        assert Matching(snapshots, name) == [snapshots[0]] + Matching(rest, name);
        if IdentifiesUniquely(snapshots, name, id) {
          var i :| 0 <= i < |snapshots| && snapshots[i] == Snapshot(name, id) &&
                   forall j :: 0 <= j < |snapshots| && snapshots[j].name == name ==> j == i;
          assert i == 0;
        }
        if Matching(snapshots, name) == [Snapshot(name, id)] {
          assert Matching(snapshots, name)[0] == snapshots[0];
          assert |Matching(rest, name)| == 0;
        }
      } else {
        OneMatchMeansUnique(rest, name, id);
        if IdentifiesUniquely(rest, name, id) {
          var i :| 0 <= i < |rest| && rest[i] == Snapshot(name, id) &&
                   forall j :: 0 <= j < |rest| && rest[j].name == name ==> j == i;
          forall j | 0 <= j < |snapshots| && snapshots[j].name == name ensures j == i + 1 {
            assert rest[j - 1].name == name;
          }
          assert snapshots[i + 1] == Snapshot(name, id);
        }
        if IdentifiesUniquely(snapshots, name, id) {
          var i :| 0 <= i < |snapshots| && snapshots[i] == Snapshot(name, id) &&
                   forall j :: 0 <= j < |snapshots| && snapshots[j].name == name ==> j == i;
          assert rest[i - 1] == Snapshot(name, id);
          forall j | 0 <= j < |rest| && rest[j].name == name ensures j == i - 1 {
            assert snapshots[j + 1].name == name;
          }
        }
      }
    }
  }

  /** What the scan has collected from the first `n` items. */
  ghost predicate Collected(items: seq<ArchiveItem>, n: nat, paths: seq<string>, manifest: map<string, ArchiveItem>)
    requires n <= |items|
  {
    && (forall i :: 0 <= i < n && PlanningIncludes(paths, items[i].path) ==>
          items[i].path in manifest && manifest[items[i].path] == items[i])
    && (forall path :: path in manifest ==>
          PlanningIncludes(paths, path) && exists i :: 0 <= i < n && items[i].path == path)
  }

  /** The clauses of `PlanAccepts` that concern the first `n` items one by one. */
  ghost predicate ScannedFit(items: seq<ArchiveItem>, n: nat, paths: seq<string>)
    requires n <= |items|
  {
    && (forall i :: 0 <= i < n ==> ValidArchivePath(items[i].path))
    && (forall i :: 0 <= i < n && PlanningIncludes(paths, items[i].path) ==> ItemFits(items[i], paths))
    && (forall i, j :: 0 <= i < j < n && PlanningIncludes(paths, items[i].path) ==> items[i].path != items[j].path)
  }

  /** `found[p]` says whether one of the first `n` items lies at or below `paths[p]`. */
  ghost predicate FoundAmong(items: seq<ArchiveItem>, n: nat, paths: seq<string>, found: seq<bool>)
    requires n <= |items|
  {
    && |found| == |paths|
    && forall p :: 0 <= p < |paths| ==> (found[p] <==> FoundIn(items, n, paths[p]))
  }

  lemma SkipItem(items: seq<ArchiveItem>, n: nat, paths: seq<string>, manifest: map<string, ArchiveItem>,
                 found: seq<bool>)
    requires n < |items| && !PlanningIncludes(paths, items[n].path) && ValidArchivePath(items[n].path)
    requires ScannedFit(items, n, paths) && Collected(items, n, paths, manifest) && FoundAmong(items, n, paths, found)
    ensures ScannedFit(items, n + 1, paths) && Collected(items, n + 1, paths, manifest)
    ensures FoundAmong(items, n + 1, paths, found)
  {
    hide ItemFits, ValidArchivePath, IsAncestorOfSelection, ArchivePathMatches;
    assert forall p :: 0 <= p < |paths| ==> !ArchivePathMatches(items[n].path, paths[p]);
    hide Selects, PlanningIncludes;
  }

  function MarkFound(found: seq<bool>, paths: seq<string>, path: string): (r: seq<bool>)
    requires |found| == |paths|
  {
    seq(|paths|, p requires 0 <= p < |paths| => found[p] || ArchivePathMatches(path, paths[p]))
  }

  lemma FoundStep(items: seq<ArchiveItem>, n: nat, paths: seq<string>, found: seq<bool>)
    requires n < |items| && FoundAmong(items, n, paths, found)
    ensures FoundAmong(items, n + 1, paths, MarkFound(found, paths, items[n].path))
  {
    var marked := MarkFound(found, paths, items[n].path);
    forall p | 0 <= p < |paths|
      ensures marked[p] <==> FoundIn(items, n + 1, paths[p])
    {
      if i :| 0 <= i < n + 1 && ArchivePathMatches(items[i].path, paths[p]) {
        if i < n { assert found[p]; }
      }
      if marked[p] {
        if found[p] {
          var i :| 0 <= i < n && ArchivePathMatches(items[i].path, paths[p]);
        }
      }
    }
  }

  lemma KeepItem(items: seq<ArchiveItem>, n: nat, paths: seq<string>, manifest: map<string, ArchiveItem>)
    requires n < |items| && PlanningIncludes(paths, items[n].path) && ValidArchivePath(items[n].path)
    requires ItemFits(items[n], paths) && items[n].path !in manifest
    requires ScannedFit(items, n, paths) && Collected(items, n, paths, manifest)
    ensures ScannedFit(items, n + 1, paths)
    ensures Collected(items, n + 1, paths, manifest[items[n].path := items[n]])
  {
    hide PlanningIncludes, ItemFits, ValidArchivePath;
    var path := items[n].path;
    var larger := manifest[path := items[n]];
    forall p | p in larger ensures PlanningIncludes(paths, p) && exists i :: 0 <= i < n + 1 && items[i].path == p {
      if p == path {
        assert items[n].path == p;
      } else {
        assert p in manifest;
        var i :| 0 <= i < n && items[i].path == p;
      }
    }
    forall i | 0 <= i < n && PlanningIncludes(paths, items[i].path) ensures items[i].path != path {
      assert items[i].path in manifest;
    }
  }

  lemma KeepSizes(manifest: map<string, ArchiveItem>, item: ArchiveItem)
    requires item.path !in manifest
    ensures |manifest[item.path := item]| == |manifest| + 1
    ensures TotalSize(Project(manifest[item.path := item])) == TotalSize(Project(manifest)) + Describe(item).size
  {
    TotalSizeInsert(Project(manifest), item.path, Describe(item));
    assert Project(manifest[item.path := item]) == Project(manifest)[item.path := Describe(item)];
  }

  lemma DuplicateRejects(items: seq<ArchiveItem>, n: nat, paths: seq<string>, manifest: map<string, ArchiveItem>,
                         limits: Limits)
    requires n < |items| && Collected(items, n, paths, manifest) && items[n].path in manifest
    ensures !PlanAccepts(items, paths, limits)
  {
    hide PlanningIncludes;
    var i :| 0 <= i < n && items[i].path == items[n].path;
    assert PlanningIncludes(paths, items[i].path);
  }

  /** A partial manifest already over a limit rules the whole listing out. */
  lemma OverLimitsRejects(items: seq<ArchiveItem>, n: nat, paths: seq<string>,
                          manifest: map<string, ArchiveItem>, limits: Limits)
    requires n <= |items| && Collected(items, n, paths, manifest)
    requires |manifest| > limits.maxFiles || TotalSize(Project(manifest)) > limits.maxBytes
    ensures !PlanAccepts(items, paths, limits)
  {
    hide PlanningIncludes, ItemFits, ValidArchivePath, ArchivePathMatches;
    if PlanAccepts(items, paths, limits) {
      var whole :| ManifestOf(items, paths, whole) && WithinLimits(whole, limits);
      CollectedIsSubMap(items, n, paths, manifest, whole);
      ProjectSize(manifest);
      ProjectSize(whole);
      SubMapSize(Project(manifest), Project(whole));
    }
  }

  lemma CollectedIsSubMap(items: seq<ArchiveItem>, n: nat, paths: seq<string>,
                          part: map<string, ArchiveItem>, whole: map<string, ArchiveItem>)
    requires n <= |items| && Collected(items, n, paths, part) && ManifestOf(items, paths, whole)
    ensures SubMap(Project(part), Project(whole))
  {
    hide PlanningIncludes, IsAncestorOfSelection;
    forall path | path in part ensures path in whole && whole[path] == part[path] {
      var i :| 0 <= i < n && items[i].path == path;
    }
  }

  lemma {:induction false} EmptyEntriesAddNoSize(small: map<string, Entry>, large: map<string, Entry>)
    requires SubMap(small, large)
    requires forall path :: path in large && path !in small ==> large[path].size == 0
    ensures TotalSize(small) == TotalSize(large)
    decreases |large|
  {
    if large == map[] {
      assert small == map[];
    } else {
      var path :| path in large;
      TotalSizeWithout(large, path);
      if path in small {
        TotalSizeWithout(small, path);
        EmptyEntriesAddNoSize(small - {path}, large - {path});
      } else {
        assert small - {path} == small;
        EmptyEntriesAddNoSize(small, large - {path});
      }
    }
  }

  lemma SyntheticDirectoriesSizes(listed: map<string, ArchiveItem>, directories: set<string>)
    ensures var manifest := WithDirectories(listed, directories);
            && |manifest| == |listed| + |Missing(listed, directories)|
            && TotalSize(Project(manifest)) == TotalSize(Project(listed))
  {
    var manifest := WithDirectories(listed, directories);
    var missing := Missing(listed, directories);
    assert listed.Keys !! missing && manifest.Keys == listed.Keys + missing;
    assert |manifest| == |manifest.Keys| && |listed| == |listed.Keys|;
    EmptyEntriesAddNoSize(Project(listed), Project(manifest));
  }

  lemma SyntheticDirectoriesComplete(items: seq<ArchiveItem>, paths: seq<string>, listed: map<string, ArchiveItem>)
    requires forall i :: 0 <= i < |paths| ==> ValidArchivePath(paths[i])
    requires Collected(items, |items|, paths, listed)
    ensures var manifest := WithDirectories(listed, AncestorSet(paths));
            && ManifestOf(items, paths, manifest)
            && |manifest| == |listed| + |Missing(listed, AncestorSet(paths))|
            && TotalSize(Project(manifest)) == TotalSize(Project(listed))
  {
    hide TotalSize, Project, AncestorSet, WithDirectories, Missing, Collected, ManifestOf;
    SyntheticDirectoriesSizes(listed, AncestorSet(paths));
    forall a ensures a in AncestorSet(paths) <==> IsAncestorOfSelection(paths, a) { AncestorSetMember(paths, a); }
    SyntheticDirectoriesManifest(items, paths, listed, AncestorSet(paths));
  }

  lemma SyntheticDirectoriesManifest(items: seq<ArchiveItem>, paths: seq<string>, listed: map<string, ArchiveItem>,
                                     ancestors: set<string>)
    requires Collected(items, |items|, paths, listed)
    requires forall a :: a in ancestors <==> IsAncestorOfSelection(paths, a)
    ensures ManifestOf(items, paths, WithDirectories(listed, ancestors))
  {
    hide PlanningIncludes, IsAncestorOfSelection;
    var manifest := WithDirectories(listed, ancestors);
    forall path | path in listed ensures PlanningIncludes(paths, path) && Listed(items, path) {
      var i :| 0 <= i < |items| && items[i].path == path;
    }
  }

  method ScanListing(paths: seq<string>, items: seq<ArchiveItem>, limits: Limits)
      returns (ok: bool, manifest: map<string, ArchiveItem>, files: nat, bytes: nat)
    requires limits.Valid()
    ensures !ok ==> !PlanAccepts(items, paths, limits)
    ensures ok ==> |items| <= U64_MAX && ScannedFit(items, |items|, paths)
    ensures ok ==> Collected(items, |items|, paths, manifest)
    ensures ok ==> EveryPathFound(items, paths)
    ensures ok ==> files == |manifest| <= limits.maxFiles && bytes == TotalSize(Project(manifest)) <= limits.maxBytes
  {
    hide PlanningIncludes, ItemFits, ValidArchivePath, Collected, ScannedFit, FoundAmong, MarkFound, TotalSize, Project;
    ok, manifest, files, bytes := true, map[], 0, 0;
    var scanned := 0;
    var found := seq(|paths|, _ => false);
    NothingScanned(items, paths, found);
    while scanned < |items|
      invariant ok && 0 <= scanned <= |items| && scanned <= U64_MAX
      invariant ScannedFit(items, scanned, paths)
      invariant Collected(items, scanned, paths, manifest)
      invariant files == |manifest| <= limits.maxFiles && bytes == TotalSize(Project(manifest)) <= limits.maxBytes
      invariant |found| == |paths| && FoundAmong(items, scanned, paths, found)
    {
      var item := items[scanned];
      if scanned == U64_MAX || !ValidArchivePath(item.path) {
        ok := false;
        return;
      }
      if PlanningIncludes(paths, item.path) {
        FoundStep(items, scanned, paths, found);
        found := MarkFound(found, paths, item.path);
        if !ItemFits(item, paths) {
          ok := false;
          return;
        }
        if item.path in manifest {
          DuplicateRejects(items, scanned, paths, manifest, limits);
          ok := false;
          return;
        }
        KeepItem(items, scanned, paths, manifest);
        KeepSizes(manifest, item);
        files := files + 1;
        if item.kind == File {
          bytes := bytes + item.size;
        }
        manifest := manifest[item.path := item];
        if files > limits.maxFiles || bytes > limits.maxBytes {
          OverLimitsRejects(items, scanned + 1, paths, manifest, limits);
          ok := false;
          return;
        }
      } else {
        SkipItem(items, scanned, paths, manifest, found);
      }
      scanned := scanned + 1;
    }
    ok := false !in found;
    AllFound(items, paths, found);
  }

  lemma NothingScanned(items: seq<ArchiveItem>, paths: seq<string>, found: seq<bool>)
    requires found == seq(|paths|, _ => false)
    ensures ScannedFit(items, 0, paths) && Collected(items, 0, paths, map[])
    ensures FoundAmong(items, 0, paths, found)
    ensures |Project(map[])| == 0 && TotalSize(Project(map[])) == 0
  {
    assert Project(map[]) == map[];
  }

  lemma AllFound(items: seq<ArchiveItem>, paths: seq<string>, found: seq<bool>)
    requires FoundAmong(items, |items|, paths, found)
    ensures false !in found <==> EveryPathFound(items, paths)
  {
    if false !in found {
      forall p | 0 <= p < |paths| ensures found[p] { assert found[p] in found; }
    }
  }

  lemma DecidedByLimits(items: seq<ArchiveItem>, paths: seq<string>, manifest: map<string, ArchiveItem>, limits: Limits)
    requires |items| <= U64_MAX && ScannedFit(items, |items|, paths) && EveryPathFound(items, paths)
    requires ManifestOf(items, paths, manifest)
    ensures PlanAccepts(items, paths, limits) <==> WithinLimits(manifest, limits)
  {
    hide PlanningIncludes, ItemFits, ValidArchivePath, EveryPathFound, WithinLimits;
    if PlanAccepts(items, paths, limits) {
      var other :| ManifestOf(items, paths, other) && WithinLimits(other, limits);
      ManifestUnique(items, paths, other, manifest);
    }
  }

  method ValidateLiveSelection(snapshots: Option<seq<Snapshot>>, name: string, paths: seq<string>,
                               listing: Listing, limits: Limits)
      returns (r: Option<Plan>)
    requires limits.Valid()
    requires forall i :: 0 <= i < |paths| ==> ValidArchivePath(paths[i])
    ensures r.Some? <==>
              && snapshots.Some?
              && (exists id :: ValidArchiveId(id) && IdentifiesUniquely(snapshots.value, name, id))
              && listing.complete
              && PlanAccepts(listing.items, paths, limits)
    ensures r.Some? ==>
              var plan := r.value;
              && plan.snapshot == name && plan.paths == paths
              && ValidArchiveId(plan.snapshotId)
              && IdentifiesUniquely(snapshots.value, name, plan.snapshotId)
              && ManifestOf(listing.items, paths, plan.manifest)
              && PlanInvariant(plan, limits)
  {
    hide PlanningIncludes, Matching, ValidArchiveId, ItemFits, ValidArchivePath, EveryPathFound, IdentifiesUniquely;
    hide PlanAccepts, ScannedFit, Collected, ManifestOf, WithDirectories, AncestorSet, Missing, Project, TotalSize;
    if snapshots.None? { return None; }
    var matching := Matching(snapshots.value, name);
    forall id { OneMatchMeansUnique(snapshots.value, name, id); }
    MatchingMembers(snapshots.value, name);
    if |matching| != 1 || !ValidArchiveId(matching[0].id) {
      return None;
    }
    var snapshot := matching[0];
    assert snapshot in matching && matching == [Snapshot(name, snapshot.id)];
    if !listing.complete { return None; }
    var ok, manifest, files, bytes := ScanListing(paths, listing.items, limits);
    if !ok { return None; }
    SyntheticDirectoriesComplete(listing.items, paths, manifest);
    DecidedByLimits(listing.items, paths, WithDirectories(manifest, AncestorSet(paths)), limits);
    ok, manifest, files := AddSyntheticAncestors(paths, manifest, files, limits.maxFiles);
    if !ok { return None; }
    r := Some(Plan(name, snapshot.id, paths, files, bytes, manifest));
  }

  /** What every plan promises verification. */
  ghost predicate PlanInvariant(plan: Plan, limits: Limits) {
    && plan.files == |plan.manifest| <= limits.maxFiles
    && plan.bytes == TotalSize(Project(plan.manifest)) <= limits.maxBytes
  }

  lemma {:induction false} Subset<T>(a: set<T>, b: set<T>)
    requires a <= b
    ensures |a| <= |b|
    decreases a
  {
    if a != {} {
      var x :| x in a;
      Subset(a - {x}, b - {x});
    }
  }
}
