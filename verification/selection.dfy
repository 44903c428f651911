/** Selecting archive items: the minimal cover of a selection, and the three tests that decide
    which listed items belong to it. */
module Selection {
  import opened Ordering
  import opened Paths

  datatype Option<+T> = None | Some(value: T)

  // ---------------------------------------------------------------------------------------
  // minimal_restore_paths
  // ---------------------------------------------------------------------------------------

  /** `cover` lists, in order and once each, the inputs that lie below no other input. */
  ghost predicate IsMinimalCover(paths: seq<string>, cover: seq<string>) {
    && StrictlySorted(cover, StringLe)
    && forall p :: p in cover <==>
         p in paths && forall q :: q in paths && ArchivePathMatches(p, q) ==> q == p
  }

  predicate CoveredBy(path: string, cover: seq<string>) {
    exists p :: p in cover && ArchivePathMatches(path, p)
  }

  /** An ancestor sorts before its descendants, whatever unrelated names sort between them. */
  lemma AncestorSortsFirst(path: string, ancestor: string)
    requires ArchivePathMatches(path, ancestor)
    ensures StringLe(ancestor, path)
  {
    LexPrefix(CharLe, ancestor, path);
  }

  ghost predicate Antichain(s: seq<string>) {
    forall i, j :: 0 <= i < |s| && 0 <= j < |s| && i != j ==> !ArchivePathMatches(s[i], s[j])
  }

  /** A sorted antichain that is drawn from the input and covers it is the minimal cover. */
  lemma CoveringAntichainIsMinimal(paths: seq<string>, cover: seq<string>)
    requires StrictlySorted(cover, StringLe) && Antichain(cover)
    requires forall p :: p in cover ==> p in paths
    requires forall p :: p in paths ==> CoveredBy(p, cover)
    ensures IsMinimalCover(paths, cover)
  {
    hide ArchivePathMatches;
    forall p, q | p in cover && q in paths && ArchivePathMatches(p, q) ensures q == p {
      assert CoveredBy(q, cover);
      var m :| m in cover && ArchivePathMatches(q, m);
      MatchesTransitive(p, q, m);
      var i :| 0 <= i < |cover| && cover[i] == p;
      var j :| 0 <= j < |cover| && cover[j] == m;
      assert i == j;
      MatchesAntisymmetric(p, q);
    }
    forall p | p in paths && forall q :: q in paths && ArchivePathMatches(p, q) ==> q == p
      ensures p in cover
    {
      assert CoveredBy(p, cover);
      var m :| m in cover && ArchivePathMatches(p, m);
    }
  }

  method SortPaths(paths: seq<string>) returns (sorted: seq<string>)
    ensures SortedBy(sorted, StringLe)
    ensures forall p :: p in sorted <==> p in paths
  {
    StringOrder();
    sorted := Sort(paths, StringLe);
    assert forall p :: p in sorted <==> p in multiset(sorted);
    assert forall p :: p in paths <==> p in multiset(paths);
  }

  /** What the greedy pass has kept after reading `read`. */
  ghost predicate GreedyCover(read: seq<string>, minimal: seq<string>) {
    && StrictlySorted(minimal, StringLe)
    && Antichain(minimal)
    && (forall p :: p in minimal ==> p in read)
    && (forall p :: p in read ==> CoveredBy(p, minimal))
  }

  lemma GreedyStep(read: seq<string>, minimal: seq<string>, path: string)
    requires SortedBy(read + [path], StringLe)
    requires GreedyCover(read, minimal)
    ensures GreedyCover(read + [path], if CoveredBy(path, minimal) then minimal else minimal + [path])
  {
    if !CoveredBy(path, minimal) {
      var kept := minimal + [path];
      forall k | 0 <= k < |minimal|
        ensures StringLe(minimal[k], path)
        ensures !ArchivePathMatches(minimal[k], path) && !ArchivePathMatches(path, minimal[k])
      {
        assert minimal[k] in minimal && minimal[k] in read;
        var i :| 0 <= i < |read| && read[i] == minimal[k];
        assert (read + [path])[i] == minimal[k] && (read + [path])[|read|] == path;
        if ArchivePathMatches(minimal[k], path) {
          AncestorSortsFirst(minimal[k], path);
          LexTotalPair(CharLe, minimal[k], path);
        }
      }
      forall p | p in read + [path] ensures CoveredBy(p, kept) {
        if p in read {
          var m :| m in minimal && ArchivePathMatches(p, m);
          assert m in kept;
        } else {
          assert path in kept && ArchivePathMatches(p, path);
        }
      }
    }
  }

  method MinimalRestorePaths(paths: seq<string>) returns (minimal: seq<string>)
    ensures IsMinimalCover(paths, minimal)
    ensures Antichain(minimal)
  {
    hide GreedyCover, CoveredBy, IsMinimalCover, Antichain, SortedBy;
    var sorted := SortPaths(paths);
    minimal := [];
    NothingRead();
    for i := 0 to |sorted|
      invariant GreedyCover(sorted[..i], minimal)
    {
      SortedPrefix(sorted, i);
      GreedyStep(sorted[..i], minimal, sorted[i]);
      if !CoveredBy(sorted[i], minimal) {
        minimal := minimal + [sorted[i]];
      }
    }
    assert sorted[..|sorted|] == sorted;
    AllRead(paths, sorted, minimal);
  }

  lemma NothingRead()
    ensures GreedyCover([], [])
  {
  }

  lemma SortedPrefix(sorted: seq<string>, i: nat)
    requires SortedBy(sorted, StringLe) && i < |sorted|
    ensures sorted[..i + 1] == sorted[..i] + [sorted[i]]
    ensures SortedBy(sorted[..i] + [sorted[i]], StringLe)
  {
    var longer := sorted[..i + 1];
    assert longer == sorted[..i] + [sorted[i]];
    forall j, k | 0 <= j < k < |longer| ensures StringLe(longer[j], longer[k]) {
      assert longer[j] == sorted[j] && longer[k] == sorted[k];
    }
  }

  lemma AllRead(paths: seq<string>, sorted: seq<string>, minimal: seq<string>)
    requires GreedyCover(sorted, minimal)
    requires forall p :: p in sorted <==> p in paths
    ensures IsMinimalCover(paths, minimal) && Antichain(minimal)
  {
    hide CoveredBy;
    CoveringAntichainIsMinimal(paths, minimal);
  }

  /** The minimal cover depends on the set of inputs only. */
  lemma MinimalCoverUnique(a: seq<string>, b: seq<string>, coverA: seq<string>, coverB: seq<string>)
    requires forall p :: p in a <==> p in b
    requires IsMinimalCover(a, coverA) && IsMinimalCover(b, coverB)
    ensures coverA == coverB
  {
    StringOrder();
    StrictlySortedUnique(coverA, coverB, StringLe);
  }

  /** Every input lies at or below some member of the minimal cover. */
  lemma {:induction false} MinimalCoverCovers(paths: seq<string>, cover: seq<string>, path: string)
    requires IsMinimalCover(paths, cover) && path in paths
    ensures CoveredBy(path, cover)
    decreases |path|
  {
    if path in cover {
      assert ArchivePathMatches(path, path);
    } else {
      var q :| q in paths && ArchivePathMatches(path, q) && q != path;
      MinimalCoverCovers(paths, cover, q);
      var m :| m in cover && ArchivePathMatches(q, m);
      MatchesTransitive(path, q, m);
    }
  }

  /** Replacing a selection by its minimal cover selects exactly the same archive paths. */
  lemma MinimalCoverMatchesSamePaths(paths: seq<string>, cover: seq<string>, candidate: string)
    requires IsMinimalCover(paths, cover)
    ensures CoveredBy(candidate, cover) <==> CoveredBy(candidate, paths)
  {
    if CoveredBy(candidate, paths) {
      var p :| p in paths && ArchivePathMatches(candidate, p);
      MinimalCoverCovers(paths, cover, p);
      var m :| m in cover && ArchivePathMatches(p, m);
      MatchesTransitive(candidate, p, m);
    }
  }

  lemma MinimalCoverIdempotent(paths: seq<string>, cover: seq<string>, again: seq<string>)
    requires IsMinimalCover(paths, cover) && IsMinimalCover(cover, again)
    ensures again == cover
  {
    StringOrder();
    StrictlySortedUnique(cover, again, StringLe);
  }

  // ---------------------------------------------------------------------------------------
  // Which listed items belong to a selection
  // ---------------------------------------------------------------------------------------

  /** One `--pattern` argument. */
  datatype Pattern =
    | IncludeFullPath(path: string)     // "+ pf:PATH"
    | IncludePathPrefix(path: string)   // "+ pp:PATH"
    | ExcludeEverything                 // "- re:.*"

  predicate PatternMatches(pattern: Pattern, item: string) {
    match pattern
    case IncludeFullPath(path) => item == path
    case IncludePathPrefix(path) => ArchivePathMatches(item, path)
    case ExcludeEverything => true
  }

  /** Borg's rule: the first matching pattern decides, and unmatched items are included. */
  predicate FirstMatchIncludes(patterns: seq<Pattern>, item: string) {
    if patterns == [] then true
    else if PatternMatches(patterns[0], item) then !patterns[0].ExcludeEverything?
    else FirstMatchIncludes(patterns[1..], item)
  }

  /** The default filter of the backend trait. */
  predicate TraitFilterIncludes(paths: seq<string>, item: string) {
    exists i :: 0 <= i < |paths| &&
      var path := paths[i];
      || item == path
      || (path <= item && |path| < |item| && item[|path|] == '/')
      || (item <= path && |item| < |path| && path[|item|] == '/')
  }

  predicate Selects(paths: seq<string>, item: string) {
    exists i :: 0 <= i < |paths| && ArchivePathMatches(item, paths[i])
  }

  predicate IsAncestorOfSelection(paths: seq<string>, item: string) {
    exists i :: 0 <= i < |paths| && ProperAncestor(item, paths[i])
  }

  /** The test that decides whether planning puts a listed item into the manifest. */
  predicate PlanningIncludes(paths: seq<string>, item: string) {
    Selects(paths, item) || IsAncestorOfSelection(paths, item)
  }

  function FullPaths(paths: seq<string>): seq<Pattern> {
    seq(|paths|, i requires 0 <= i < |paths| => IncludeFullPath(paths[i]))
  }

  function PathPrefixes(paths: seq<string>): seq<Pattern> {
    seq(|paths|, i requires 0 <= i < |paths| => IncludePathPrefix(paths[i]))
  }

  predicate Acceptable(paths: seq<string>) {
    paths != [] && forall i :: 0 <= i < |paths| ==> ValidArchivePath(paths[i])
  }

  ghost predicate ListPatternsFor(paths: seq<string>, patterns: seq<Pattern>) {
    exists ancestors: seq<string> ::
      && StrictlySorted(ancestors, StringLe)
      && (forall a :: a in ancestors <==> IsAncestorOfSelection(paths, a))
      && patterns == FullPaths(ancestors) + PathPrefixes(paths) + [ExcludeEverything]
  }

  method CollectAncestors(path: string, known: set<string>) returns (ancestors: set<string>)
    requires ValidArchivePath(path)
    ensures ancestors == known + Ancestors(path)
  {
    ancestors := known;
    var parent := Parent(path);
    while parent != ""
      invariant known + Ancestors(path) == ancestors + AtAndAbove(parent)
      decreases |parent|
    {
      ancestors := ancestors + {parent};
      parent := Parent(parent);
    }
  }

  method InOrder(names: set<string>) returns (r: seq<string>)
    ensures StrictlySorted(r, StringLe)
    ensures forall x :: x in r <==> x in names
  {
    var rest, listed := names, [];
    while rest != {}
      invariant rest <= names
      invariant forall x :: x in listed <==> x in names && x !in rest
      decreases rest
    {
      var x :| x in rest;
      rest := rest - {x};
      listed := listed + [x];
    }
    StringOrder();
    var sorted := Sort(listed, StringLe);
    r := DedupSorted(sorted, StringLe);
    assert forall x :: x in sorted <==> x in multiset(sorted);
    assert forall x :: x in listed <==> x in multiset(listed);
  }

  /** `None` is the error of an empty or unnormalized selection. */
  method BorgListPatterns(paths: seq<string>) returns (r: Option<seq<Pattern>>)
    ensures r.Some? <==> Acceptable(paths)
    ensures r.Some? ==> ListPatternsFor(paths, r.value)
  {
    if paths == [] { return None; }
    var ancestors: set<string> := {};
    for i := 0 to |paths|
      invariant forall k :: 0 <= k < i ==> ValidArchivePath(paths[k])
      invariant forall a :: a in ancestors <==> exists k :: 0 <= k < i && ProperAncestor(a, paths[k])
    {
      if !ValidArchivePath(paths[i]) { return None; }
      ghost var before := ancestors;
      ancestors := CollectAncestors(paths[i], ancestors);
      forall a ensures a in ancestors <==> a in before || ProperAncestor(a, paths[i]) {
        AncestorsAreProper(paths[i], a);
      }
    }
    var listed := InOrder(ancestors);
    var patterns: seq<Pattern> := [];
    for i := 0 to |listed|
      invariant patterns == FullPaths(listed[..i])
    {
      patterns := patterns + [IncludeFullPath(listed[i])];
    }
    assert listed[..|listed|] == listed;
    for i := 0 to |paths|
      invariant patterns == FullPaths(listed) + PathPrefixes(paths[..i])
    {
      patterns := patterns + [IncludePathPrefix(paths[i])];
    }
    assert paths[..|paths|] == paths;
    patterns := patterns + [ExcludeEverything];
    r := Some(patterns);
  }

  method BorgExtractPatterns(paths: seq<string>) returns (r: Option<seq<Pattern>>)
    ensures r.Some? <==> Acceptable(paths)
    ensures r.Some? ==> r.value == PathPrefixes(paths) + [ExcludeEverything]
  {
    if paths == [] { return None; }
    var patterns: seq<Pattern> := [];
    for i := 0 to |paths|
      invariant forall k :: 0 <= k < i ==> ValidArchivePath(paths[k])
      invariant patterns == PathPrefixes(paths[..i])
    {
      if !ValidArchivePath(paths[i]) { return None; }
      patterns := patterns + [IncludePathPrefix(paths[i])];
    }
    assert paths[..|paths|] == paths;
    r := Some(patterns + [ExcludeEverything]);
  }

  lemma {:induction false} FirstMatchOfIncludes(includes: seq<Pattern>, item: string)
    requires forall i :: 0 <= i < |includes| ==> !includes[i].ExcludeEverything?
    ensures FirstMatchIncludes(includes + [ExcludeEverything], item) <==>
            exists i :: 0 <= i < |includes| && PatternMatches(includes[i], item)
  {
    if includes != [] {
      assert (includes + [ExcludeEverything])[1..] == includes[1..] + [ExcludeEverything];
      FirstMatchOfIncludes(includes[1..], item);
      assert (exists i :: 0 <= i < |includes| && PatternMatches(includes[i], item)) <==>
             PatternMatches(includes[0], item) ||
             exists i :: 0 <= i < |includes[1..]| && PatternMatches(includes[1..][i], item) by {
        if i :| 0 <= i < |includes| && PatternMatches(includes[i], item) {
          if i > 0 { assert includes[1..][i - 1] == includes[i]; }
        }
      }
    }
  }

  /** Borg's pattern list, the trait's default filter and planning accept the same items. */
  lemma ThreeSelectorsAgree(paths: seq<string>, patterns: seq<Pattern>, item: string)
    requires ListPatternsFor(paths, patterns)
    ensures FirstMatchIncludes(patterns, item) <==> PlanningIncludes(paths, item)
    ensures TraitFilterIncludes(paths, item) <==> PlanningIncludes(paths, item)
  {
    hide TraitFilterIncludes;
    var ancestors :|
      && StrictlySorted(ancestors, StringLe)
      && (forall a :: a in ancestors <==> IsAncestorOfSelection(paths, a))
      && patterns == FullPaths(ancestors) + PathPrefixes(paths) + [ExcludeEverything];
    var full, prefixes := FullPaths(ancestors), PathPrefixes(paths);
    var includes := full + prefixes;
    FirstMatchOfIncludes(includes, item);
    TraitFilterIsPlanning(paths, item);
    FullPathsMatch(ancestors, item);
    PathPrefixesMatch(paths, item);
    if i :| 0 <= i < |full| && PatternMatches(full[i], item) { assert includes[i] == full[i]; }
    if i :| 0 <= i < |prefixes| && PatternMatches(prefixes[i], item) { assert includes[|full| + i] == prefixes[i]; }
  }

  lemma TraitFilterIsPlanning(paths: seq<string>, item: string)
    ensures TraitFilterIncludes(paths, item) <==> PlanningIncludes(paths, item)
  {
    if i :| 0 <= i < |paths| && ArchivePathMatches(item, paths[i]) {}
    if i :| 0 <= i < |paths| && ProperAncestor(item, paths[i]) {}
  }

  lemma FullPathsMatch(paths: seq<string>, item: string)
    ensures (exists i :: 0 <= i < |FullPaths(paths)| && PatternMatches(FullPaths(paths)[i], item)) <==> item in paths
  {
    if item in paths {
      var k :| 0 <= k < |paths| && paths[k] == item;
      assert PatternMatches(FullPaths(paths)[k], item);
    }
  }

  lemma PathPrefixesMatch(paths: seq<string>, item: string)
    ensures (exists i :: 0 <= i < |PathPrefixes(paths)| && PatternMatches(PathPrefixes(paths)[i], item)) <==>
            Selects(paths, item)
  {
    if i :| 0 <= i < |paths| && ArchivePathMatches(item, paths[i]) {
      assert PatternMatches(PathPrefixes(paths)[i], item);
    }
  }

  /** Extraction takes exactly the items at or below a selected path. */
  lemma ExtractPatternsSelect(paths: seq<string>, item: string)
    ensures FirstMatchIncludes(PathPrefixes(paths) + [ExcludeEverything], item) <==> Selects(paths, item)
  {
    var prefixes := PathPrefixes(paths);
    FirstMatchOfIncludes(prefixes, item);
    if i :| 0 <= i < |paths| && ArchivePathMatches(item, paths[i]) {
      assert PatternMatches(prefixes[i], item);
    }
  }
}
