/** The incremental refresh of the index, against a full rebuild from the live repository. */
module IndexRefresh {
  import opened Selection
  import opened Planning
  import opened IndexTables
  import opened Paths

  datatype LiveSnapshot = LiveSnapshot(name: string, id: string, start: int)

  datatype Identity = Identity(id: string, location: string)

  datatype Meta = Meta(
    repositoryId: Option<string>,
    location: Option<string>,
    generation: nat,
    refreshedAt: Option<int>,
    complete: bool)

  const InitialMeta := Meta(None, None, 0, None, false)

  predicate ValidIdentity(identity: Identity) {
    && ValidArchiveId(identity.id)
    && identity.location != "" && !HasControl(identity.location)
  }

  /** `IndexStatus::is_complete`; the schema version is that of the open connection. */
  predicate IsComplete(meta: Meta) {
    && meta.complete
    && meta.generation > 0
    && meta.refreshedAt.Some?
    && meta.repositoryId.Some? && ValidArchiveId(meta.repositoryId.value)
    && meta.location.Some? && meta.location.value != "" && !HasControl(meta.location.value)
  }

  predicate MatchesRepository(meta: Meta, identity: Identity) {
    meta.repositoryId == Some(identity.id) && meta.location == Some(identity.location)
  }

  /** A complete index names a repository that is valid, at some generation and time. */
  lemma CompleteNamesARepository(meta: Meta)
    ensures IsComplete(meta) ==>
              && meta.generation > 0 && meta.refreshedAt.Some?
              && exists identity :: ValidIdentity(identity) && MatchesRepository(meta, identity)
  {
    if IsComplete(meta) {
      var identity := Identity(meta.repositoryId.value, meta.location.value);
      assert ValidIdentity(identity) && MatchesRepository(meta, identity);
    }
  }

  /** Where a crash hits, if it does. */
  datatype Crash = NoCrash | BeforeMark | BeforeCommit | AfterCommit

  /** What the repository and the clock answer during one refresh. */
  datatype World = World(
    identity: Option<Identity>,
    live: Option<seq<LiveSnapshot>>,
    listings: map<string, Listing>,
    completedIdentity: Option<Identity>,
    now: int,
    crash: Crash)

  datatype RefreshStats = RefreshStats(archivesAdded: nat, archivesRemoved: nat, filesAdded: nat)

  datatype Outcome = Refreshed(stats: RefreshStats) | RefreshFailed | RefreshCrashed

  // ---------------------------------------------------------------------------------------
  // The abstract step
  // ---------------------------------------------------------------------------------------

  datatype IndexState = IndexState(view: map<string, Archived>, meta: Meta)

  const EmptyIndex := IndexState(map[], InitialMeta)

  predicate SameRepository(meta: Meta, identity: Identity) {
    meta.repositoryId == Some(identity.id)
  }

  /** The first committed transaction: not complete, and emptied if the repository changed. */
  ghost function Marked(s: IndexState, identity: Identity): IndexState {
    var same := SameRepository(s.meta, identity);
    IndexState(
      if same then s.view else map[],
      Meta(Some(identity.id), Some(identity.location),
           if same then s.meta.generation else 0,
           if same then s.meta.refreshedAt else None,
           false))
  }

  /** The archive id that the live list gives a name; a later entry wins. */
  function LiveIds(live: seq<LiveSnapshot>): map<string, string> {
    if live == [] then map[]
    else LiveIds(live[..|live| - 1])[live[|live| - 1].name := live[|live| - 1].id]
  }

  function StoredItems(items: seq<ArchiveItem>): set<ArchiveItem> {
    set i | 0 <= i < |items| :: Stored(items[i])
  }

  predicate DistinctPaths(items: seq<ArchiveItem>) {
    forall i, j :: 0 <= i < j < |items| ==> items[i].path != items[j].path
  }

  ghost predicate NewArchive(archived: Archived, snapshot: LiveSnapshot, listings: map<string, Listing>) {
    && snapshot.name in listings && listings[snapshot.name].complete && DistinctPaths(listings[snapshot.name].items)
    && archived == Archived(snapshot.id, snapshot.start, StoredItems(listings[snapshot.name].items))
  }

  /** One stored item for each listed one, with its path, kind and link target, and with its size if that
      fits a signed 64-bit integer and the largest such integer otherwise. */
  ghost predicate HoldsListing(held: set<ArchiveItem>, listing: seq<ArchiveItem>) {
    && |held| == |listing|
    && forall k :: 0 <= k < |listing| ==>
         var size := if listing[k].size <= 0x7FFF_FFFF_FFFF_FFFF then listing[k].size else 0x7FFF_FFFF_FFFF_FFFF;
         ArchiveItem(listing[k].path, listing[k].kind, size, listing[k].linkTarget) in held
  }

  /** Every snapshot that was not stored under its live id has been read exactly. */
  ghost predicate ReadExactly(before: map<string, Archived>, live: seq<LiveSnapshot>, listings: map<string, Listing>,
                              after: map<string, Archived>) {
    forall i :: 0 <= i < |live| && !(live[i].name in before && before[live[i].name].borgId == live[i].id) ==>
      && live[i].name in after && live[i].name in listings
      && after[live[i].name].borgId == live[i].id && after[live[i].name].start == live[i].start
      && HoldsListing(after[live[i].name].items, listings[live[i].name].items)
  }

  lemma {:induction false} StoredItemsSize(items: seq<ArchiveItem>)
    requires DistinctPaths(items)
    ensures |StoredItems(items)| == |items|
    ensures forall x :: x in StoredItems(items) ==> exists k :: 0 <= k < |items| && items[k].path == x.path
  {
    if items != [] {
      var n := |items| - 1;
      StoredItemsSize(items[..n]);
      StoredItemsSnoc(items, n);
      assert items[..n + 1] == items;
      forall x | x in StoredItems(items[..n]) ensures x.path != items[n].path {
        var k :| 0 <= k < n && items[..n][k].path == x.path;
      }
    }
  }

  lemma NewArchiveHoldsListing(archived: Archived, snapshot: LiveSnapshot, listings: map<string, Listing>)
    requires NewArchive(archived, snapshot, listings)
    ensures archived.borgId == snapshot.id && archived.start == snapshot.start && snapshot.name in listings
    ensures HoldsListing(archived.items, listings[snapshot.name].items)
  {
    var items := listings[snapshot.name].items;
    StoredItemsSize(items);
    forall k | 0 <= k < |items|
      ensures var size := if items[k].size <= 0x7FFF_FFFF_FFFF_FFFF then items[k].size else 0x7FFF_FFFF_FFFF_FFFF;
              ArchiveItem(items[k].path, items[k].kind, size, items[k].linkTarget) in archived.items
    {
      assert Stored(items[k]) in StoredItems(items);
    }
  }

  /** What the second transaction leaves: exactly the live names; an archive stored under its live id
      is kept as it was, every other one is read from its listing. */
  ghost predicate Updated(before: map<string, Archived>, live: seq<LiveSnapshot>, listings: map<string, Listing>,
                          after: map<string, Archived>) {
    && after.Keys == LiveIds(live).Keys
    && forall name :: name in after ==>
         if name in before && before[name].borgId == LiveIds(live)[name] then after[name] == before[name]
         else exists i :: 0 <= i < |live| && live[i].name == name && live[i].id == LiveIds(live)[name] &&
                          NewArchive(after[name], live[i], listings)
  }

  /** The names of `before` that `after` does not have, or has for another archive. */
  ghost function ReplacedNames(before: map<string, Archived>, after: map<string, Archived>): set<string> {
    set name | name in before && !(name in after && after[name].borgId == before[name].borgId)
  }

  ghost function SharedNames(a: map<string, Archived>, b: map<string, Archived>): set<string> {
    set name | name in a && name in b && a[name].borgId == b[name].borgId
  }

  lemma NamesSplit(a: map<string, Archived>, b: map<string, Archived>)
    ensures a.Keys == SharedNames(a, b) + ReplacedNames(a, b) && SharedNames(a, b) !! ReplacedNames(a, b)
    ensures SharedNames(a, b) == SharedNames(b, a)
  {
  }

  lemma ReplacedNamesBalance(before: map<string, Archived>, after: map<string, Archived>)
    ensures |after| + |ReplacedNames(before, after)| == |before| + |ReplacedNames(after, before)|
  {
    hide ReplacedNames, SharedNames;
    NamesSplit(before, after);
    NamesSplit(after, before);
    DisjointSizes(before.Keys, SharedNames(before, after), ReplacedNames(before, after));
    DisjointSizes(after.Keys, SharedNames(after, before), ReplacedNames(after, before));
    assert |before| == |before.Keys| && |after| == |after.Keys|;
  }

  lemma DisjointSizes<T>(whole: set<T>, a: set<T>, b: set<T>)
    requires whole == a + b && a !! b
    ensures |whole| == |a| + |b|
  {
  }

  ghost predicate Committed(s: IndexState, world: World, s': IndexState) {
    && world.identity.Some? && ValidIdentity(world.identity.value)
    && world.live.Some?
    && world.completedIdentity == world.identity
    && var marked := Marked(s, world.identity.value);
       && Updated(marked.view, world.live.value, world.listings, s'.view)
       && s'.meta == Meta(Some(world.identity.value.id), Some(world.identity.value.location),
                          marked.meta.generation + 1, Some(world.now), true)
  }

  /** One refresh, whatever happens in it. */
  ghost predicate RefreshStep(s: IndexState, world: World, s': IndexState, outcome: Outcome) {
    match outcome
    case Refreshed(stats) =>
      && Committed(s, world, s')
      && stats.archivesRemoved == |ReplacedNames(Marked(s, world.identity.value).view, s'.view)|
      && stats.archivesAdded == |ReplacedNames(s'.view, Marked(s, world.identity.value).view)|
      && |s'.view| + stats.archivesRemoved == |Marked(s, world.identity.value).view| + stats.archivesAdded
    case RefreshFailed => NotCommitted(s, world, s')
    case RefreshCrashed => NotCommitted(s, world, s') || Committed(s, world, s')
  }

  ghost predicate NotCommitted(s: IndexState, world: World, s': IndexState) {
    s' == s || (world.identity.Some? && ValidIdentity(world.identity.value) && s' == Marked(s, world.identity.value))
  }

  // ---------------------------------------------------------------------------------------
  // Histories
  // ---------------------------------------------------------------------------------------

  /** Archive content is a function of the repository and the archive id. */
  type Content = (string, string) -> Archived

  /** While a refresh finds the same repository at its beginning and its end, the snapshots it listed
      and their files are those of that repository. */
  ghost predicate Honest(world: World, content: Content) {
    world.identity.Some? && world.live.Some? && world.completedIdentity == world.identity ==>
      forall i :: 0 <= i < |world.live.value| ==>
        var snapshot := world.live.value[i];
        var truth := content(world.identity.value.id, snapshot.id);
        && truth.borgId == snapshot.id && truth.start == snapshot.start
        && (snapshot.name in world.listings && world.listings[snapshot.name].complete ==>
              StoredItems(world.listings[snapshot.name].items) == truth.items)
  }

  /** What a rebuild from nothing would store. */
  ghost function FullRebuild(live: seq<LiveSnapshot>, repository: string, content: Content): map<string, Archived> {
    map name | name in LiveIds(live) :: content(repository, LiveIds(live)[name])
  }

  /** Every stored archive is that archive of the repository named in the metadata. */
  ghost predicate Faithful(s: IndexState, content: Content) {
    && (s.meta.repositoryId.None? ==> s.view == map[])
    && (forall name :: name in s.view ==>
          s.meta.repositoryId.Some? && s.view[name] == content(s.meta.repositoryId.value, s.view[name].borgId))
  }

  lemma {:induction false} LiveIdsFrom(live: seq<LiveSnapshot>, name: string)
    requires name in LiveIds(live)
    ensures exists i :: 0 <= i < |live| && live[i].name == name && live[i].id == LiveIds(live)[name]
  {
    var n := |live| - 1;
    if live[n].name == name {
    } else {
      LiveIdsFrom(live[..n], name);
      var i :| 0 <= i < n && live[..n][i].name == name && live[..n][i].id == LiveIds(live[..n])[name];
      assert live[i].name == name;
    }
  }

  lemma MarkedFaithful(s: IndexState, identity: Identity, content: Content)
    requires Faithful(s, content)
    ensures Faithful(Marked(s, identity), content)
  {
  }

  /** The incremental update equals a full rebuild of the live repository. */
  lemma CommittedIsFullRebuild(s: IndexState, world: World, s': IndexState, content: Content)
    requires Faithful(s, content) && Honest(world, content) && Committed(s, world, s')
    ensures s'.view == FullRebuild(world.live.value, world.identity.value.id, content)
    ensures Faithful(s', content)
  {
    var id := world.identity.value.id;
    var live := world.live.value;
    var before := Marked(s, world.identity.value).view;
    MarkedFaithful(s, world.identity.value, content);
    forall name | name in s'.view ensures s'.view[name] == content(id, LiveIds(live)[name]) {
      if !(name in before && before[name].borgId == LiveIds(live)[name]) {
        var i :| 0 <= i < |live| && live[i].name == name && live[i].id == LiveIds(live)[name] &&
                 NewArchive(s'.view[name], live[i], world.listings);
      }
    }
    forall name | name in s'.view ensures s'.view[name].borgId == LiveIds(live)[name] {
      LiveIdsFrom(live, name);
    }
  }

  /** One refresh in a history. */
  datatype Step = Step(world: World, outcome: Outcome, after: IndexState)

  ghost predicate History(start: IndexState, steps: seq<Step>) {
    steps == [] ||
    var n := |steps| - 1;
    && History(start, steps[..n])
    && RefreshStep(Final(start, steps[..n]), steps[n].world, steps[n].after, steps[n].outcome)
  }

  ghost function Final(start: IndexState, steps: seq<Step>): IndexState {
    if steps == [] then start else steps[|steps| - 1].after
  }

  /** Did this step commit? A crash may hide a commit from the caller, so ask the state. */
  ghost predicate CommittedBy(s: IndexState, step: Step) {
    step.outcome.Refreshed? || (step.outcome.RefreshCrashed? && !NotCommitted(s, step.world, step.after))
  }

  /** Commits since the repository last changed. */
  ghost function CommitsSinceSwitch(start: IndexState, steps: seq<Step>): nat {
    if steps == [] then start.meta.generation
    else
      var n := |steps| - 1;
      var s := Final(start, steps[..n]);
      var previous := CommitsSinceSwitch(start, steps[..n]);
      var kept := if steps[n].after.meta.repositoryId == s.meta.repositoryId then previous else 0;
      if CommittedBy(s, steps[n]) then kept + 1 else kept
  }

  /** The live list of the last commit. */
  ghost predicate CompleteMeansLastCommit(start: IndexState, steps: seq<Step>, content: Content) {
    var s := Final(start, steps);
    s.meta.complete ==>
      start.meta.complete ||
      exists i :: 0 <= i < |steps| && LastCommitAt(start, steps, i) && RebuiltAt(steps[i], s.view, content)
  }

  ghost predicate RebuiltAt(step: Step, view: map<string, Archived>, content: Content) {
    && step.world.live.Some? && step.world.identity.Some?
    && view == FullRebuild(step.world.live.value, step.world.identity.value.id, content)
  }

  ghost predicate LastCommitAt(start: IndexState, steps: seq<Step>, i: nat)
    requires i < |steps|
  {
    && Committed(Final(start, steps[..i]), steps[i].world, steps[i].after)
    && forall j :: i <= j < |steps| ==> steps[j].after == steps[i].after
  }

  /** For every history of refreshes that succeed, fail or crash anywhere, with repositories changing
      in between, the index never shows anything but archives of the repository it names. */
  lemma {:induction false} IndexAlwaysFaithful(start: IndexState, steps: seq<Step>, content: Content)
    requires Faithful(start, content) && History(start, steps)
    requires forall i :: 0 <= i < |steps| ==> Honest(steps[i].world, content)
    ensures Faithful(Final(start, steps), content)
  {
    if steps != [] {
      var n := |steps| - 1;
      var s := Final(start, steps[..n]);
      IndexAlwaysFaithful(start, steps[..n], content);
      if Committed(s, steps[n].world, steps[n].after) {
        CommittedIsFullRebuild(s, steps[n].world, steps[n].after, content);
      } else if steps[n].after != s {
        MarkedFaithful(s, steps[n].world.identity.value, content);
      }
    }
  }

  lemma CompleteAfterStep(s: IndexState, world: World, s': IndexState, outcome: Outcome)
    requires RefreshStep(s, world, s', outcome) && s'.meta.complete
    ensures Committed(s, world, s') || s' == s
  {
    hide Updated;
  }

  lemma LastCommitStays(start: IndexState, steps: seq<Step>, i: nat)
    requires i + 1 < |steps| && LastCommitAt(start, steps[..|steps| - 1], i)
    requires steps[|steps| - 1].after == Final(start, steps[..|steps| - 1])
    ensures LastCommitAt(start, steps, i)
  {
    hide Committed;
    var n := |steps| - 1;
    var shorter := steps[..n];
    assert shorter[..i] == steps[..i] && shorter[i] == steps[i];
    forall j | i <= j < |steps| ensures steps[j].after == steps[i].after {
      if j < n { assert steps[j] == shorter[j]; }
      assert shorter[n - 1].after == shorter[i].after;
    }
  }

  /** An index that says it is complete holds exactly the archives that a full rebuild at its last
      commit would have stored, and nothing has touched it since. */
  lemma {:induction false} CompleteIsLastLiveList(start: IndexState, steps: seq<Step>, content: Content)
    requires Faithful(start, content) && History(start, steps)
    requires forall i :: 0 <= i < |steps| ==> Honest(steps[i].world, content)
    ensures CompleteMeansLastCommit(start, steps, content)
  {
    hide RefreshStep, Committed, Faithful, Honest, FullRebuild, LastCommitAt;
    if steps != [] && Final(start, steps).meta.complete && !start.meta.complete {
      var n := |steps| - 1;
      var shorter := steps[..n];
      var s := Final(start, shorter);
      var last := steps[n];
      IndexAlwaysFaithful(start, shorter, content);
      CompleteIsLastLiveList(start, shorter, content);
      CompleteAfterStep(s, last.world, last.after, last.outcome);
      if Committed(s, last.world, last.after) {
        LastCommitWorld(start, steps, n, content);
      } else {
        var i :| 0 <= i < n && LastCommitAt(start, shorter, i) && RebuiltAt(shorter[i], s.view, content);
        assert shorter[i] == steps[i];
        LastCommitStays(start, steps, i);
        assert LastCommitAt(start, steps, i) && RebuiltAt(steps[i], s.view, content);
      }
    }
  }

  lemma LastCommitWorld(start: IndexState, steps: seq<Step>, n: nat, content: Content)
    requires n + 1 == |steps|
    requires Committed(Final(start, steps[..n]), steps[n].world, steps[n].after)
    requires Faithful(Final(start, steps[..n]), content) && Honest(steps[n].world, content)
    ensures LastCommitAt(start, steps, n) && RebuiltAt(steps[n], steps[n].after.view, content)
  {
    CommittedIsFullRebuild(Final(start, steps[..n]), steps[n].world, steps[n].after, content);
  }

  /** The generation counts the commits since the repository last changed. */
  lemma {:induction false} GenerationCountsCommits(start: IndexState, steps: seq<Step>)
    requires History(start, steps)
    ensures Final(start, steps).meta.generation == CommitsSinceSwitch(start, steps)
  {
    if steps != [] {
      GenerationCountsCommits(start, steps[..|steps| - 1]);
    }
  }

  /** A refresh that does not commit changes no archive of the repository it was meant for, and an
      index that was complete before is never left complete half-way. */
  lemma FailureKeepsArchives(s: IndexState, world: World, s': IndexState, outcome: Outcome)
    requires RefreshStep(s, world, s', outcome) && outcome.RefreshFailed?
    ensures s'.meta.repositoryId == s.meta.repositoryId ==> s'.view == s.view
    ensures s'.meta.repositoryId != s.meta.repositoryId ==> s'.view == map[]
    ensures s' != s ==> !IsComplete(s'.meta)
  {
  }

  /** After a successful refresh the index is complete and usable for that repository. */
  lemma SuccessIsComplete(s: IndexState, world: World, s': IndexState, outcome: Outcome)
    requires RefreshStep(s, world, s', outcome) && outcome.Refreshed?
    ensures IsComplete(s'.meta) && MatchesRepository(s'.meta, world.identity.value)
    ensures s'.meta.refreshedAt == Some(world.now)
    ensures s'.view.Keys == LiveIds(world.live.value).Keys
  {
  }

  /** On an index that only refreshes have written, the stored flag already says everything that the check
      for completeness asks. */
  lemma {:induction false} FlagMeansComplete(steps: seq<Step>)
    requires History(EmptyIndex, steps)
    ensures IsComplete(Final(EmptyIndex, steps).meta) <==> Final(EmptyIndex, steps).meta.complete
  {
    hide Updated;
    if steps != [] {
      var n := |steps| - 1;
      FlagMeansComplete(steps[..n]);
      var s := Final(EmptyIndex, steps[..n]);
      if steps[n].after.meta.complete { CompleteAfterStep(s, steps[n].world, steps[n].after, steps[n].outcome); }
    }
  }

  // ---------------------------------------------------------------------------------------
  // The refresh itself
  // ---------------------------------------------------------------------------------------

  /** The snapshot is not stored under its live id and must be read. */
  predicate Needed(existing: map<string, string>, snapshot: LiveSnapshot) {
    !(snapshot.name in existing && existing[snapshot.name] == snapshot.id)
  }

  ghost predicate ReadableListings(live: seq<LiveSnapshot>, listings: map<string, Listing>) {
    && (forall i, j :: 0 <= i < j < |live| ==> live[i].name != live[j].name)
    && (forall i :: 0 <= i < |live| ==>
          && live[i].name in listings
          && listings[live[i].name].complete
          && DistinctPaths(listings[live[i].name].items))
  }

  function FilesNeeded(existing: map<string, string>, live: seq<LiveSnapshot>, listings: map<string, Listing>): nat {
    if live == [] then 0
    else
      var last := live[|live| - 1];
      FilesNeeded(existing, live[..|live| - 1], listings) +
      if Needed(existing, last) && last.name in listings then |listings[last.name].items| else 0
  }

  /** The paths that an archive holds. */
  ghost predicate HoldsPaths(t: Tables, archive: int, items: seq<ArchiveItem>) {
    forall path :: PathTaken(t, archive, path) <==> exists k :: 0 <= k < |items| && items[k].path == path
  }

  /** Inserts the items of one listing into a new archive. */
  method InsertItems(t: Tables, fold: char -> char, archive: int, items: seq<ArchiveItem>,
                     ghost view: map<string, Archived>)
      returns (ok: bool, r: Tables, ghost grown: map<string, Archived>)
    requires Consistent(t, fold) && Shows(t, view) && archive in t.archives
    requires forall row :: row in t.files ==> t.files[row].archive != archive
    ensures ok <==> DistinctPaths(items)
    ensures ok ==>
              var name := t.archives[archive].name;
              && Consistent(r, fold)
              && r.archives == t.archives
              && name in view
              && grown == view[name := view[name].(items := StoredItems(items))]
              && Shows(r, grown)
  {
    hide Consistent, Shows, PathTaken, InsertItem, PostingsOf;
    ok, r, grown := true, t, view;
    ghost var name := t.archives[archive].name;
    EmptyArchive(t, fold, archive, view);
    assert items[..0] == [] && StoredItems([]) == {};
    for i := 0 to |items|
      invariant ok && Consistent(r, fold) && r.archives == t.archives
      invariant name in view && grown == view[name := view[name].(items := StoredItems(items[..i]))]
      invariant Shows(r, grown) && HoldsPaths(r, archive, items[..i])
      invariant DistinctPaths(items[..i])
    {
      var row := NextRow(r.files.Keys);
      var inserted := InsertItem(r, fold, row, archive, items[i]);
      InsertItemShows(r, fold, row, archive, items[i], grown);
      HoldsOneMore(r, fold, row, archive, items, i);
      if inserted.None? {
        ok := false;
        return;
      }
      r := inserted.value;
      StoredItemsSnoc(items, i);
      ghost var next := view[name := view[name].(items := StoredItems(items[..i + 1]))];
      assert next == grown[name := grown[name].(items := grown[name].items + {Stored(items[i])})];
      grown := next;
    }
    assert items[..|items|] == items;
  }

  lemma EmptyArchive(t: Tables, fold: char -> char, archive: int, view: map<string, Archived>)
    requires Consistent(t, fold) && Shows(t, view) && archive in t.archives
    requires forall row :: row in t.files ==> t.files[row].archive != archive
    ensures var name := t.archives[archive].name;
            name in view && view == view[name := view[name].(items := {})]
    ensures HoldsPaths(t, archive, [])
  {
    hide PostingsOf;
    assert FilesOf(t, archive) == {};
  }

  lemma StoredItemsSnoc(items: seq<ArchiveItem>, i: nat)
    requires i < |items|
    ensures StoredItems(items[..i + 1]) == StoredItems(items[..i]) + {Stored(items[i])}
  {
    var longer, shorter := items[..i + 1], items[..i];
    forall x ensures x in StoredItems(longer) <==> x in StoredItems(shorter) || x == Stored(items[i]) {
      if k :| 0 <= k < |shorter| && Stored(shorter[k]) == x { assert longer[k] == shorter[k]; }
      if k :| 0 <= k < |longer| && Stored(longer[k]) == x {
        if k < i { assert shorter[k] == longer[k]; }
      }
      assert longer[i] == items[i];
    }
  }

  lemma HoldsOneMore(t: Tables, fold: char -> char, row: int, archive: int, items: seq<ArchiveItem>, i: nat)
    requires i < |items| && row !in t.files && HoldsPaths(t, archive, items[..i]) && DistinctPaths(items[..i])
    ensures var r := InsertItem(t, fold, row, archive, items[i]);
            && (r.Some? ==> HoldsPaths(r.value, archive, items[..i + 1]) && DistinctPaths(items[..i + 1]))
            && (r.None? ==> !DistinctPaths(items))
  {
    hide Trigrams;
    var r := InsertItem(t, fold, row, archive, items[i]);
    var longer, shorter := items[..i + 1], items[..i];
    if r.None? {
      assert PathTaken(t, archive, items[i].path);
      var k :| 0 <= k < |shorter| && shorter[k].path == items[i].path;
      assert items[k].path == items[i].path;
    } else {
      forall path ensures PathTaken(r.value, archive, path) <==>
                          exists k :: 0 <= k < |longer| && longer[k].path == path {
        if k :| 0 <= k < |longer| && longer[k].path == path {
          if k < i {
            assert shorter[k].path == path;
            assert PathTaken(t, archive, path);
            var other :| other in t.files && t.files[other].archive == archive && t.files[other].item.path == path;
            assert r.value.files[other] == t.files[other];
          } else {
            assert r.value.files[row].item.path == path;
          }
        }
        if PathTaken(r.value, archive, path) {
          var k :| k in r.value.files && r.value.files[k].archive == archive && r.value.files[k].item.path == path;
          if k == row {
            assert longer[i].path == path;
          } else {
            assert t.files[k] == r.value.files[k];
            assert PathTaken(t, archive, path);
            var m :| 0 <= m < |shorter| && shorter[m].path == path;
            assert longer[m].path == path;
          }
        }
      }
      forall j | 0 <= j < i ensures shorter[j].path != items[i].path {
        assert PathTaken(t, archive, shorter[j].path);
      }
      forall j, k | 0 <= j < k < |longer| ensures longer[j].path != longer[k].path {
        assert longer[j] == shorter[j];
        if k < i { assert longer[k] == shorter[k]; }
      }
    }
  }

  ghost function KeptOf(view: map<string, Archived>, live: seq<LiveSnapshot>): map<string, Archived> {
    map name | name in view && name in LiveIds(live) && LiveIds(live)[name] == view[name].borgId :: view[name]
  }

  /** After the first `n` live snapshots: what was kept is still there, every needed snapshot has been
      read, and nothing else was added. */
  ghost predicate ReadSoFar(existing: map<string, string>, kept: map<string, Archived>, live: seq<LiveSnapshot>,
                            listings: map<string, Listing>, n: nat, view: map<string, Archived>)
    requires n <= |live|
  {
    && (forall name :: name in kept ==> name in view && view[name] == kept[name])
    && (forall k :: 0 <= k < n && Needed(existing, live[k]) ==>
          live[k].name in view && NewArchive(view[live[k].name], live[k], listings))
    && (forall name :: name in view ==> name in kept || ReadName(existing, live, n, name))
  }

  ghost predicate ReadName(existing: map<string, string>, live: seq<LiveSnapshot>, n: nat, name: string)
    requires n <= |live|
  {
    exists k :: 0 <= k < n && Needed(existing, live[k]) && live[k].name == name
  }

  lemma ReadOneMore(existing: map<string, string>, kept: map<string, Archived>, live: seq<LiveSnapshot>,
                    listings: map<string, Listing>, n: nat, view: map<string, Archived>, archived: Archived)
    requires n < |live| && ReadSoFar(existing, kept, live, listings, n, view)
    requires Needed(existing, live[n]) && live[n].name !in view && NewArchive(archived, live[n], listings)
    ensures ReadSoFar(existing, kept, live, listings, n + 1, view[live[n].name := archived])
  {
    hide NewArchive, Needed;
    var grown := view[live[n].name := archived];
    forall name | name in grown ensures name in kept || ReadName(existing, live, n + 1, name) {
      if name == live[n].name {
        assert Needed(existing, live[n]) && live[n].name == name;
      } else if name !in kept {
        assert ReadName(existing, live, n, name);
        var k :| 0 <= k < n && Needed(existing, live[k]) && live[k].name == name;
      }
    }
  }

  lemma ReadNone(existing: map<string, string>, kept: map<string, Archived>, live: seq<LiveSnapshot>,
                 listings: map<string, Listing>, n: nat, view: map<string, Archived>)
    requires n < |live| && ReadSoFar(existing, kept, live, listings, n, view) && !Needed(existing, live[n])
    ensures ReadSoFar(existing, kept, live, listings, n + 1, view)
  {
    hide NewArchive, Needed;
    forall name | name in view && name !in kept ensures ReadName(existing, live, n + 1, name) {
      assert ReadName(existing, live, n, name);
      var k :| 0 <= k < n && Needed(existing, live[k]) && live[k].name == name;
    }
  }

  lemma {:induction false} LiveIdsHolds(live: seq<LiveSnapshot>, k: nat)
    requires k < |live|
    ensures live[k].name in LiveIds(live)
  {
    var n := |live| - 1;
    if k < n { LiveIdsHolds(live[..n], k); }
  }

  /** Having read everything needed is having updated the archives to the live list. */
  lemma AllReadIsUpdated(before: map<string, Archived>, existing: map<string, string>, live: seq<LiveSnapshot>,
                         listings: map<string, Listing>, after: map<string, Archived>)
    requires existing.Keys == before.Keys && forall name :: name in before ==> existing[name] == before[name].borgId
    requires ReadSoFar(existing, KeptOf(before, live), live, listings, |live|, after)
    ensures Updated(before, live, listings, after)
  {
    hide NewArchive;
    var kept := KeptOf(before, live);
    forall name ensures name in after <==> name in LiveIds(live) {
      if name in after && name !in kept {
        assert ReadName(existing, live, |live|, name);
        var k :| 0 <= k < |live| && Needed(existing, live[k]) && live[k].name == name;
        LiveIdsHolds(live, k);
      }
      if name in LiveIds(live) && name !in kept { LiveIdsFrom(live, name); }
    }
    forall name | name in after && !(name in before && before[name].borgId == LiveIds(live)[name])
      ensures exists i :: 0 <= i < |live| && live[i].name == name && live[i].id == LiveIds(live)[name] &&
                          NewArchive(after[name], live[i], listings)
    {
      LiveIdsFrom(live, name);
      var i :| 0 <= i < |live| && live[i].name == name && live[i].id == LiveIds(live)[name];
      assert Needed(existing, live[i]);
    }
  }

  lemma AllReadExactly(before: map<string, Archived>, existing: map<string, string>, kept: map<string, Archived>,
                       live: seq<LiveSnapshot>, listings: map<string, Listing>, after: map<string, Archived>)
    requires existing == IdsOf(before) && ReadSoFar(existing, kept, live, listings, |live|, after)
    ensures ReadExactly(before, live, listings, after)
  {
    hide NewArchive, HoldsListing;
    forall i | 0 <= i < |live| && Needed(existing, live[i])
      ensures live[i].name in after && live[i].name in listings
      ensures after[live[i].name].borgId == live[i].id && after[live[i].name].start == live[i].start
      ensures HoldsListing(after[live[i].name].items, listings[live[i].name].items)
    {
      assert NewArchive(after[live[i].name], live[i], listings);
      NewArchiveHoldsListing(after[live[i].name], live[i], listings);
    }
  }

  /** Inserts one archive and everything its listing delivers. */
  method ReadSnapshot(t: Tables, fold: char -> char, live: seq<LiveSnapshot>, listings: map<string, Listing>, i: nat,
                      ghost existing: map<string, string>, ghost kept: map<string, Archived>,
                      ghost view: map<string, Archived>)
      returns (ok: bool, r: Tables, ghost after: map<string, Archived>)
    requires i < |live| && Consistent(t, fold) && Shows(t, view)
    requires ReadSoFar(existing, kept, live, listings, i, view) && Needed(existing, live[i])
    ensures ok ==>
              && live[i].name in listings
              && Consistent(r, fold) && Shows(r, after)
              && ReadSoFar(existing, kept, live, listings, i + 1, after)
              && |after| == |view| + 1
    ensures ReadableListings(live, listings) && live[i].name !in view ==> ok
  {
    hide Consistent, Shows, InsertArchive, FilesOf, ReadSoFar, NameTaken;
    ok, r, after := false, t, view;
    var snapshot := live[i];
    var id := NextRow(t.archives.Keys);
    var row := ArchiveRow(snapshot.name, snapshot.id, snapshot.start);
    InsertArchiveShows(t, fold, id, row, view);
    NoFilesYet(t, fold, id);
    var inserted := InsertArchive(t, id, row);
    if inserted.None? || snapshot.name !in listings || !listings[snapshot.name].complete { return; }
    ghost var started := view[row.name := Archived(row.borgId, row.start, {})];
    InsertedRow(t, id, row);
    ok, r, after := InsertItems(inserted.value, fold, id, listings[snapshot.name].items, started);
    if ok {
      ghost var archived := Archived(row.borgId, row.start, StoredItems(listings[snapshot.name].items));
      assert after == view[snapshot.name := archived];
      ReadOneMore(existing, kept, live, listings, i, view, archived);
    }
  }

  lemma FilesNeededNone(existing: map<string, string>, live: seq<LiveSnapshot>, listings: map<string, Listing>)
    ensures FilesNeeded(existing, live[..0], listings) == 0
  {
  }

  lemma FilesNeededSnoc(existing: map<string, string>, live: seq<LiveSnapshot>, listings: map<string, Listing>, i: nat)
    requires i < |live|
    ensures FilesNeeded(existing, live[..i + 1], listings) ==
            FilesNeeded(existing, live[..i], listings) +
            if Needed(existing, live[i]) && live[i].name in listings then |listings[live[i].name].items| else 0
  {
    assert live[..i + 1][..i] == live[..i];
  }

  lemma SameIds(existing: map<string, string>, view: map<string, Archived>)
    requires existing.Keys == view.Keys && forall name :: name in view ==> existing[name] == view[name].borgId
    ensures existing == IdsOf(view)
  {
  }

  class Index {
    var tables: Tables
    var meta: Meta
    const fold: char -> char

    /** What the tables show. */
    ghost var view: map<string, Archived>

    constructor (fold: char -> char)
      ensures Valid() && State() == EmptyIndex && this.fold == fold
    {
      this.fold := fold;
      tables, meta, view := EmptyTables, InitialMeta, map[];
    }

    ghost predicate Valid()
      reads this`tables, this`view
    {
      Consistent(tables, fold) && Shows(tables, view)
    }

    ghost function State(): IndexState
      reads this`view, this`meta
    {
      IndexState(view, meta)
    }

    /** The first transaction. */
    method MarkRefreshStarted(identity: Identity) returns (generation: nat)
      requires Valid()
      modifies this
      ensures Valid() && State() == Marked(old(State()), identity)
      ensures generation == meta.generation
    {
      hide Consistent, Shows;
      var same := SameRepository(meta, identity);
      generation := if same then meta.generation else 0;
      if !same {
        ghost var before := tables;
        tables := DeleteArchives(tables, fold, tables.archives.Keys);
        Emptied(before, tables, fold, view);
        view := map[];
      }
      meta := Meta(Some(identity.id), Some(identity.location), generation,
                   if same then meta.refreshedAt else None, false);
    }

    /** The archive updates of the second transaction, made on a copy that is only kept on success. */
    method UpdateArchives(live: seq<LiveSnapshot>, listings: map<string, Listing>)
        returns (ok: bool, next: Tables, stats: RefreshStats, ghost after: map<string, Archived>)
      requires Valid()
      ensures ok ==>
                && Consistent(next, fold) && Shows(next, after)
                && Updated(view, live, listings, after)
                && ReadExactly(view, live, listings, after)
                && stats.archivesRemoved == |ReplacedNames(view, after)|
                && stats.archivesAdded == |ReplacedNames(after, view)|
                && |after| + stats.archivesRemoved == |view| + stats.archivesAdded
                && stats.filesAdded == FilesNeeded(IdsOf(view), live, listings)
      ensures ReadableListings(live, listings) ==> ok
    {
      hide Consistent, Shows, Updated, ReadSoFar, ReadableListings, KeptOf, IdsOf, ArchiveIds, LiveIds;
      hide StaleNames, PostingsOf, FilesNeeded, ReadExactly, ReplacedNames;
      ConsistentNames(tables, fold);
      var existing := ArchiveIds(tables);
      ArchiveIdsShow(tables, fold, view);
      SameIds(existing, view);
      var stale := StaleNames(existing, live);
      var doomed := set id | id in tables.archives && tables.archives[id].name in stale;
      var removed := |stale|;
      next := DeleteArchives(tables, fold, doomed);
      after := KeptOf(view, live);
      KeptAndStale(view, existing, live);
      StaleRemoved(tables, next, fold, view, live, stale, doomed);
      NoSnapshotRead(existing, after, live, listings);
      var added, files := 0, 0;
      ok := true;
      stats := RefreshStats(0, 0, 0);
      FilesNeededNone(existing, live, listings);
      for i := 0 to |live|
        invariant ok && Consistent(next, fold) && Shows(next, after)
        invariant ReadSoFar(existing, KeptOf(view, live), live, listings, i, after)
        invariant |after| + removed == |view| + added
        invariant files == FilesNeeded(existing, live[..i], listings)
      {
        FilesNeededSnoc(existing, live, listings, i);
        if Needed(existing, live[i]) {
          DistinctNamesStayFree(existing, view, live, listings, i, after);
          ghost var grown;
          ok, next, grown := ReadSnapshot(next, fold, live, listings, i, existing, KeptOf(view, live), after);
          if !ok { return; }
          after := grown;
          files := files + |listings[live[i].name].items|;
          added := added + 1;
        } else {
          ReadNone(existing, KeptOf(view, live), live, listings, i, after);
        }
      }
      assert live[..|live|] == live;
      AllReadIsUpdated(view, existing, live, listings, after);
      AllReadExactly(view, existing, KeptOf(view, live), live, listings, after);
      StaleIsReplaced(view, existing, live, listings, after);
      ReplacedNamesBalance(view, after);
      stats := RefreshStats(added, removed, files);
    }

    method Refresh(world: World) returns (outcome: Outcome)
      requires Valid()
      modifies this
      ensures Valid() && RefreshStep(old(State()), world, State(), outcome)
      ensures outcome.Refreshed? ==>
                ReadExactly(Marked(old(State()), world.identity.value).view, world.live.value, world.listings, view)
      ensures outcome.Refreshed? ==>
                outcome.stats.filesAdded ==
                FilesNeeded(IdsOf(Marked(old(State()), world.identity.value).view), world.live.value, world.listings)
      ensures old(meta).generation <= 0x7FFF_FFFF_FFFF_FFFF ==> meta.generation <= 0x7FFF_FFFF_FFFF_FFFF
      ensures CleanWorld(world) && old(meta).generation < 0x7FFF_FFFF_FFFF_FFFF ==> outcome.Refreshed?
    {
      hide Consistent, Shows, Updated, ValidIdentity, ReadableListings, FilesNeeded, Marked, ReadExactly;
      ghost var s := State();
      if world.crash == BeforeMark { return RefreshCrashed; }
      if world.identity.None? || !ValidIdentity(world.identity.value) { return RefreshFailed; }
      var identity := world.identity.value;
      var generation := MarkRefreshStarted(identity);
      MarkedMeta(s, identity);
      ghost var marked := State();
      if world.live.None? { return RefreshFailed; }
      var ok, next, stats;
      ghost var after;
      ok, next, stats, after := UpdateArchives(world.live.value, world.listings);
      if !ok { return RefreshFailed; }
      if world.completedIdentity.None? || !ValidIdentity(world.completedIdentity.value) ||
         world.completedIdentity.value != identity {
        return RefreshFailed;
      }
      // The addition is checked in 64 bits without sign, and SQLite refuses what exceeds 64 bits with sign.
      if generation >= I64_MAX { return RefreshFailed; }
      if world.crash == BeforeCommit { return RefreshCrashed; }
      tables, view := next, after;
      meta := Meta(Some(identity.id), Some(identity.location), generation + 1, Some(world.now), true);
      if world.crash == AfterCommit { return RefreshCrashed; }
      return Refreshed(stats);
    }

    /** Any number of refreshes in a row make a history. */
    method ManyRefreshes(worlds: seq<World>) returns (ghost steps: seq<Step>)
      requires Valid()
      modifies this
      ensures Valid() && |steps| == |worlds|
      ensures forall i :: 0 <= i < |worlds| ==> steps[i].world == worlds[i]
      ensures History(old(State()), steps) && Final(old(State()), steps) == State()
    {
      hide Consistent, Shows, RefreshStep;
      steps := [];
      for i := 0 to |worlds|
        invariant Valid() && |steps| == i
        invariant forall k :: 0 <= k < i ==> steps[k].world == worlds[k]
        invariant History(old(State()), steps) && Final(old(State()), steps) == State()
      {
        var outcome := Refresh(worlds[i]);
        ghost var longer := steps + [Step(worlds[i], outcome, State())];
        assert longer[..i] == steps;
        steps := longer;
      }
    }
  }

  ghost function IdsOf(view: map<string, Archived>): map<string, string> {
    map name | name in view :: view[name].borgId
  }

  /** Nothing goes wrong: the repository answers everything consistently and no crash hits. */
  ghost predicate CleanWorld(world: World) {
    && world.identity.Some? && ValidIdentity(world.identity.value)
    && world.live.Some? && ReadableListings(world.live.value, world.listings)
    && world.completedIdentity == world.identity
    && world.crash == NoCrash
  }

  lemma MarkedMeta(s: IndexState, identity: Identity)
    ensures Marked(s, identity).meta.generation <= s.meta.generation
  {
  }

  lemma ConsistentNames(t: Tables, fold: char -> char)
    requires Consistent(t, fold)
    ensures UniqueNames(t)
  {
  }

  lemma Emptied(before: Tables, after: Tables, fold: char -> char, view: map<string, Archived>)
    requires Consistent(before, fold) && Shows(before, view)
    requires after.archives == before.archives - before.archives.Keys
    requires forall row :: row in after.files <==>
             row in before.files && before.files[row].archive !in before.archives.Keys
    requires forall row :: row in after.files ==> after.files[row] == before.files[row]
    requires before.postings == PostingsOf(fold, before.files) ==> after.postings == PostingsOf(fold, after.files)
    ensures Consistent(after, fold) && Shows(after, map[])
  {
    hide PostingsOf;
    DeleteArchivesShows(before, after, fold, before.archives.Keys, view, map[]);
  }

  lemma InsertedRow(t: Tables, id: int, row: ArchiveRow)
    requires InsertArchive(t, id, row).Some?
    ensures InsertArchive(t, id, row).value.archives == t.archives[id := row]
    ensures InsertArchive(t, id, row).value.files == t.files
  {
  }

  lemma NoFilesYet(t: Tables, fold: char -> char, id: int)
    requires Consistent(t, fold) && id !in t.archives
    ensures forall row :: row in t.files ==> t.files[row].archive != id
  {
  }

  /** With distinct live names a needed name is free when its turn comes. */
  lemma DistinctNamesStayFree(existing: map<string, string>, view: map<string, Archived>, live: seq<LiveSnapshot>,
                              listings: map<string, Listing>, i: nat, after: map<string, Archived>)
    requires i < |live| && existing == IdsOf(view) && Needed(existing, live[i])
    requires ReadSoFar(existing, KeptOf(view, live), live, listings, i, after)
    ensures ReadableListings(live, listings) ==> live[i].name !in after
  {
    hide NewArchive;
    if ReadableListings(live, listings) {
      LiveIdsDistinct(live, i);
      assert !ReadName(existing, live, i, live[i].name);
    }
  }

  lemma {:induction false} LiveIdsDistinct(live: seq<LiveSnapshot>, i: nat)
    requires i < |live|
    requires forall j, k :: 0 <= j < k < |live| ==> live[j].name != live[k].name
    ensures live[i].name in LiveIds(live) && LiveIds(live)[live[i].name] == live[i].id
  {
    var n := |live| - 1;
    if i < n { LiveIdsDistinct(live[..n], i); }
  }

  /** The archives whose name is gone from the live list or now stands for another archive. */
  function StaleNames(existing: map<string, string>, live: seq<LiveSnapshot>): set<string> {
    set name | name in existing && !(name in LiveIds(live) && LiveIds(live)[name] == existing[name])
  }

  lemma StaleIsReplaced(before: map<string, Archived>, existing: map<string, string>, live: seq<LiveSnapshot>,
                        listings: map<string, Listing>, after: map<string, Archived>)
    requires existing == IdsOf(before) && Updated(before, live, listings, after)
    ensures StaleNames(existing, live) == ReplacedNames(before, after)
  {
    hide LiveIds;
  }

  lemma KeptAndStale(view: map<string, Archived>, existing: map<string, string>, live: seq<LiveSnapshot>)
    requires existing == IdsOf(view)
    ensures |KeptOf(view, live)| + |StaleNames(existing, live)| == |view|
    ensures forall name :: name in view ==> (name in KeptOf(view, live) <==> name !in StaleNames(existing, live))
  {
    hide LiveIds;
    var kept, stale := KeptOf(view, live), StaleNames(existing, live);
    assert kept.Keys !! stale && kept.Keys + stale == view.Keys;
    assert |kept| == |kept.Keys| && |view| == |view.Keys|;
  }

  lemma StaleRemoved(t: Tables, r: Tables, fold: char -> char, view: map<string, Archived>, live: seq<LiveSnapshot>,
                     stale: set<string>, doomed: set<int>)
    requires Consistent(t, fold) && Shows(t, view)
    requires forall name :: name in view ==> (name in KeptOf(view, live) <==> name !in stale)
    requires doomed == set id | id in t.archives && t.archives[id].name in stale
    requires r.archives == t.archives - doomed
    requires forall row :: row in r.files <==> row in t.files && t.files[row].archive !in doomed
    requires forall row :: row in r.files ==> r.files[row] == t.files[row]
    requires t.postings == PostingsOf(fold, t.files) ==> r.postings == PostingsOf(fold, r.files)
    ensures Consistent(r, fold) && Shows(r, KeptOf(view, live))
  {
    hide PostingsOf, LiveIds, FilesOf;
    var kept := KeptOf(view, live);
    forall name | name in view
      ensures name in kept <==> exists id :: id in t.archives && id !in doomed && t.archives[id].name == name
    {
      assert NameTaken(t, name);
      var id :| id in t.archives && t.archives[id].name == name;
      assert id in doomed <==> name in stale;
    }
    DeleteArchivesShows(t, r, fold, doomed, view, kept);
  }

  lemma NoSnapshotRead(existing: map<string, string>, kept: map<string, Archived>, live: seq<LiveSnapshot>,
                    listings: map<string, Listing>)
    ensures ReadSoFar(existing, kept, live, listings, 0, kept)
  {
  }
}
