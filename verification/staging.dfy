/** What the Docker staging directory holds: the cleaning before a run (src/jobs.rs:1602-1696) and
    the copies and dumps of the run (src/jobs.rs:846-872, 943-1055). */
module Staging {
  import opened Ordering
  import opened Paths
  import opened Selection
  import opened FileTree
  import opened QuiesceTrace
  import opened Containers
  import opened Decimals

  // ---------------------------------------------------------------------------------------
  // Copies
  // ---------------------------------------------------------------------------------------

  const PRIVATE: int := 0

  /** What rsync makes of a destination directory: a directory source replaces its content, any other
      source becomes one entry of it. */
  function Received(before: Node, name: string, source: Node): (r: Node)
    requires before.Dir?
    ensures r.Dir?
  {
    if source.Dir? then source else Dir(before.meta, before.entries[name := source])
  }

  /** A copy into a slot, which is created if it is not there. */
  function ReceivedInto(held: Option<Node>, name: string, source: Node): (r: Node)
    ensures r.Dir?
  {
    Received(if held.Some? && held.value.Dir? then held.value else Dir(PRIVATE, map[]), name, source)
  }

  /** A copy leaves nothing else behind exactly when the source is a directory or the destination held
      nothing else before; cleaning does not look inside the destinations that it keeps. */
  lemma ReceivedIsExactIff(before: Node, name: string, source: Node)
    requires before.Dir?
    ensures (Received(before, name, source).entries == if source.Dir? then source.entries else map[name := source])
            <==> source.Dir? || before.entries.Keys <= {name}
  {
    if !source.Dir? {
      var after := Received(before, name, source).entries;
      if before.entries.Keys <= {name} {
        assert after.Keys == {name};
      } else {
        var other :| other in before.entries && other != name;
        assert other in after;
      }
    }
  }

  lemma ReceivedShows(held: Option<Node>, name: string, source: Node)
    ensures var r := ReceivedInto(held, name, source);
            if source.Dir? then r == source else Child(Some(r), name) == Some(source)
  {
  }

  // ---------------------------------------------------------------------------------------
  // Cleaning one directory
  // ---------------------------------------------------------------------------------------

  function Kept(before: Option<Node>, keep: string -> bool): map<string, Node> {
    if before.Some? && before.value.Dir?
    then map name | name in before.value.entries && keep(name) && before.value.entries[name].Dir?
                    :: before.value.entries[name]
    else map[]
  }

  /** For example, a position directory that held a copy of one file is kept, and when another file is
      now mounted at that position, the old copy stays beside the new one. */
  lemma OldFileStays(earlier: Node, later: Node)
    requires !later.Dir?
    ensures var held := Dir(PRIVATE, map["a.conf" := earlier]);
            var kept := Kept(Some(Dir(PRIVATE, map["0" := held])), name => name == "0");
            && "0" in kept
            && ReceivedInto(Some(kept["0"]), "b.conf", later).entries == map["a.conf" := earlier, "b.conf" := later]
  {
  }

  // ---------------------------------------------------------------------------------------
  // The layout of the staging directory
  // ---------------------------------------------------------------------------------------

  const MOUNTS := "mounts"
  const SERVICES := "services"
  const POSTGRES := "postgres"

  function Child(node: Option<Node>, name: string): Option<Node> {
    if node.Some? && node.value.Dir? && name in node.value.entries then Some(node.value.entries[name]) else None
  }

  function Find(staging: Node, slot: Slot): Option<Node> {
    match slot
    case MountSlot(id, position) => Child(Child(Child(Some(staging), MOUNTS), id), Decimal(position))
    case ServiceSlot(position) => Child(Child(Some(staging), SERVICES), Decimal(position))
  }

  function WithChild(node: Node, name: string, child: Node): Node
    requires node.Dir?
  {
    Dir(node.meta, node.entries[name := child])
  }

  function Ids(selected: seq<ContainerAudit>): set<string> {
    set c | c in selected :: c.info.id
  }

  function PositionNames(config: DockerConfig, info: ContainerInfo): set<string> {
    set i: nat | i < |info.mounts| && MountIsStageable(config, info.mounts[i]) :: Decimal(i)
  }

  function ServiceNames(count: nat): set<string> {
    set i: nat | i < count :: Decimal(i)
  }

  function DumpNames(selected: seq<ContainerAudit>): set<string> {
    set c | c in selected && c.running && c.info.postgres :: c.info.id + ".sql"
  }

  ghost predicate AllDirs(entries: map<string, Node>) {
    forall name :: name in entries ==> entries[name].Dir?
  }

  ghost predicate MountsWithin(mounts: Option<Node>, config: DockerConfig, selected: seq<ContainerAudit>) {
    && mounts.Some? && mounts.value.Dir? && mounts.value.entries.Keys == Ids(selected)
    && AllDirs(mounts.value.entries)
    && forall c :: c in selected ==>
         var own := mounts.value.entries[c.info.id];
         own.entries.Keys <= PositionNames(config, c.info) && AllDirs(own.entries)
  }

  ghost predicate ServicesWithin(services: Option<Node>, count: nat) {
    if count == 0 then services == None
    else services.Some? && services.value.Dir? && services.value.entries.Keys <= ServiceNames(count) &&
         AllDirs(services.value.entries)
  }

  ghost predicate DumpsAre(postgres: Option<Node>, dumps: set<string>) {
    if dumps == {} then postgres == None
    else postgres.Some? && postgres.value.Dir? && postgres.value.entries.Keys == dumps &&
         forall name :: name in dumps ==> postgres.value.entries[name].Regular?
  }

  /** Directories of this run at most, and exactly these dumps. */
  ghost predicate Within(staging: Node, config: DockerConfig, selected: seq<ContainerAudit>, dumps: set<string>) {
    && MountsWithin(Child(Some(staging), MOUNTS), config, selected)
    && ServicesWithin(Child(Some(staging), SERVICES), |config.servicePaths|)
    && DumpsAre(Child(Some(staging), POSTGRES), dumps)
  }

  /** Exactly the directories and dumps of this run. */
  ghost predicate HoldsExactly(staging: Node, config: DockerConfig, selected: seq<ContainerAudit>) {
    && Within(staging, config, selected, DumpNames(selected))
    && forall slot :: IsSlot(config, selected, slot) ==> Find(staging, slot).Some?
  }

  /** So every selected container has its stageable positions, the service directory all of its
      positions, and nothing is left over. */
  lemma HoldsExactlyNames(staging: Node, config: DockerConfig, selected: seq<ContainerAudit>)
    requires HoldsExactly(staging, config, selected)
    ensures var mounts := Child(Some(staging), MOUNTS);
            && mounts.Some? && mounts.value.Dir? && mounts.value.entries.Keys == Ids(selected)
            && forall c :: c in selected ==>
                 && mounts.value.entries[c.info.id].Dir?
                 && mounts.value.entries[c.info.id].entries.Keys == PositionNames(config, c.info)
    ensures var services := Child(Some(staging), SERVICES);
            if config.servicePaths == [] then services == None
            else && services.Some? && services.value.Dir?
                 && services.value.entries.Keys == ServiceNames(|config.servicePaths|)
  {
    hide Decimal, MountIsStageable;
    var mounts, services := Child(Some(staging), MOUNTS), Child(Some(staging), SERVICES);
    forall c | c in selected
      ensures mounts.value.entries[c.info.id].entries.Keys == PositionNames(config, c.info)
    {
      forall name | name in PositionNames(config, c.info) ensures name in mounts.value.entries[c.info.id].entries {
        var i: nat :| i < |c.info.mounts| && MountIsStageable(config, c.info.mounts[i]) && name == Decimal(i);
        assert IsSlot(config, selected, MountSlot(c.info.id, i));
      }
    }
    if config.servicePaths != [] {
      forall name | name in ServiceNames(|config.servicePaths|) ensures name in services.value.entries {
        var i: nat :| i < |config.servicePaths| && name == Decimal(i);
        assert IsSlot(config, selected, ServiceSlot(i));
      }
    }
  }

  /** Cleaning keeps the directories that this run will fill, with whatever they hold, and no others. */
  ghost predicate CleanedFrom(before: Node, after: Node, config: DockerConfig, selected: seq<ContainerAudit>) {
    && Within(after, config, selected, {})
    && forall slot :: IsSlot(config, selected, slot) ==>
         Find(after, slot) == PlainDirectory(Find(before, slot))
  }

  lemma CleanedIsWithin(before: Node, after: Node, config: DockerConfig, selected: seq<ContainerAudit>)
    requires CleanedFrom(before, after, config, selected)
    ensures Within(after, config, selected, {})
  {
  }

  function PlainDirectory(node: Option<Node>): Option<Node> {
    if node.Some? && node.value.Dir? then node else None
  }

  /** The directory of one container after cleaning, given the mounts directory before it. */
  ghost predicate MountCleaned(before: Option<Node>, after: Option<Node>, config: DockerConfig, info: ContainerInfo) {
    var own := Child(after, info.id);
    own.Some? && own.value.Dir? &&
    own.value.entries == Kept(Child(before, info.id), name => name in PositionNames(config, info))
  }

  ghost predicate MountsCleaned(before: Option<Node>, after: Option<Node>, config: DockerConfig,
                                selected: seq<ContainerAudit>) {
    && after.Some? && after.value.Dir? && after.value.entries.Keys == Ids(selected)
    && forall c :: c in selected ==> MountCleaned(before, after, config, c.info)
  }

  ghost predicate ServicesCleaned(before: Option<Node>, after: Option<Node>, count: nat) {
    if count == 0 then after == None
    else after.Some? && after.value.Dir? && after.value.entries == Kept(before, name => IsPositionBelow(name, count))
  }

  lemma MountIsCleaned(was: Option<Node>, after: Option<Node>, own: Node, config: DockerConfig, info: ContainerInfo)
    requires Child(after, info.id) == Some(own) && own.Dir?
    requires own.entries == Kept(PlainDirectory(Child(was, info.id)), name => name in PositionNames(config, info))
    ensures MountCleaned(was, after, config, info)
  {
    hide PositionNames;
  }

  lemma AllMountsAreCleaned(was: Option<Node>, after: Option<Node>, config: DockerConfig, selected: seq<ContainerAudit>)
    requires after.Some? && after.value.Dir? && after.value.entries.Keys <= Ids(selected)
    requires forall k :: 0 <= k < |selected| ==> MountCleaned(was, after, config, selected[k].info)
    ensures MountsCleaned(was, after, config, selected)
  {
    hide PositionNames;
    forall c | c in selected ensures MountCleaned(was, after, config, c.info) {
      var k :| 0 <= k < |selected| && selected[k] == c;
    }
    forall id | id in Ids(selected) ensures id in after.value.entries {
      var c :| c in selected && c.info.id == id;
      assert MountCleaned(was, after, config, c.info);
    }
  }

  lemma MountCleanedStays(was: Option<Node>, before: Option<Node>, after: Option<Node>, config: DockerConfig,
                          info: ContainerInfo)
    requires MountCleaned(was, before, config, info) && Child(after, info.id) == Child(before, info.id)
    ensures MountCleaned(was, after, config, info)
  {
  }

  lemma CleanedLayout(before: Node, after: Node, config: DockerConfig, selected: seq<ContainerAudit>)
    requires |config.servicePaths| <= USIZE_LIMIT
    requires MountsCleaned(Child(Some(before), MOUNTS), Child(Some(after), MOUNTS), config, selected)
    requires ServicesCleaned(Child(Some(before), SERVICES), Child(Some(after), SERVICES), |config.servicePaths|)
    requires Child(Some(after), POSTGRES) == None
    ensures Within(after, config, selected, {})
  {
    hide MountIsStageable, IsPositionBelow, Decimal;
    var mounts, services := Child(Some(after), MOUNTS), Child(Some(after), SERVICES);
    forall id | id in mounts.value.entries ensures mounts.value.entries[id].Dir? {
      var c :| c in selected && c.info.id == id;
      assert MountCleaned(Child(Some(before), MOUNTS), mounts, config, c.info);
    }
    forall c | c in selected
      ensures var own := mounts.value.entries[c.info.id];
              own.entries.Keys <= PositionNames(config, c.info) && AllDirs(own.entries)
    {
      assert MountCleaned(Child(Some(before), MOUNTS), mounts, config, c.info);
    }
    if services.Some? {
      forall name | name in services.value.entries ensures name in ServiceNames(|config.servicePaths|) {
        PositionNamesAreCanonical(name, |config.servicePaths|);
      }
    }
  }

  lemma CleanedSlot(before: Node, after: Node, config: DockerConfig, selected: seq<ContainerAudit>, slot: Slot)
    requires |config.servicePaths| <= USIZE_LIMIT
    requires MountsCleaned(Child(Some(before), MOUNTS), Child(Some(after), MOUNTS), config, selected)
    requires ServicesCleaned(Child(Some(before), SERVICES), Child(Some(after), SERVICES), |config.servicePaths|)
    requires IsSlot(config, selected, slot)
    ensures Find(after, slot) == PlainDirectory(Find(before, slot))
  {
    hide MountIsStageable, IsPositionBelow, Decimal;
    match slot
    case MountSlot(id, position) =>
      var c :| c in selected && c.info.id == id && position < |c.info.mounts| &&
               MountIsStageable(config, c.info.mounts[position]);
      assert MountCleaned(Child(Some(before), MOUNTS), Child(Some(after), MOUNTS), config, c.info);
      assert Decimal(position) in PositionNames(config, c.info);
    case ServiceSlot(position) =>
      var name, count := Decimal(position), |config.servicePaths|;
      PositionNameIsKept(position, count);
      var was := Child(Some(before), SERVICES);
      assert name in Kept(was, n => IsPositionBelow(n, count)) <==> PlainDirectory(Child(was, name)).Some?;
  }

  function BaseName(path: Path): string {
    if path == [] then "" else path[|path| - 1]
  }

  /** The directories above a slot are there. */
  predicate HasParents(staging: Node, slot: Slot) {
    && staging.Dir?
    && match slot
       case MountSlot(id, _) =>
         var mounts := Child(Some(staging), MOUNTS);
         mounts.Some? && mounts.value.Dir? && id in mounts.value.entries && mounts.value.entries[id].Dir?
       case ServiceSlot(_) =>
         var services := Child(Some(staging), SERVICES);
         services.Some? && services.value.Dir?
  }

  function Placed(staging: Node, slot: Slot, node: Node): Node
    requires HasParents(staging, slot)
  {
    match slot
    case MountSlot(id, position) =>
      var mounts := staging.entries[MOUNTS];
      WithChild(staging, MOUNTS, WithChild(mounts, id, WithChild(mounts.entries[id], Decimal(position), node)))
    case ServiceSlot(position) =>
      WithChild(staging, SERVICES, WithChild(staging.entries[SERVICES], Decimal(position), node))
  }

  lemma SlotParents(staging: Node, config: DockerConfig, selected: seq<ContainerAudit>, dumps: set<string>, slot: Slot)
    requires Within(staging, config, selected, dumps) && IsSlot(config, selected, slot)
    ensures HasParents(staging, slot)
    ensures Find(staging, slot).Some? ==> Find(staging, slot).value.Dir?
  {
    hide Decimal, MountIsStageable;
  }

  /** Positions have distinct names, so a copy changes its own directory alone. */
  lemma PlacedFind(staging: Node, slot: Slot, node: Node, other: Slot)
    requires HasParents(staging, slot)
    ensures Find(Placed(staging, slot, node), other) == if other == slot then Some(node) else Find(staging, other)
  {
    hide Decimal;
    if Decimal(slot.position) == Decimal(other.position) { DecimalInjective(slot.position, other.position); }
  }

  lemma PlacedOthers(staging: Node, slot: Slot, node: Node)
    requires HasParents(staging, slot)
    ensures Placed(staging, slot, node).Dir?
    ensures forall name :: name != MOUNTS && name != SERVICES ==>
              Child(Some(Placed(staging, slot, node)), name) == Child(Some(staging), name)
  {
    hide Decimal;
  }

  lemma PlacedWithin(staging: Node, config: DockerConfig, selected: seq<ContainerAudit>, dumps: set<string>,
                     slot: Slot, node: Node)
    requires Within(staging, config, selected, dumps) && IsSlot(config, selected, slot)
    requires HasParents(staging, slot) && node.Dir? && DistinctIds(selected)
    ensures Within(Placed(staging, slot, node), config, selected, dumps)
  {
    hide Decimal, MountIsStageable, PositionNames, MountsWithin, DistinctIds;
    if slot.MountSlot? {
      var c :| c in selected && c.info.id == slot.id && slot.position < |c.info.mounts| &&
               MountIsStageable(config, c.info.mounts[slot.position]);
      SlotIsNamed(config, c.info, slot.position);
      MountsStayWithin(staging.entries[MOUNTS], config, selected, c, Decimal(slot.position), node);
    }
  }

  lemma MountsStayWithin(mounts: Node, config: DockerConfig, selected: seq<ContainerAudit>, c: ContainerAudit,
                         name: string, node: Node)
    requires MountsWithin(Some(mounts), config, selected) && DistinctIds(selected)
    requires c in selected && name in PositionNames(config, c.info) && node.Dir?
    ensures var own := mounts.entries[c.info.id];
            MountsWithin(Some(WithChild(mounts, c.info.id, WithChild(own, name, node))), config, selected)
  {
    hide PositionNames;
    forall d | d in selected && d.info.id == c.info.id ensures d == c {}
  }

  lemma SlotIsNamed(config: DockerConfig, info: ContainerInfo, position: nat)
    requires position < |info.mounts| && MountIsStageable(config, info.mounts[position])
    ensures Decimal(position) in PositionNames(config, info)
  {
  }

  lemma DumpNamesSnoc(selected: seq<ContainerAudit>, last: ContainerAudit)
    ensures DumpNames(selected + [last]) ==
            DumpNames(selected) + if last.running && last.info.postgres then {last.info.id + ".sql"} else {}
  {
    var longer := selected + [last];
    forall c ensures c in longer <==> c in selected || c == last {}
  }

  /** Where a slot lies in the tree. */
  function SlotPath(slot: Slot): Path {
    match slot
    case MountSlot(id, position) => ["mounts", id, Decimal(position)]
    case ServiceSlot(position) => ["services", Decimal(position)]
  }

  lemma FindIsAt(staging: Node, slot: Slot)
    ensures Find(staging, slot) == At(staging, SlotPath(slot))
  {
    hide Decimal;
    var name := Decimal(slot.position);
    match slot
    case MountSlot(id, position) =>
      var mounts, own := Child(Some(staging), "mounts"), Child(Child(Some(staging), "mounts"), id);
      AtChild(staging, "mounts");
      AtConcat(staging, ["mounts"], [id]);
      AtConcat(staging, ["mounts", id], [name]);
      assert ["mounts"] + [id] == ["mounts", id] && ["mounts", id] + [name] == ["mounts", id, name];
      if mounts.Some? { AtChild(mounts.value, id); }
      if own.Some? { AtChild(own.value, name); }
    case ServiceSlot(position) =>
      var services := Child(Some(staging), "services");
      AtChild(staging, "services");
      AtConcat(staging, ["services"], [name]);
      assert ["services"] + [name] == ["services", name];
      if services.Some? { AtChild(services.value, name); }
  }

  /** A copy of a directory equals it; anything else appears in its slot under its own name. */
  ghost predicate HoldsCopy(staging: Node, path: Path, source: Path, node: Node) {
    if node.Dir? then At(staging, path) == Some(node)
    else !node.Special? && (source != [] ==> At(staging, path + [source[|source| - 1]]) == Some(node))
  }

  /** The staging directory holds nothing of earlier runs: every position directory is that of a mount to
      be staged, every service directory that of a configured path, and the dumps are those of the
      running database containers. */
  ghost predicate NothingStale(staging: Node, config: DockerConfig, audit: seq<ContainerAudit>) {
    && (forall id, name :: Exists(staging, ["mounts", id, name]) ==> IsAskedFor(config, audit, id, name))
    && (forall name :: Exists(staging, ["services", name]) ==>
          exists i: nat :: i < |config.servicePaths| && name == Decimal(i))
    && (forall name :: Exists(staging, ["postgres", name]) <==>
          exists c :: c in audit && AskedToStop(config, c) && c.info.postgres && name == c.info.id + ".sql")
  }

  /** Some mount at this position of this container is to be staged. */
  ghost predicate IsAskedFor(config: DockerConfig, audit: seq<ContainerAudit>, id: string, name: string) {
    exists c, i: nat ::
      && c in audit && c.info.id == id && i < |c.info.mounts| && name == Decimal(i)
      && (config.stopAllStateful || c.info.id in config.stopContainers || c.info.name in config.stopContainers)
      && (config.stageMounts == [] || c.info.mounts[i].source in config.stageMounts)
  }

  lemma ChildAt(staging: Node, first: string, name: string)
    ensures Exists(staging, [first, name]) <==> Child(Child(Some(staging), first), name).Some?
  {
    AtChild(staging, first);
    AtConcat(staging, [first], [name]);
    assert [first] + [name] == [first, name];
    var above := Child(Some(staging), first);
    if above.Some? { AtChild(above.value, name); }
  }

  lemma PositionIsAskedFor(config: DockerConfig, audit: seq<ContainerAudit>, c: ContainerAudit, i: nat)
    requires c in SelectedOf(config, audit) && i < |c.info.mounts| && MountIsStageable(config, c.info.mounts[i])
    ensures IsAskedFor(config, audit, c.info.id, Decimal(i))
  {
    hide Decimal;
    assert c in audit && IsSelected(config, c);
  }

  lemma DumpsAreAskedFor(config: DockerConfig, audit: seq<ContainerAudit>, name: string)
    ensures name in DumpNames(SelectedOf(config, audit)) <==>
            exists c :: c in audit && AskedToStop(config, c) && c.info.postgres && name == c.info.id + ".sql"
  {
    hide AskedToStop, IsSelected;
    forall c ensures c in SelectedOf(config, audit) && c.running <==> c in audit && AskedToStop(config, c) {
      AskedIsSelected(config, c);
    }
  }

  lemma ExactIsNotStale(staging: Node, config: DockerConfig, audit: seq<ContainerAudit>)
    requires HoldsExactly(staging, config, SelectedOf(config, audit))
    ensures NothingStale(staging, config, audit)
  {
    hide Decimal, MountIsStageable, SelectedOf, IsAskedFor, DumpNames;
    var selected := SelectedOf(config, audit);
    HoldsExactlyNames(staging, config, selected);
    forall id, name | Exists(staging, ["mounts", id, name]) ensures IsAskedFor(config, audit, id, name) {
      MountChildAt(staging, id, name);
      var mounts := Child(Some(staging), MOUNTS);
      assert id in Ids(selected);
      var c :| c in selected && c.info.id == id;
      assert name in PositionNames(config, c.info);
      var i: nat :| i < |c.info.mounts| && MountIsStageable(config, c.info.mounts[i]) && name == Decimal(i);
      PositionIsAskedFor(config, audit, c, i);
    }
    forall name | Exists(staging, ["services", name])
      ensures exists i: nat :: i < |config.servicePaths| && name == Decimal(i)
    {
      ChildAt(staging, "services", name);
      assert name in ServiceNames(|config.servicePaths|);
    }
    forall name ensures Exists(staging, ["postgres", name]) <==> name in DumpNames(selected) {
      ChildAt(staging, "postgres", name);
    }
    forall name { DumpsAreAskedFor(config, audit, name); }
  }

  lemma MountChildAt(staging: Node, id: string, name: string)
    ensures Exists(staging, ["mounts", id, name]) <==> Child(Child(Child(Some(staging), "mounts"), id), name).Some?
  {
    var mounts, own := Child(Some(staging), "mounts"), Child(Child(Some(staging), "mounts"), id);
    AtChild(staging, "mounts");
    AtConcat(staging, ["mounts"], [id]);
    AtConcat(staging, ["mounts", id], [name]);
    assert ["mounts"] + [id] == ["mounts", id] && ["mounts", id] + [name] == ["mounts", id, name];
    if mounts.Some? { AtChild(mounts.value, id); }
    if own.Some? { AtChild(own.value, name); }
  }

  /** The copy into a slot read this source, as the read with this number. */
  datatype Read = Read(source: Path, time: nat)

  /** The slot holds a copy of this source made by a read with a number in this range. */
  ghost predicate Copied(copies: map<Slot, Read>, slot: Slot, source: Path, from: nat, to: nat) {
    slot in copies && copies[slot].source == source && from <= copies[slot].time < to
  }

  /** So does every slot of a stageable mount of the container. */
  ghost predicate Filled(config: DockerConfig, info: ContainerInfo, copies: map<Slot, Read>, from: nat, to: nat) {
    forall i: nat :: i < |info.mounts| && MountIsStageable(config, info.mounts[i]) ==>
      Copied(copies, MountSlot(info.id, i), info.mounts[i].source, from, to)
  }

  ghost predicate PathsFilled(config: DockerConfig, copies: map<Slot, Read>, from: nat, to: nat) {
    forall i: nat :: i < |config.servicePaths| ==> Copied(copies, ServiceSlot(i), config.servicePaths[i], from, to)
  }

  ghost predicate SameReads(before: map<Slot, Read>, after: map<Slot, Read>, ids: set<string>, paths: bool) {
    forall slot :: slot in before && !Touches(slot, ids, paths) ==> slot in after && after[slot] == before[slot]
  }

  lemma FilledStays(config: DockerConfig, info: ContainerInfo, before: map<Slot, Read>, after: map<Slot, Read>,
                    ids: set<string>, paths: bool, from0: nat, to0: nat, from: nat, to: nat)
    requires Filled(config, info, before, from0, to0) && from <= from0 && to0 <= to
    requires SameReads(before, after, ids, paths) && info.id !in ids
    ensures Filled(config, info, after, from, to)
  {
    hide MountIsStageable;
    forall i: nat | i < |info.mounts| && MountIsStageable(config, info.mounts[i])
      ensures Copied(after, MountSlot(info.id, i), info.mounts[i].source, from, to)
    {
      assert Copied(before, MountSlot(info.id, i), info.mounts[i].source, from0, to0);
      assert !Touches(MountSlot(info.id, i), ids, paths);
    }
  }

  lemma FilledWider(config: DockerConfig, info: ContainerInfo, copies: map<Slot, Read>, from0: nat, to0: nat,
                    from: nat, to: nat)
    requires Filled(config, info, copies, from0, to0) && from <= from0 && to0 <= to
    ensures Filled(config, info, copies, from, to)
  {
    hide MountIsStageable;
  }

  class StagingArea {
    var staging: Node

    /** What the n-th read finds at a path; sources may change between two reads. */
    const content: (nat, Path) -> Node
    var readCount: nat

    /** The last copy of this run into each slot. */
    ghost var copies: map<Slot, Read>

    /** Which of the system calls and commands fail for reasons outside the tree. */
    const fails: nat -> bool
    var calls: nat

    constructor (staging: Node, content: (nat, Path) -> Node, fails: nat -> bool)
      requires staging.Dir?
      ensures Valid() && this.staging == staging && this.content == content && this.fails == fails
    {
      this.staging, this.content, this.fails := staging, content, fails;
      readCount, calls, copies := 0, 0, map[];
    }

    ghost predicate Faulty() {
      exists n :: fails(n)
    }

    /** The path is at some time something that cannot be copied. */
    ghost predicate Uncopyable(source: Path) {
      exists n :: content(n, source).Special?
    }

    method SystemCall() returns (ok: bool)
      modifies this`calls
      ensures ok || Faulty()
    {
      ok := !fails(calls);
      calls := calls + 1;
    }

    ghost predicate Valid()
      reads this`staging
    {
      staging.Dir?
    }

    ghost predicate OthersUntouched(before: Node)
      reads this`staging
    {
      && staging.Dir? && before.Dir?
      && forall name :: name != MOUNTS && name != SERVICES && name != POSTGRES ==>
           Child(Some(staging), name) == Child(Some(before), name)
    }

    /** Every copy of this run is in place. */
    ghost predicate Mirrors()
      reads this`staging, this`copies
    {
      forall slot :: slot in copies ==>
        var held, read := Find(staging, slot), content(copies[slot].time, copies[slot].source);
        && held.Some? && held.value.Dir? && !read.Special?
        && if read.Dir? then held.value == read else Child(held, BaseName(copies[slot].source)) == Some(read)
    }

    /** Copies went into no other slots than these. */
    twostate predicate OnlyCopied(ids: set<string>, paths: bool)
      reads this`copies, this`readCount
    {
      old(readCount) <= readCount && SameReads(old(copies), copies, ids, paths)
    }

    ghost predicate Filling(config: DockerConfig, selected: seq<ContainerAudit>, dumps: set<string>)
      reads this`staging, this`copies
    {
      Valid() && DistinctIds(selected) && Within(staging, config, selected, dumps) && Mirrors()
    }

    /** Replaces anything but a directory by a new directory, then removes every entry that is not a
        wanted directory. Any step can fail; an interrupted removal leaves some of the entry. */
    method CleanChildDirectories(before: Option<Node>, keep: string -> bool) returns (ok: bool, after: Option<Node>)
      modifies this`calls
      ensures ok ==> after.Some? && after.value.Dir? && after.value.entries == Kept(before, keep)
      ensures ok || Faulty()
    {
      after := before;
      ok := SystemCall();
      if !ok { return; }
      if after.Some? && !after.value.Dir? { after := None; }
      ok := SystemCall();
      if !ok { return; }
      if after.None? { after := Some(Dir(PRIVATE, map[])); }
      var meta, listed := after.value.meta, after.value.entries;
      var entries, todo := listed, listed.Keys;
      while todo != {}
        invariant todo <= listed.Keys
        invariant forall name :: name in entries <==>
                    name in listed && (name in todo || (keep(name) && listed[name].Dir?))
        invariant forall name :: name in entries ==> entries[name] == listed[name]
      {
        var name := AnyOf(todo);
        var done := SystemCall();
        if !keep(name) || !entries[name].Dir? {
          if !done {
            var left: Node := *;
            return false, Some(Dir(meta, entries[name := left]));
          }
          entries := entries - {name};
        } else if !done {
          return false, Some(Dir(meta, entries));
        }
        todo := todo - {name};
      }
      after := Some(Dir(meta, entries));
      assert entries == Kept(before, keep);
    }

    method Replace(name: string, node: Option<Node>)
      requires Valid()
      modifies this`staging
      ensures Valid() && forall n :: Child(Some(staging), n) == if n == name then node else Child(Some(old(staging)), n)
    {
      staging := if node.Some? then WithChild(staging, name, node.value)
                 else Dir(staging.meta, staging.entries - {name});
    }

    method RemoveStagingPath(name: string) returns (ok: bool)
      requires Valid()
      modifies this`staging, this`calls
      ensures Valid() && forall n :: n != name ==> Child(Some(staging), n) == Child(Some(old(staging)), n)
      ensures ok ==> Child(Some(staging), name) == None
      ensures ok || Faulty()
    {
      ok := SystemCall();
      if Child(Some(staging), name) == None { return; }
      if ok {
        Replace(name, None);
      } else {
        var left: Node := *;
        Replace(name, Some(left));
      }
    }

    method CleanMounts(config: DockerConfig, selected: seq<ContainerAudit>) returns (ok: bool)
      requires Valid() && DistinctIds(selected)
      modifies this`staging, this`calls
      ensures Valid() && forall n :: n != MOUNTS ==> Child(Some(staging), n) == Child(Some(old(staging)), n)
      ensures ok ==> MountsCleaned(Child(Some(old(staging)), MOUNTS), Child(Some(staging), MOUNTS), config, selected)
      ensures ok || Faulty()
    {
      hide MountIsStageable, MountCleaned, PositionNames;
      var ids := Ids(selected);
      ghost var was := Child(Some(staging), MOUNTS);
      var mounts;
      ok, mounts := CleanChildDirectories(Child(Some(staging), MOUNTS), name => name in ids);
      Replace(MOUNTS, mounts);
      if !ok { return; }
      for i := 0 to |selected|
        invariant Valid() && forall n :: n != MOUNTS ==> Child(Some(staging), n) == Child(Some(old(staging)), n)
        invariant mounts.Some? && mounts.value.Dir? && Child(Some(staging), MOUNTS) == mounts
        invariant mounts.value.entries.Keys <= ids
        invariant forall k :: 0 <= k < i ==> MountCleaned(was, mounts, config, selected[k].info)
        invariant forall k :: i <= k < |selected| ==>
                    Child(mounts, selected[k].info.id) == PlainDirectory(Child(was, selected[k].info.id))
      {
        ghost var before := mounts;
        var info, own := selected[i].info, None;
        assert selected[i] in selected;
        ok, own := CleanChildDirectories(Child(mounts, info.id), name => name in PositionNames(config, info));
        mounts := Some(Dir(mounts.value.meta, if own.Some? then mounts.value.entries[info.id := own.value]
                                              else mounts.value.entries - {info.id}));
        Replace(MOUNTS, mounts);
        if !ok { return; }
        MountIsCleaned(was, mounts, own.value, config, info);
        forall k | 0 <= k < i ensures MountCleaned(was, mounts, config, selected[k].info) {
          MountCleanedStays(was, before, mounts, config, selected[k].info);
        }
      }
      AllMountsAreCleaned(was, mounts, config, selected);
    }

    /** Brings any earlier content down to the directories of this run. */
    method CleanStaleStaging(config: DockerConfig, selected: seq<ContainerAudit>) returns (ok: bool)
      requires Valid() && DistinctIds(selected) && |config.servicePaths| <= USIZE_LIMIT
      modifies this`staging, this`calls
      ensures OthersUntouched(old(staging))
      ensures ok ==> CleanedFrom(old(staging), staging, config, selected)
      ensures ok || Faulty()
    {
      hide Kept, Find, IsSlot, IsPositionBelow, Ids, MountCleaned, MountsCleaned, Within;
      ok := CleanMounts(config, selected);
      if !ok { return; }
      var count := |config.servicePaths|;
      if count == 0 {
        ok := RemoveStagingPath(SERVICES);
      } else {
        var after;
        ok, after := CleanChildDirectories(Child(Some(staging), SERVICES), name => IsPositionBelow(name, count));
        Replace(SERVICES, after);
      }
      if !ok { return; }
      ok := RemoveStagingPath(POSTGRES);
      if !ok { return; }
      CleanedLayout(old(staging), staging, config, selected);
      forall slot | IsSlot(config, selected, slot)
        ensures Find(staging, slot) == PlainDirectory(Find(old(staging), slot))
      {
        CleanedSlot(old(staging), staging, config, selected, slot);
      }
    }

    // -------------------------------------------------------------------------------------
    // Filling
    // -------------------------------------------------------------------------------------

    /** One copy into its directory. A failed copy leaves that directory in any state. */
    method CopyPath(config: DockerConfig, selected: seq<ContainerAudit>, ghost dumps: set<string>, slot: Slot,
                    source: Path)
        returns (ok: bool)
      requires Filling(config, selected, dumps) && IsSlot(config, selected, slot)
      modifies this`staging, this`copies, this`readCount, this`calls
      ensures OthersUntouched(old(staging))
      ensures ok ==> Filling(config, selected, dumps) && readCount == old(readCount) + 1
      ensures ok ==> copies == old(copies)[slot := Read(source, old(readCount))]
      ensures ok ==> !content(old(readCount), source).Special?
      ensures ok ==>
                Find(staging, slot) ==
                Some(ReceivedInto(Find(old(staging), slot), BaseName(source), content(old(readCount), source)))
      ensures ok || Faulty() || Uncopyable(source)
    {
      hide Within, Find, IsSlot, Placed, ReceivedInto;
      var read := content(readCount, source);
      readCount := readCount + 1;
      if read.Special? { return false; }
      ok := SystemCall();
      SlotParents(staging, config, selected, dumps, slot);
      var held := Find(staging, slot);
      if !ok {
        var left: Node := *;
        PlacedOthers(staging, slot, left);
        staging := Placed(staging, slot, left);
        return;
      }
      var after := ReceivedInto(held, BaseName(source), read);
      ReceivedShows(held, BaseName(source), read);
      PlacedWithin(staging, config, selected, dumps, slot, after);
      forall other
        ensures Find(Placed(staging, slot, after), other) == if other == slot then Some(after) else Find(staging, other)
      {
        PlacedFind(staging, slot, after, other);
      }
      PlacedOthers(staging, slot, after);
      staging := Placed(staging, slot, after);
      copies := copies[slot := Read(source, readCount - 1)];
    }

    /** Some mount to be staged cannot be copied. */
    ghost predicate UncopyableMount(config: DockerConfig, info: ContainerInfo) {
      exists m :: m in info.mounts && MountIsStageable(config, m) && (!m.absolute || Uncopyable(m.source))
    }

    ghost predicate UncopyableAmong(config: DockerConfig, selected: seq<ContainerAudit>) {
      exists c :: c in selected && UncopyableMount(config, c.info)
    }

    ghost predicate UncopyablePath(config: DockerConfig) {
      exists p :: p in config.servicePaths && Uncopyable(p)
    }

    method CopyMounts(config: DockerConfig, selected: seq<ContainerAudit>, ghost dumps: set<string>,
                      container: ContainerAudit)
        returns (ok: bool)
      requires Filling(config, selected, dumps) && container in selected
      modifies this`staging, this`copies, this`readCount, this`calls
      ensures OthersUntouched(old(staging))
      ensures ok ==> Filling(config, selected, dumps)
      ensures ok ==> Filled(config, container.info, copies, old(readCount), readCount)
      ensures ok ==> OnlyCopied({container.info.id}, false) && AbsoluteMounts(config, container.info)
      ensures ok || Faulty() || UncopyableMount(config, container.info)
    {
      hide Within, Mirrors, MountIsStageable, Uncopyable;
      var info := container.info;
      for i := 0 to |info.mounts|
        invariant OthersUntouched(old(staging)) && Filling(config, selected, dumps)
        invariant OnlyCopied({info.id}, false)
        invariant forall k: nat :: k < i && MountIsStageable(config, info.mounts[k]) ==> info.mounts[k].absolute
        invariant forall k: nat :: k < i && MountIsStageable(config, info.mounts[k]) ==>
                    Copied(copies, MountSlot(info.id, k), info.mounts[k].source, old(readCount), readCount)
      {
        if MountIsStageable(config, info.mounts[i]) {
          assert info.mounts[i] in info.mounts;
          if !info.mounts[i].absolute { return false; }
          ok := CopyPath(config, selected, dumps, MountSlot(info.id, i), info.mounts[i].source);
          if !ok { return; }
        }
      }
      ok := true;
    }

    method CopyServicePaths(config: DockerConfig, selected: seq<ContainerAudit>, ghost dumps: set<string>)
        returns (ok: bool)
      requires Filling(config, selected, dumps)
      modifies this`staging, this`copies, this`readCount, this`calls
      ensures OthersUntouched(old(staging))
      ensures ok ==> Filling(config, selected, dumps) && OnlyCopied({}, true)
      ensures ok ==> PathsFilled(config, copies, old(readCount), readCount)
      ensures ok || Faulty() || UncopyablePath(config)
    {
      hide Within, Mirrors, Uncopyable;
      for i := 0 to |config.servicePaths|
        invariant OthersUntouched(old(staging)) && Filling(config, selected, dumps) && OnlyCopied({}, true)
        invariant forall k: nat :: k < i ==>
                    Copied(copies, ServiceSlot(k), config.servicePaths[k], old(readCount), readCount)
      {
        ok := CopyPath(config, selected, dumps, ServiceSlot(i), config.servicePaths[i]);
        if !ok {
          assert config.servicePaths[i] in config.servicePaths;
          return;
        }
      }
      ok := true;
    }

    /** The dump of one database container. */
    method DumpPostgres(config: DockerConfig, selected: seq<ContainerAudit>, ghost dumps: set<string>, id: string)
        returns (ok: bool)
      requires Filling(config, selected, dumps)
      modifies this`staging, this`calls
      ensures OthersUntouched(old(staging))
      ensures ok ==> Filling(config, selected, dumps + {id + ".sql"})
      ensures ok || Faulty()
    {
      var held := Child(Some(staging), POSTGRES);
      if held.Some? && !held.value.Dir? { return false; }
      ok := SystemCall();
      var size: nat := *;
      var data: int := *;
      var before := if held.Some? then held.value else Dir(PRIVATE, map[]);
      if Child(held, id + ".sql").Some? && Child(held, id + ".sql").value.Dir? { return false; }
      var next := WithChild(staging, POSTGRES, WithChild(before, id + ".sql", Regular(size, data)));
      assert forall slot :: Find(next, slot) == Find(staging, slot) by { hide Decimal; }
      staging := next;
    }

    method CopyStopped(config: DockerConfig, selected: seq<ContainerAudit>) returns (ok: bool)
      requires Filling(config, selected, {})
      modifies this`staging, this`copies, this`readCount, this`calls
      ensures OthersUntouched(old(staging))
      ensures ok ==> Filling(config, selected, {}) && OnlyCopied(StoppedIds(selected), false)
      ensures ok ==> forall c :: c in selected && !c.running ==>
                Filled(config, c.info, copies, old(readCount), readCount)
      ensures ok || Faulty() || UncopyableAmong(config, selected)
    {
      hide Within, Mirrors, UncopyableMount, MountIsStageable, Filled;
      ghost var idle := StoppedIds(selected);
      for i := 0 to |selected|
        invariant OthersUntouched(old(staging)) && Filling(config, selected, {}) && OnlyCopied(idle, false)
        invariant forall k :: 0 <= k < i && !selected[k].running ==>
                    Filled(config, selected[k].info, copies, old(readCount), readCount)
      {
        if !selected[i].running {
          ghost var since, before := readCount, copies;
          assert selected[i] in selected && selected[i].info.id in idle;
          ok := CopyMounts(config, selected, {}, selected[i]);
          if !ok { return; }
          FilledWider(config, selected[i].info, copies, since, readCount, old(readCount), readCount);
          forall k | 0 <= k < i && !selected[k].running
            ensures Filled(config, selected[k].info, copies, old(readCount), readCount)
          {
            FilledStays(config, selected[k].info, before, copies, {selected[i].info.id}, false,
                        old(readCount), since, old(readCount), readCount);
          }
        }
      }
      ok := true;
    }

    method CopyOnline(config: DockerConfig, selected: seq<ContainerAudit>) returns (ok: bool)
      requires Filling(config, selected, {})
      modifies this`staging, this`copies, this`readCount, this`calls
      ensures OthersUntouched(old(staging))
      ensures ok ==> Filling(config, selected, DumpNames(selected)) && OnlyCopied(FinalIds(selected, false), false)
      ensures ok || Faulty() || UncopyableAmong(config, selected)
    {
      hide Within, Mirrors, UncopyableMount, MountIsStageable, Filled;
      ghost var dumps: set<string>, busy := {}, FinalIds(selected, false);
      for i := 0 to |selected|
        invariant dumps == DumpNames(selected[..i])
        invariant OthersUntouched(old(staging)) && Filling(config, selected, dumps) && OnlyCopied(busy, false)
      {
        DumpNamesSnoc(selected[..i], selected[i]);
        assert selected[..i + 1] == selected[..i] + [selected[i]];
        if selected[i].running {
          assert selected[i] in selected && selected[i].info.id in busy;
          ok := CopyMounts(config, selected, dumps, selected[i]);
          if !ok { return; }
          if selected[i].info.postgres {
            ok := DumpPostgres(config, selected, dumps, selected[i].info.id);
            if !ok { return; }
            dumps := dumps + {selected[i].info.id + ".sql"};
          }
        }
      }
      assert selected[..|selected|] == selected;
      ok := true;
    }

    /** The copies after the stop: the containers that ran, or all if a service was stopped, and the
        service paths. */
    method CopyFinally(config: DockerConfig, selected: seq<ContainerAudit>, anyService: bool) returns (ok: bool)
      requires Filling(config, selected, DumpNames(selected))
      requires forall c :: c in selected && !c.running ==> Filled(config, c.info, copies, 0, readCount)
      modifies this`staging, this`copies, this`readCount, this`calls
      ensures OthersUntouched(old(staging))
      ensures ok ==> Filling(config, selected, DumpNames(selected)) && old(readCount) <= readCount
      ensures ok ==> forall c :: c in selected ==>
                if c.running || anyService then Filled(config, c.info, copies, old(readCount), readCount)
                else Filled(config, c.info, copies, 0, old(readCount))
      ensures ok ==> PathsFilled(config, copies, old(readCount), readCount)
      ensures ok || Faulty() || UncopyableAmong(config, selected) || UncopyablePath(config)
    {
      hide Within, Mirrors, UncopyableMount, UncopyablePath, MountIsStageable, Filled, DumpNames;
      ghost var busy, dumps, before := FinalIds(selected, anyService), DumpNames(selected), copies;
      for i := 0 to |selected|
        invariant OthersUntouched(old(staging)) && Filling(config, selected, dumps) && OnlyCopied(busy, false)
        invariant forall k :: 0 <= k < i && (selected[k].running || anyService) ==>
                    Filled(config, selected[k].info, copies, old(readCount), readCount)
      {
        if selected[i].running || anyService {
          ghost var since, earlier := readCount, copies;
          assert selected[i] in selected && selected[i].info.id in busy;
          ok := CopyMounts(config, selected, dumps, selected[i]);
          if !ok { return; }
          FilledWider(config, selected[i].info, copies, since, readCount, old(readCount), readCount);
          forall k | 0 <= k < i && (selected[k].running || anyService)
            ensures Filled(config, selected[k].info, copies, old(readCount), readCount)
          {
            FilledStays(config, selected[k].info, earlier, copies, {selected[i].info.id}, false,
                        old(readCount), since, old(readCount), readCount);
          }
        }
      }
      ghost var filled, middle := readCount, copies;
      ok := CopyServicePaths(config, selected, dumps);
      if !ok { return; }
      forall c | c in selected
        ensures if c.running || anyService then Filled(config, c.info, copies, old(readCount), readCount)
                else Filled(config, c.info, copies, 0, old(readCount))
      {
        if c.running || anyService {
          FilledStays(config, c.info, middle, copies, {}, true, old(readCount), filled, old(readCount), readCount);
        } else {
          StoppedIsNotFinal(selected, c);
          FilledStays(config, c.info, before, middle, busy, false, 0, old(readCount), 0, old(readCount));
          FilledStays(config, c.info, middle, copies, {}, true, 0, old(readCount), 0, old(readCount));
        }
      }
    }

    /** The directory of this mount holds a copy of its own source, made after the stop exactly if the
        container ran or a service was stopped. */
    ghost predicate HoldsMount(config: DockerConfig, c: ContainerAudit, i: nat, anyService: bool, final: nat)
      requires i < |c.info.mounts|
      reads this`staging, this`readCount
    {
      var source := c.info.mounts[i].source;
      exists n: nat ::
        && n < readCount
        && HoldsCopy(staging, ["mounts", c.info.id, Decimal(i)], source, content(n, source))
        && (final <= n <==> c.running || anyService)
    }

    /** The directory of this service path holds a copy of it, made after the stop exactly if anything was
        stopped. */
    ghost predicate HoldsPath(config: DockerConfig, audit: seq<ContainerAudit>, i: nat, anyService: bool, final: nat)
      requires i < |config.servicePaths|
      reads this`staging, this`readCount
    {
      var source := config.servicePaths[i];
      exists n: nat ::
        && n < readCount
        && HoldsCopy(staging, ["services", Decimal(i)], source, content(n, source))
        && (final <= n <==> anyService || exists c :: c in audit && AskedToStop(config, c))
    }

    lemma CopiedIsHeld(slot: Slot, source: Path, from: nat, to: nat)
      requires Mirrors() && Copied(copies, slot, source, from, to)
      ensures HoldsCopy(staging, SlotPath(slot), source, content(copies[slot].time, source))
    {
      hide Find, Decimal;
      FindIsAt(staging, slot);
      var held := Find(staging, slot);
      AtConcat(staging, SlotPath(slot), [BaseName(source)]);
      AtChild(held.value, BaseName(source));
    }

    lemma MountIsHeld(config: DockerConfig, c: ContainerAudit, i: nat, anyService: bool, final: nat)
      requires Mirrors() && i < |c.info.mounts| && MountIsStageable(config, c.info.mounts[i]) && final <= readCount
      requires if c.running || anyService then Filled(config, c.info, copies, final, readCount)
               else Filled(config, c.info, copies, 0, final)
      ensures HoldsMount(config, c, i, anyService, final)
    {
      hide MountIsStageable, Mirrors, Decimal, HoldsCopy;
      var slot, source := MountSlot(c.info.id, i), c.info.mounts[i].source;
      assert if c.running || anyService then Copied(copies, slot, source, final, readCount)
             else Copied(copies, slot, source, 0, final);
      CopiedIsHeld(slot, source, 0, readCount);
    }

    lemma PathIsHeld(config: DockerConfig, audit: seq<ContainerAudit>, i: nat, anyService: bool, final: nat)
      requires Mirrors() && i < |config.servicePaths| && final <= readCount
      requires if anyService || exists c :: c in audit && AskedToStop(config, c)
               then PathsFilled(config, copies, final, readCount)
               else PathsFilled(config, copies, 0, final)
      ensures HoldsPath(config, audit, i, anyService, final)
    {
      hide Mirrors, Decimal, HoldsCopy, AskedToStop;
      CopiedIsHeld(ServiceSlot(i), config.servicePaths[i], 0, readCount);
    }

    lemma NothingCopied()
      requires copies == map[]
      ensures Mirrors()
    {
    }

    lemma NothingToCopy(config: DockerConfig, selected: seq<ContainerAudit>)
      requires selected == [] && config.servicePaths == []
      ensures DumpNames(selected) == {} && RunningIds(selected) == []
      ensures forall from, to :: PathsFilled(config, copies, from, to)
    {
    }

    /** Once every slot has a copy, the staging directory holds exactly what it should. */
    lemma FilledHoldsExactly(config: DockerConfig, selected: seq<ContainerAudit>)
      requires Filling(config, selected, DumpNames(selected))
      requires forall c :: c in selected ==> exists from, to :: Filled(config, c.info, copies, from, to)
      requires exists from, to :: PathsFilled(config, copies, from, to)
      ensures HoldsExactly(staging, config, selected)
    {
      hide Within, Find, MountIsStageable, Filled, PathsFilled, DumpNames;
      forall slot | IsSlot(config, selected, slot) ensures slot in copies {
        match slot
        case MountSlot(id, position) =>
          var c :| c in selected && c.info.id == id && position < |c.info.mounts| &&
                   MountIsStageable(config, c.info.mounts[position]);
          var from, to :| Filled(config, c.info, copies, from, to);
          MountCopied(config, c.info, position, from, to);
        case ServiceSlot(position) =>
          var from, to :| PathsFilled(config, copies, from, to);
          PathCopied(config, position, from, to);
      }
    }

    lemma MountCopied(config: DockerConfig, info: ContainerInfo, i: nat, from: nat, to: nat)
      requires Filled(config, info, copies, from, to)
      requires i < |info.mounts| && MountIsStageable(config, info.mounts[i])
      ensures Copied(copies, MountSlot(info.id, i), info.mounts[i].source, from, to)
    {
      hide MountIsStageable;
    }

    lemma PathCopied(config: DockerConfig, i: nat, from: nat, to: nat)
      requires PathsFilled(config, copies, from, to) && i < |config.servicePaths|
      ensures Copied(copies, ServiceSlot(i), config.servicePaths[i], from, to)
    {
    }

    lemma EverythingIsHeld(config: DockerConfig, audit: seq<ContainerAudit>, anyService: bool, final: nat)
      requires Mirrors() && final <= readCount
      requires forall c :: c in SelectedOf(config, audit) ==>
                 if c.running || anyService then Filled(config, c.info, copies, final, readCount)
                 else Filled(config, c.info, copies, 0, final)
      requires if RunningIds(SelectedOf(config, audit)) != [] || anyService
               then PathsFilled(config, copies, final, readCount)
               else PathsFilled(config, copies, 0, final)
      ensures forall c, i: nat ::
                && c in audit && i < |c.info.mounts|
                && (|| config.stopAllStateful
                    || c.info.id in config.stopContainers
                    || c.info.name in config.stopContainers)
                && (config.stageMounts == [] || c.info.mounts[i].source in config.stageMounts) ==>
                  HoldsMount(config, c, i, anyService, final)
      ensures forall i: nat :: i < |config.servicePaths| ==> HoldsPath(config, audit, i, anyService, final)
    {
      hide Mirrors, SelectedOf, Filled, PathsFilled, HoldsMount, HoldsPath, RunningIds, AskedToStop, MountIsStageable;
      AnyQuieted(config, audit);
      forall c, i: nat |
        && c in audit && i < |c.info.mounts|
        && (config.stopAllStateful || c.info.id in config.stopContainers || c.info.name in config.stopContainers)
        && (config.stageMounts == [] || c.info.mounts[i].source in config.stageMounts)
        ensures HoldsMount(config, c, i, anyService, final)
      {
        ChosenIsSelected(config, audit, c, i);
        MountIsHeld(config, c, i, anyService, final);
      }
      forall i: nat | i < |config.servicePaths| ensures HoldsPath(config, audit, i, anyService, final) {
        PathIsHeld(config, audit, i, anyService, final);
      }
    }

    /** The copies before any stop. */
    method CopyBeforeStop(config: DockerConfig, selected: seq<ContainerAudit>) returns (ok: bool)
      requires Filling(config, selected, {})
      modifies this`staging, this`copies, this`readCount, this`calls
      ensures OthersUntouched(old(staging))
      ensures ok ==> Filling(config, selected, DumpNames(selected)) && old(readCount) <= readCount
      ensures ok ==> forall c :: c in selected && !c.running ==> Filled(config, c.info, copies, 0, readCount)
      ensures ok ==> PathsFilled(config, copies, 0, readCount)
      ensures ok || Faulty() || UncopyableAmong(config, selected) || UncopyablePath(config)
    {
      hide Within, MountIsStageable, UncopyableAmong, UncopyablePath, Filled, Mirrors;
      ok := CopyStopped(config, selected);
      if !ok { return; }
      ghost var from, stopped, before := old(readCount), readCount, copies;
      ok := CopyOnline(config, selected);
      if !ok { return; }
      forall c | c in selected && !c.running ensures Filled(config, c.info, copies, from, stopped) {
        StoppedIsNotFinal(selected, c);
        FilledStays(config, c.info, before, copies, FinalIds(selected, false), false, from, stopped, from, stopped);
      }
      ghost var online := copies;
      ok := CopyServicePaths(config, selected, DumpNames(selected));
      if !ok { return; }
      forall c | c in selected && !c.running ensures Filled(config, c.info, copies, 0, readCount) {
        FilledStays(config, c.info, online, copies, {}, true, from, stopped, 0, readCount);
      }
    }

    /** The staging side of a run: clean, copy the stopped containers, copy and dump the running ones,
        copy the service paths, and copy again after the stop if anything had to be stopped. The reads
        from number `final` on are those after the stop. */
    method Prepare(config: DockerConfig, audit: seq<ContainerAudit>, anyService: bool)
        returns (ok: bool, ghost final: nat)
      requires Valid() && DistinctIds(audit) && |config.servicePaths| <= USIZE_LIMIT
      modifies this
      ensures OthersUntouched(old(staging))
      ensures ok ==> HoldsExactly(staging, config, SelectedOf(config, audit)) && NothingStale(staging, config, audit)
      ensures ok ==> forall c, i: nat ::
                && c in audit && i < |c.info.mounts|
                && (|| config.stopAllStateful
                    || c.info.id in config.stopContainers
                    || c.info.name in config.stopContainers)
                && (config.stageMounts == [] || c.info.mounts[i].source in config.stageMounts) ==>
                  HoldsMount(config, c, i, anyService, final)
      ensures ok ==> forall i: nat :: i < |config.servicePaths| ==> HoldsPath(config, audit, i, anyService, final)
      ensures ok || Faulty() || UncopyableAmong(config, SelectedOf(config, audit)) || UncopyablePath(config)
    {
      hide Within, MountIsStageable, IsSelected, Find, CleanedFrom, UncopyableAmong, UncopyablePath, Filled,
           HoldsExactly;
      hide Mirrors, PathsFilled, HoldsMount, HoldsPath, NothingStale, SelectedOf, RunningIds, AskedToStop;
      var selected := SelectedOf(config, audit);
      SelectedIdsDistinct(config, audit);
      copies, final := map[], 0;
      ok := CleanStaleStaging(config, selected);
      if !ok { return; }
      CleanedIsWithin(old(staging), staging, config, selected);
      NothingCopied();
      if selected == [] && config.servicePaths == [] {
        NothingToCopy(config, selected);
        assert PathsFilled(config, copies, 0, 0);
        FilledHoldsExactly(config, selected);
        ExactIsNotStale(staging, config, audit);
        EverythingIsHeld(config, audit, anyService, final);
        return;
      }
      ok := CopyBeforeStop(config, selected);
      if !ok { return; }
      final := readCount;
      if RunningIds(selected) != [] || anyService {
        ok := CopyFinally(config, selected, anyService);
        if !ok { return; }
      } else {
        forall c | c in selected ensures !c.running { NoneRunning(selected, c); }
      }
      FilledHoldsExactly(config, selected);
      ExactIsNotStale(staging, config, audit);
      EverythingIsHeld(config, audit, anyService, final);
    }
  }
}
