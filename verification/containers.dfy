/** The containers and services that a backup handles, the directories it stages them in, and when
    such a directory holds a quiet copy. */
module Containers {
  import opened Paths
  import opened Selection
  import opened QuiesceTrace

  datatype DockerConfig = DockerConfig(
    enabled: bool,
    stagingDir: Path,
    stopAllStateful: bool,
    stopContainers: seq<string>,
    stopServices: seq<string>,
    servicePaths: seq<Path>,
    stageMounts: seq<Path>)

  datatype Mount = Mount(source: Path, absolute: bool)

  datatype ContainerInfo = ContainerInfo(id: string, name: string, postgres: bool, mounts: seq<Mount>)

  datatype ContainerAudit = ContainerAudit(info: ContainerInfo, running: bool)

  // ---------------------------------------------------------------------------------------
  // Which containers and mounts take part
  // ---------------------------------------------------------------------------------------

  predicate MountIsStageable(config: DockerConfig, mount: Mount) {
    config.stageMounts == [] || mount.source in config.stageMounts
  }

  /** The container has a stageable mount of this source. */
  predicate Stages(config: DockerConfig, container: ContainerInfo, source: Path) {
    exists i :: 0 <= i < |container.mounts| &&
                container.mounts[i].source == source && MountIsStageable(config, container.mounts[i])
  }

  predicate IsStateful(config: DockerConfig, container: ContainerInfo) {
    exists i :: 0 <= i < |container.mounts| && MountIsStageable(config, container.mounts[i])
  }

  predicate IsSelected(config: DockerConfig, container: ContainerAudit) {
    && IsStateful(config, container.info)
    && (|| config.stopAllStateful
        || container.info.id in config.stopContainers
        || container.info.name in config.stopContainers)
  }

  /** What `copy_mounts` demands of the mounts it copies. */
  predicate AbsoluteMounts(config: DockerConfig, container: ContainerInfo) {
    forall i :: 0 <= i < |container.mounts| && MountIsStageable(config, container.mounts[i]) ==>
      container.mounts[i].absolute
  }

  predicate AllAbsolute(config: DockerConfig, containers: seq<ContainerAudit>) {
    forall c :: c in containers ==> AbsoluteMounts(config, c.info)
  }

  function SelectedOf(config: DockerConfig, audit: seq<ContainerAudit>): (r: seq<ContainerAudit>)
    ensures forall c :: c in r <==> c in audit && IsSelected(config, c)
  {
    if audit == [] then []
    else
      assert audit == [audit[0]] + audit[1..];
      (if IsSelected(config, audit[0]) then [audit[0]] else []) + SelectedOf(config, audit[1..])
  }

  function RunningIds(containers: seq<ContainerAudit>): (r: seq<string>)
    ensures forall id :: id in r <==> exists c :: c in containers && c.running && c.info.id == id
  {
    if containers == [] then []
    else
      assert containers == [containers[0]] + containers[1..];
      (if containers[0].running then [containers[0].info.id] else []) + RunningIds(containers[1..])
  }

  lemma NoneRunning(selected: seq<ContainerAudit>, c: ContainerAudit)
    requires RunningIds(selected) == [] && c in selected
    ensures !c.running
  {
    assert c.info.id !in RunningIds(selected);
  }

  ghost predicate DistinctIds(audit: seq<ContainerAudit>) {
    forall i, j :: 0 <= i < j < |audit| ==> audit[i].info.id != audit[j].info.id
  }

  lemma {:induction false} SelectedIdsDistinct(config: DockerConfig, audit: seq<ContainerAudit>)
    requires DistinctIds(audit)
    ensures DistinctIds(SelectedOf(config, audit))
  {
    hide IsSelected;
    if audit != [] {
      var rest := audit[1..];
      SelectedIdsDistinct(config, rest);
      forall c | c in SelectedOf(config, rest) ensures c.info.id != audit[0].info.id {
        var k :| 0 <= k < |rest| && rest[k] == c;
        assert audit[k + 1] == c;
      }
    }
  }

  lemma SameContainer(selected: seq<ContainerAudit>, c: ContainerAudit, d: ContainerAudit)
    requires DistinctIds(selected) && c in selected && d in selected && c.info.id == d.info.id
    ensures c == d
  {
  }

  ghost function Workloads(ids: seq<string>, services: seq<string>): (r: set<Workload>)
    ensures forall id :: Container(id) in r <==> id in ids
    ensures forall s :: Service(s) in r <==> s in services
  {
    (set id | id in ids :: Container(id)) + (set s | s in services :: Service(s))
  }

  /** The container mounts something at, below or above the source, whether or not it is staged. */
  predicate Uses(container: ContainerInfo, source: Path) {
    exists i :: 0 <= i < |container.mounts| && Overlap(container.mounts[i].source, source)
  }

  /** The selected containers that can change what lies below the source. */
  ghost function Mounting(selected: seq<ContainerAudit>, source: Path): set<Workload> {
    set c | c in selected && Uses(c.info, source) :: Container(c.info.id)
  }

  ghost function ConfiguredServices(config: DockerConfig): set<Workload> {
    set s | s in config.stopServices :: Service(s)
  }

  // ---------------------------------------------------------------------------------------
  // The copies of a run
  // ---------------------------------------------------------------------------------------

  predicate IsSlot(config: DockerConfig, selected: seq<ContainerAudit>, slot: Slot) {
    match slot
    case MountSlot(id, position) =>
      exists c :: c in selected && c.info.id == id && position < |c.info.mounts| &&
                  MountIsStageable(config, c.info.mounts[position])
    case ServiceSlot(position) => position < |config.servicePaths|
  }

  /** The containers copied before anything is stopped for the only time, if no service is stopped. */
  ghost function StoppedIds(selected: seq<ContainerAudit>): set<string> {
    set c | c in selected && !c.running :: c.info.id
  }

  /** The containers copied after the stop. */
  ghost function FinalIds(selected: seq<ContainerAudit>, anyService: bool): set<string> {
    set c | c in selected && (c.running || anyService) :: c.info.id
  }

  lemma StoppedIsNotFinal(selected: seq<ContainerAudit>, c: ContainerAudit)
    requires DistinctIds(selected) && c in selected && !c.running
    ensures c.info.id !in FinalIds(selected, false)
  {
    if d :| d in selected && d.running && d.info.id == c.info.id { SameContainer(selected, c, d); }
  }

  predicate Touches(slot: Slot, ids: set<string>, paths: bool) {
    match slot
    case MountSlot(id, _) => id in ids
    case ServiceSlot(_) => paths
  }

  /** No other slots than these were copied into. */
  ghost predicate SameCopies(before: map<Slot, Copy>, after: map<Slot, Copy>, ids: set<string>, paths: bool) {
    forall slot :: slot in before && !Touches(slot, ids, paths) ==>
      && slot in after && after[slot].source == before[slot].source
      && after[slot].running == before[slot].running && after[slot].checked == before[slot].checked
  }

  /** Every stageable mount of the container has an absolute source and was copied into its own slot. */
  ghost predicate MountsCopied(config: DockerConfig, info: ContainerInfo, copies: map<Slot, Copy>) {
    forall i: nat :: i < |info.mounts| && MountIsStageable(config, info.mounts[i]) ==>
      && info.mounts[i].absolute
      && MountSlot(info.id, i) in copies && copies[MountSlot(info.id, i)].source == info.mounts[i].source
  }

  ghost predicate MountsCopiedWithin(config: DockerConfig, info: ContainerInfo, copies: map<Slot, Copy>,
                                     bound: set<Workload>) {
    forall i: nat :: i < |info.mounts| && MountIsStageable(config, info.mounts[i]) ==>
      MountSlot(info.id, i) in copies ==> copies[MountSlot(info.id, i)].running <= bound
  }

  ghost predicate MountsCopiedDuring(config: DockerConfig, info: ContainerInfo, copies: map<Slot, Copy>,
                                     ran: set<Workload>) {
    forall i: nat :: i < |info.mounts| && MountIsStageable(config, info.mounts[i]) ==>
      MountSlot(info.id, i) in copies ==> copies[MountSlot(info.id, i)].running == ran
  }

  /** Just before the copies the container was seen not running. */
  ghost predicate MountsChecked(config: DockerConfig, info: ContainerInfo, copies: map<Slot, Copy>) {
    forall i: nat :: i < |info.mounts| && MountIsStageable(config, info.mounts[i]) ==>
      MountSlot(info.id, i) in copies ==> copies[MountSlot(info.id, i)].checked
  }

  /** Containers that the audit found stopped were checked again just before they were copied, unless
      they are copied once more because a service was stopped. */
  ghost predicate StoppedChecked(config: DockerConfig, selected: seq<ContainerAudit>, services: seq<string>,
                                 copies: map<Slot, Copy>) {
    services == [] ==> forall c :: c in selected && !c.running ==> MountsChecked(config, c.info, copies)
  }

  ghost predicate PathsCopied(config: DockerConfig, copies: map<Slot, Copy>) {
    forall i: nat :: i < |config.servicePaths| ==>
      ServiceSlot(i) in copies && copies[ServiceSlot(i)].source == config.servicePaths[i]
  }

  ghost predicate PathsCopiedWithin(config: DockerConfig, copies: map<Slot, Copy>, bound: set<Workload>) {
    forall i: nat :: i < |config.servicePaths| && ServiceSlot(i) in copies ==> copies[ServiceSlot(i)].running <= bound
  }

  /** The slots of the container hold copies made while at most `ran` ran, or exactly that if `calm`. */
  ghost predicate MountsStaged(config: DockerConfig, info: ContainerInfo, copies: map<Slot, Copy>,
                               isolated: bool, calm: bool, ran: set<Workload>) {
    && MountsCopied(config, info, copies)
    && (isolated ==> MountsCopiedWithin(config, info, copies, ran))
    && (calm ==> MountsCopiedDuring(config, info, copies, ran))
  }

  lemma MountsStagedKept(config: DockerConfig, info: ContainerInfo, before: map<Slot, Copy>, after: map<Slot, Copy>,
                         ids: set<string>, paths: bool, isolated: bool, calm0: bool, calm: bool, ran: set<Workload>)
    requires SameCopies(before, after, ids, paths) && info.id !in ids && (calm ==> calm0)
    requires MountsStaged(config, info, before, isolated, calm0, ran)
    ensures MountsStaged(config, info, after, isolated, calm, ran)
    ensures MountsChecked(config, info, before) ==> MountsChecked(config, info, after)
  {
    hide MountIsStageable;
    forall i: nat | i < |info.mounts| && MountIsStageable(config, info.mounts[i])
      ensures MountSlot(info.id, i) in before && MountSlot(info.id, i) in after
      ensures after[MountSlot(info.id, i)].source == before[MountSlot(info.id, i)].source
      ensures after[MountSlot(info.id, i)].checked == before[MountSlot(info.id, i)].checked
      ensures after[MountSlot(info.id, i)].running == before[MountSlot(info.id, i)].running
    {
      assert MountSlot(info.id, i) in before && !Touches(MountSlot(info.id, i), ids, paths);
    }
  }

  lemma MountsStagedWider(config: DockerConfig, info: ContainerInfo, copies: map<Slot, Copy>, isolated: bool,
                          calm0: bool, ran0: set<Workload>, calm: bool, ran: set<Workload>)
    requires MountsStaged(config, info, copies, isolated, calm0, ran0)
    requires (isolated ==> ran0 <= ran) && (calm ==> calm0 && ran0 == ran)
    ensures MountsStaged(config, info, copies, isolated, calm, ran)
  {
    hide MountIsStageable;
  }

  lemma PathCopiesKept(config: DockerConfig, before: map<Slot, Copy>, after: map<Slot, Copy>, ids: set<string>)
    requires SameCopies(before, after, ids, false) && PathsCopied(config, before)
    ensures PathsCopied(config, after)
    ensures forall bound :: PathsCopiedWithin(config, before, bound) ==> PathsCopiedWithin(config, after, bound)
  {
    forall i: nat | i < |config.servicePaths|
      ensures ServiceSlot(i) in after
      ensures after[ServiceSlot(i)].source == before[ServiceSlot(i)].source
      ensures after[ServiceSlot(i)].running == before[ServiceSlot(i)].running
    {
      assert ServiceSlot(i) in before && !Touches(ServiceSlot(i), ids, false);
    }
  }

  // ---------------------------------------------------------------------------------------
  // Quiet copies
  // ---------------------------------------------------------------------------------------

  /** The last copy into the slot began while no selected container ran that mounts something at, below
      or above its source. */
  ghost predicate MountIsQuiet(selected: seq<ContainerAudit>, copy: Copy) {
    copy.running !! Mounting(selected, copy.source)
  }

  /** The last copy began while no configured service was active. */
  ghost predicate PathIsQuiet(config: DockerConfig, copy: Copy) {
    copy.running !! ConfiguredServices(config)
  }

  /** Some selected container runs that mounts something at, below or above the source. */
  ghost predicate InUse(selected: seq<ContainerAudit>, source: Path) {
    exists d :: d in selected && d.running && Uses(d.info, source)
  }

  /** The container was found stopped, is not copied again for a service, and the source is in use by
      another selected container. */
  ghost predicate Shadowed(selected: seq<ContainerAudit>, anyService: bool, c: ContainerAudit, source: Path) {
    !c.running && !anyService && InUse(selected, source)
  }

  /** What can run while the slots of a container are copied for the last time. */
  ghost function RanDuring(c: ContainerAudit, anyService: bool, quieted: set<Workload>,
                           running: set<Workload>): set<Workload> {
    if c.running || anyService then running - quieted else running
  }

  ghost predicate AuditDescribes(audit: seq<ContainerAudit>, running: set<Workload>) {
    forall c :: c in audit ==> (Container(c.info.id) in running <==> c.running)
  }

  lemma DescribesCovers(audit: seq<ContainerAudit>, running: set<Workload>)
    requires AuditDescribes(audit, running)
    ensures AuditCovers(audit, running)
  {
  }

  /** No container that the audit found stopped runs. */
  ghost predicate AuditCovers(audit: seq<ContainerAudit>, running: set<Workload>) {
    forall c :: c in audit && Container(c.info.id) in running ==> c.running
  }

  /** Per directory: what was copied while no more than expected ran is quiet unless it is shadowed. */
  lemma QuietUnlessShadowed(selected: seq<ContainerAudit>, services: seq<string>, running: set<Workload>,
                            c: ContainerAudit, copy: Copy)
    requires c in selected && AuditCovers(selected, running)
    requires copy.running <= RanDuring(c, services != [], Workloads(RunningIds(selected), services), running)
    requires !Shadowed(selected, services != [], c, copy.source)
    ensures MountIsQuiet(selected, copy)
  {
    hide Uses;
    forall d | d in selected && Uses(d.info, copy.source) ensures Container(d.info.id) !in copy.running {
      if d.running { assert d.info.id in RunningIds(selected); }
    }
  }

  /** Per directory: what was copied while exactly that ran is quiet exactly when it is not shadowed. */
  lemma QuietIffNotShadowed(selected: seq<ContainerAudit>, services: seq<string>, running: set<Workload>,
                            c: ContainerAudit, copy: Copy)
    requires c in selected && AuditDescribes(selected, running)
    requires copy.running == RanDuring(c, services != [], Workloads(RunningIds(selected), services), running)
    ensures MountIsQuiet(selected, copy) <==> !Shadowed(selected, services != [], c, copy.source)
  {
    hide Uses;
    if Shadowed(selected, services != [], c, copy.source) {
      var d :| d in selected && d.running && Uses(d.info, copy.source);
      assert Container(d.info.id) in copy.running && Container(d.info.id) in Mounting(selected, copy.source);
    } else {
      QuietUnlessShadowed(selected, services, running, c, copy);
    }
  }

  /** Every slot of this snapshot was copied into. */
  ghost predicate AllCopied(config: DockerConfig, selected: seq<ContainerAudit>, copies: map<Slot, Copy>) {
    && PathsCopied(config, copies)
    && forall c :: c in selected ==> MountsCopied(config, c.info, copies)
  }

  /** Every mount slot holds a quiet copy unless it is shadowed. */
  ghost predicate MountsQuiet(config: DockerConfig, selected: seq<ContainerAudit>, anyService: bool,
                              copies: map<Slot, Copy>)
    requires AllCopied(config, selected, copies)
  {
    forall c, i: nat :: c in selected && i < |c.info.mounts| && MountIsStageable(config, c.info.mounts[i]) ==>
      Shadowed(selected, anyService, c, c.info.mounts[i].source) ||
      MountIsQuiet(selected, copies[MountSlot(c.info.id, i)])
  }

  /** Every mount slot holds a quiet copy if and only if it is not shadowed. */
  ghost predicate MountsQuietExactly(config: DockerConfig, selected: seq<ContainerAudit>, anyService: bool,
                                     copies: map<Slot, Copy>)
    requires AllCopied(config, selected, copies)
  {
    forall c, i: nat :: c in selected && i < |c.info.mounts| && MountIsStageable(config, c.info.mounts[i]) ==>
      (MountIsQuiet(selected, copies[MountSlot(c.info.id, i)]) <==>
       !Shadowed(selected, anyService, c, c.info.mounts[i].source))
  }

  /** Some slot holds a quiet copy of exactly this source. */
  ghost predicate QuietCopy(config: DockerConfig, selected: seq<ContainerAudit>, copies: map<Slot, Copy>, source: Path)
    requires AllCopied(config, selected, copies)
  {
    exists c, i: nat ::
      && c in selected && i < |c.info.mounts| && MountIsStageable(config, c.info.mounts[i])
      && c.info.mounts[i].source == source && MountIsQuiet(selected, copies[MountSlot(c.info.id, i)])
  }

  /** A source is copied again after the stop if a service was stopped or some container ran that stages
      exactly this source; otherwise the copies of the beginning must do. */
  ghost predicate SourceIsSafe(config: DockerConfig, selected: seq<ContainerAudit>, anyService: bool, source: Path) {
    || anyService
    || (exists c :: c in selected && c.running && Stages(config, c.info, source))
    || !InUse(selected, source)
  }

  ghost predicate SourcesQuiet(config: DockerConfig, selected: seq<ContainerAudit>, anyService: bool,
                               copies: map<Slot, Copy>)
    requires AllCopied(config, selected, copies)
  {
    forall c, p :: c in selected && Stages(config, c.info, p) && SourceIsSafe(config, selected, anyService, p) ==>
      QuietCopy(config, selected, copies, p)
  }

  ghost predicate SourcesQuietExactly(config: DockerConfig, selected: seq<ContainerAudit>, anyService: bool,
                                      copies: map<Slot, Copy>)
    requires AllCopied(config, selected, copies)
  {
    forall c, p :: c in selected && Stages(config, c.info, p) ==>
      (QuietCopy(config, selected, copies, p) <==> SourceIsSafe(config, selected, anyService, p))
  }

  /** No selected container ran when the last copies of the service paths began. */
  ghost predicate PathsWithoutContainers(config: DockerConfig, selected: seq<ContainerAudit>, copies: map<Slot, Copy>)
    requires AllCopied(config, selected, copies)
  {
    forall i: nat, c :: i < |config.servicePaths| && c in selected ==>
      Container(c.info.id) !in copies[ServiceSlot(i)].running
  }

  /** Every service path has a quiet copy if anything had to be stopped. Otherwise its copy is quiet if
      and only if no configured service ended on its own after the copy began. */
  ghost predicate PathsQuiet(config: DockerConfig, selected: seq<ContainerAudit>, services: seq<string>,
                             copies: map<Slot, Copy>)
    requires AllCopied(config, selected, copies)
  {
    forall i: nat :: i < |config.servicePaths| ==>
      var copy := copies[ServiceSlot(i)];
      if RunningIds(selected) != [] || services != [] then PathIsQuiet(config, copy)
      else PathIsQuiet(config, copy) <==> copy.ended !! ConfiguredServices(config)
  }

  /** What a snapshot leaves in the slots, when `before` ran at its beginning. */
  ghost predicate SnapshotStaged(config: DockerConfig, selected: seq<ContainerAudit>, services: seq<string>,
                                 before: set<Workload>, copies: map<Slot, Copy>, isolated: bool, calm: bool) {
    var quieted := Workloads(RunningIds(selected), services);
    && AllCopied(config, selected, copies)
    && StoppedChecked(config, selected, services, copies)
    && (forall c :: c in selected ==>
          MountsStaged(config, c.info, copies, isolated, calm, RanDuring(c, services != [], quieted, before)))
    && (isolated ==> PathsCopiedWithin(config, copies, before - quieted))
    && (isolated ==> PathsQuiet(config, selected, services, copies))
  }

  lemma SnapshotMountsQuiet(config: DockerConfig, selected: seq<ContainerAudit>, services: seq<string>,
                            before: set<Workload>, copies: map<Slot, Copy>, calm: bool)
    requires SnapshotStaged(config, selected, services, before, copies, true, calm) && AuditCovers(selected, before)
    ensures MountsQuiet(config, selected, services != [], copies)
  {
    hide MountIsStageable, AuditCovers, RanDuring, Shadowed, MountIsQuiet, PathsQuiet;
    forall c, i: nat | c in selected && i < |c.info.mounts| && MountIsStageable(config, c.info.mounts[i])
      ensures Shadowed(selected, services != [], c, c.info.mounts[i].source) ||
              MountIsQuiet(selected, copies[MountSlot(c.info.id, i)])
    {
      assert MountsCopied(config, c.info, copies);
      if !Shadowed(selected, services != [], c, c.info.mounts[i].source) {
        QuietUnlessShadowed(selected, services, before, c, copies[MountSlot(c.info.id, i)]);
      }
    }
  }

  lemma SnapshotMountsQuietExactly(config: DockerConfig, selected: seq<ContainerAudit>, services: seq<string>,
                                   before: set<Workload>, copies: map<Slot, Copy>, isolated: bool)
    requires SnapshotStaged(config, selected, services, before, copies, isolated, true)
    requires AuditDescribes(selected, before)
    ensures MountsQuietExactly(config, selected, services != [], copies)
  {
    hide MountIsStageable, AuditDescribes, RanDuring, Shadowed, MountIsQuiet, PathsQuiet;
    forall c, i: nat | c in selected && i < |c.info.mounts| && MountIsStageable(config, c.info.mounts[i])
      ensures MountIsQuiet(selected, copies[MountSlot(c.info.id, i)]) <==>
              !Shadowed(selected, services != [], c, c.info.mounts[i].source)
    {
      assert MountsCopied(config, c.info, copies);
      QuietIffNotShadowed(selected, services, before, c, copies[MountSlot(c.info.id, i)]);
    }
  }

  /** Some slot of this source is not shadowed exactly if the source is safe. */
  lemma SafeSourceHasQuietCopy(config: DockerConfig, selected: seq<ContainerAudit>, anyService: bool,
                               copies: map<Slot, Copy>, c: ContainerAudit, p: Path)
    requires AllCopied(config, selected, copies) && MountsQuiet(config, selected, anyService, copies)
    requires c in selected && Stages(config, c.info, p) && SourceIsSafe(config, selected, anyService, p)
    ensures QuietCopy(config, selected, copies, p)
  {
    hide MountIsStageable, MountIsQuiet, InUse;
    var e := c;
    if d :| d in selected && d.running && Stages(config, d.info, p) { e := d; }
    var i: nat :| i < |e.info.mounts| && e.info.mounts[i].source == p && MountIsStageable(config, e.info.mounts[i]);
    assert MountsCopied(config, e.info, copies);
    assert !Shadowed(selected, anyService, e, p);
  }

  lemma QuietCopyMeansSafe(config: DockerConfig, selected: seq<ContainerAudit>, anyService: bool,
                           copies: map<Slot, Copy>, p: Path)
    requires AllCopied(config, selected, copies) && MountsQuietExactly(config, selected, anyService, copies)
    requires QuietCopy(config, selected, copies, p)
    ensures SourceIsSafe(config, selected, anyService, p)
  {
    hide MountIsStageable, MountIsQuiet, InUse;
    var c, i: nat :|
      && c in selected && i < |c.info.mounts| && MountIsStageable(config, c.info.mounts[i])
      && c.info.mounts[i].source == p && MountIsQuiet(selected, copies[MountSlot(c.info.id, i)]);
    assert Stages(config, c.info, p);
    assert !Shadowed(selected, anyService, c, p);
  }

  /** Everything that holds of the copies of a snapshot. */
  ghost predicate SnapshotQuiet(config: DockerConfig, selected: seq<ContainerAudit>, services: seq<string>,
                                copies: map<Slot, Copy>)
    requires AllCopied(config, selected, copies)
  {
    && MountsQuiet(config, selected, services != [], copies)
    && SourcesQuiet(config, selected, services != [], copies)
    && PathsWithoutContainers(config, selected, copies)
    && PathsQuiet(config, selected, services, copies)
  }

  /** What holds in addition if nothing unexpected happened. */
  ghost predicate SnapshotQuietExactly(config: DockerConfig, selected: seq<ContainerAudit>, services: seq<string>,
                                       copies: map<Slot, Copy>)
    requires AllCopied(config, selected, copies)
  {
    && MountsQuietExactly(config, selected, services != [], copies)
    && SourcesQuietExactly(config, selected, services != [], copies)
  }

  lemma SnapshotIsQuiet(config: DockerConfig, audit: seq<ContainerAudit>, services: seq<string>, before: set<Workload>,
                        copies: map<Slot, Copy>, isolated: bool, calm: bool)
    requires SnapshotStaged(config, SelectedOf(config, audit), services, before, copies, isolated, calm)
    ensures var selected := SelectedOf(config, audit);
            && AllCopied(config, selected, copies)
            && StoppedChecked(config, selected, services, copies)
            && (isolated && AuditCovers(audit, before) ==> SnapshotQuiet(config, selected, services, copies))
            && (isolated ==> PathsQuiet(config, selected, services, copies))
            && (calm && AuditDescribes(audit, before) ==> SnapshotQuietExactly(config, selected, services, copies))
  {
    hide IsSelected, MountsQuiet, MountsQuietExactly, PathsQuiet, Stages, MountsStaged, SourceIsSafe, QuietCopy;
    var selected := SelectedOf(config, audit);
    if isolated && AuditCovers(audit, before) {
      SnapshotMountsQuiet(config, selected, services, before, copies, calm);
      SnapshotPathsApart(config, selected, services, before, copies);
      forall c, p | c in selected && Stages(config, c.info, p) && SourceIsSafe(config, selected, services != [], p)
        ensures QuietCopy(config, selected, copies, p)
      {
        SafeSourceHasQuietCopy(config, selected, services != [], copies, c, p);
      }
    }
    if calm && AuditDescribes(audit, before) {
      SnapshotMountsQuietExactly(config, selected, services, before, copies, isolated);
      ExactlyIsQuiet(config, selected, services != [], copies);
      forall c, p | c in selected && Stages(config, c.info, p)
        ensures QuietCopy(config, selected, copies, p) <==> SourceIsSafe(config, selected, services != [], p)
      {
        if SourceIsSafe(config, selected, services != [], p) {
          SafeSourceHasQuietCopy(config, selected, services != [], copies, c, p);
        }
        if QuietCopy(config, selected, copies, p) {
          QuietCopyMeansSafe(config, selected, services != [], copies, p);
        }
      }
    }
  }

  lemma ExactlyIsQuiet(config: DockerConfig, selected: seq<ContainerAudit>, anyService: bool, copies: map<Slot, Copy>)
    requires AllCopied(config, selected, copies) && MountsQuietExactly(config, selected, anyService, copies)
    ensures MountsQuiet(config, selected, anyService, copies)
  {
    hide MountIsStageable, MountIsQuiet, Shadowed;
  }

  lemma SnapshotPathsApart(config: DockerConfig, selected: seq<ContainerAudit>, services: seq<string>,
                           before: set<Workload>, copies: map<Slot, Copy>)
    requires AllCopied(config, selected, copies) && AuditCovers(selected, before)
    requires PathsCopiedWithin(config, copies, before - Workloads(RunningIds(selected), services))
    ensures PathsWithoutContainers(config, selected, copies)
  {
    forall i: nat, c | i < |config.servicePaths| && c in selected
      ensures Container(c.info.id) !in copies[ServiceSlot(i)].running
    {
      if c.running { assert c.info.id in RunningIds(selected); }
    }
  }

  /** The staged sources are the stageable mounts of the selected containers and the service paths. */
  ghost predicate StagesExactly(config: DockerConfig, selected: seq<ContainerAudit>, sources: seq<Path>) {
    forall p :: p in sources <==>
      p in config.servicePaths || exists c :: c in selected && Stages(config, c.info, p)
  }

  // ---------------------------------------------------------------------------------------
  // What the configuration asks for
  // ---------------------------------------------------------------------------------------

  /** Every mount that the configuration asks for is staged, whether it names the container by id or by
      name, and so is every service path. */
  ghost predicate StagedAsConfigured(config: DockerConfig, audit: seq<ContainerAudit>, snapshot: Option<seq<Path>>,
                                     copies: map<Slot, Copy>) {
    && (forall c, i: nat ::
          && c in audit && i < |c.info.mounts|
          && (config.stopAllStateful || c.info.id in config.stopContainers || c.info.name in config.stopContainers)
          && (config.stageMounts == [] || c.info.mounts[i].source in config.stageMounts) ==>
            && c.info.mounts[i].absolute
            && snapshot.Some? && c.info.mounts[i].source in snapshot.value
            && MountSlot(c.info.id, i) in copies
            && copies[MountSlot(c.info.id, i)].source == c.info.mounts[i].source)
    && (forall i: nat :: i < |config.servicePaths| ==>
          && snapshot.Some? && config.servicePaths[i] in snapshot.value
          && ServiceSlot(i) in copies && copies[ServiceSlot(i)].source == config.servicePaths[i])
  }

  /** Every mount that can be staged has an absolute source. */
  ghost predicate SourcesAreAbsolute(config: DockerConfig, containers: seq<ContainerInfo>) {
    forall c, m :: c in containers && m in c.mounts && (config.stageMounts == [] || m.source in config.stageMounts) ==>
      m.absolute
  }

  lemma AbsoluteSources(config: DockerConfig, containers: seq<ContainerInfo>)
    ensures SourcesAreAbsolute(config, containers) ==> forall c :: c in containers ==> AbsoluteMounts(config, c)
  {
  }

  /** The configuration asks to stop this container of the audit: it runs, has a mount to stage, and is
      chosen by id, by name or with all others. */
  ghost predicate AskedToStop(config: DockerConfig, c: ContainerAudit) {
    && c.running
    && (config.stopAllStateful || c.info.id in config.stopContainers || c.info.name in config.stopContainers)
    && exists m :: m in c.info.mounts && (config.stageMounts == [] || m.source in config.stageMounts)
  }

  /** Since then a stop was tried of nothing but what the configuration asks for. */
  ghost predicate StopsOnlyConfigured(config: DockerConfig, audit: seq<ContainerAudit>, trace: seq<Event>, from: nat) {
    && (forall id :: StopTriedSince(trace, from, Container(id)) ==>
          exists c :: c in audit && c.info.id == id && AskedToStop(config, c))
    && (forall name :: StopTriedSince(trace, from, Service(name)) ==> name in config.stopServices)
  }

  ghost predicate StopsAllConfigured(config: DockerConfig, audit: seq<ContainerAudit>, trace: seq<Event>, from: nat) {
    forall c :: c in audit && AskedToStop(config, c) ==> StopTriedSince(trace, from, Container(c.info.id))
  }

  lemma {:induction false} SelectedIsStaged(config: DockerConfig, audit: seq<ContainerAudit>,
                                            snapshot: Option<seq<Path>>, copies: map<Slot, Copy>)
    requires snapshot.None? ==> SelectedOf(config, audit) == [] && config.servicePaths == []
    requires snapshot.Some? ==> StagesExactly(config, SelectedOf(config, audit), snapshot.value)
    requires snapshot.Some? ==> AllCopied(config, SelectedOf(config, audit), copies)
    ensures StagedAsConfigured(config, audit, snapshot, copies)
  {
    hide SelectedOf, IsSelected, MountsCopied, Stages;
    forall c, i: nat |
      && c in audit && i < |c.info.mounts|
      && (config.stopAllStateful || c.info.id in config.stopContainers || c.info.name in config.stopContainers)
      && (config.stageMounts == [] || c.info.mounts[i].source in config.stageMounts)
      ensures c in SelectedOf(config, audit) && Stages(config, c.info, c.info.mounts[i].source)
      ensures MountsCopied(config, c.info, copies) ==>
                && c.info.mounts[i].absolute && MountSlot(c.info.id, i) in copies
                && copies[MountSlot(c.info.id, i)].source == c.info.mounts[i].source
    {
      MountIsSelected(config, audit, c, i, copies);
    }
  }

  lemma {:induction false} ChosenIsSelected(config: DockerConfig, audit: seq<ContainerAudit>, c: ContainerAudit, i: nat)
    requires c in audit && i < |c.info.mounts|
    requires config.stopAllStateful || c.info.id in config.stopContainers || c.info.name in config.stopContainers
    requires config.stageMounts == [] || c.info.mounts[i].source in config.stageMounts
    ensures c in SelectedOf(config, audit) && MountIsStageable(config, c.info.mounts[i])
  {
    assert MountIsStageable(config, c.info.mounts[i]);
    assert IsSelected(config, c);
  }

  lemma {:induction false} MountIsSelected(config: DockerConfig, audit: seq<ContainerAudit>, c: ContainerAudit, i: nat,
                                           copies: map<Slot, Copy>)
    requires c in audit && i < |c.info.mounts|
    requires config.stopAllStateful || c.info.id in config.stopContainers || c.info.name in config.stopContainers
    requires config.stageMounts == [] || c.info.mounts[i].source in config.stageMounts
    ensures c in SelectedOf(config, audit) && Stages(config, c.info, c.info.mounts[i].source)
    ensures MountsCopied(config, c.info, copies) ==>
              && c.info.mounts[i].absolute && MountSlot(c.info.id, i) in copies
              && copies[MountSlot(c.info.id, i)].source == c.info.mounts[i].source
  {
    ChosenIsSelected(config, audit, c, i);
  }

  /** The containers that a snapshot quiesces are those that the configuration asks to stop. */
  lemma {:induction false} QuietedIsConfigured(config: DockerConfig, audit: seq<ContainerAudit>, services: seq<string>,
                                               id: string)
    ensures Container(id) in Workloads(RunningIds(SelectedOf(config, audit)), services) <==>
            exists c :: c in audit && c.info.id == id && AskedToStop(config, c)
  {
    if c :| c in audit && c.info.id == id && AskedToStop(config, c) {
      var m :| m in c.info.mounts && (config.stageMounts == [] || m.source in config.stageMounts);
      var i :| 0 <= i < |c.info.mounts| && c.info.mounts[i] == m;
      assert MountIsStageable(config, c.info.mounts[i]);
      assert IsSelected(config, c) && c in SelectedOf(config, audit);
      assert id in RunningIds(SelectedOf(config, audit));
    }
    if Container(id) in Workloads(RunningIds(SelectedOf(config, audit)), services) {
      var c :| c in SelectedOf(config, audit) && c.running && c.info.id == id;
      var i :| 0 <= i < |c.info.mounts| && MountIsStageable(config, c.info.mounts[i]);
      assert c.info.mounts[i] in c.info.mounts;
      assert AskedToStop(config, c);
    }
  }

  lemma AskedIsSelected(config: DockerConfig, c: ContainerAudit)
    ensures AskedToStop(config, c) <==> c.running && IsSelected(config, c)
  {
    forall m | m in c.info.mounts && (config.stageMounts == [] || m.source in config.stageMounts)
      ensures exists i :: 0 <= i < |c.info.mounts| && MountIsStageable(config, c.info.mounts[i])
    {
      var i :| 0 <= i < |c.info.mounts| && c.info.mounts[i] == m;
      assert MountIsStageable(config, c.info.mounts[i]);
    }
    if i :| 0 <= i < |c.info.mounts| && MountIsStageable(config, c.info.mounts[i]) {
      assert c.info.mounts[i] in c.info.mounts;
    }
  }

  lemma {:induction false} AnyQuieted(config: DockerConfig, audit: seq<ContainerAudit>)
    ensures RunningIds(SelectedOf(config, audit)) != [] <==> exists c :: c in audit && AskedToStop(config, c)
  {
    hide RunningIds, SelectedOf, AskedToStop;
    var ids := RunningIds(SelectedOf(config, audit));
    forall id ensures id in ids <==> exists c :: c in audit && c.info.id == id && AskedToStop(config, c) {
      QuietedIsConfigured(config, audit, [], id);
    }
    if ids != [] { assert ids[0] in ids; }
    if c :| c in audit && AskedToStop(config, c) { assert c.info.id in ids; }
  }
}
