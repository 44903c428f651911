/** Runs that leave a copy which is not quiet. Each history lists the events of one call of
    `Quiesce.DockerManager.Backup` in the order of its body, after the workloads were started. */
module QuietExamples {
  import opened Paths
  import opened QuiesceTrace
  import opened Containers

  // ---------------------------------------------------------------------------------------
  // A service that ends before it is checked
  // ---------------------------------------------------------------------------------------

  /** Nothing has to be stopped in this run: the only configured service is active while its path is
      copied, ends on its own, and is then found inactive. There are no containers, so the audit and
      the copies of mounts add no event, and there is no journal to recover or to write. */
  function EndingService(place: Path, path: Path, name: string): seq<Event> {
    [Changed({Service(name)}), RunBegan(true, place)]
    + [CopyBegan(ServiceSlot(0), path)]   // CopyServicePaths, before anything is stopped
    + [Changed({})]                       // the service ends on its own
    + [Observed(Service(name), false)]    // FindActiveServices
    + [ArchiveCreated]
  }

  lemma ServiceMayEndBeforeTheCheck(config: DockerConfig, path: Path, name: string)
    requires config.servicePaths == [path] && config.stopServices == [name]
    ensures var trace := EndingService(config.stagingDir, path, name);
            var copies := Summarize(trace).copies;
            && SafeTrace(trace)
            && copies == map[ServiceSlot(0) := Copy(path, {Service(name)}, false, {Service(name)})]
            && !PathIsQuiet(config, copies[ServiceSlot(0)])
  {
    var s, began := Service(name), RunBegan(true, config.stagingDir);
    var t1 := [Changed({s})];
    SummarizeSnoc([], t1[0]);
    assert [] + t1 == t1;
    var t2 := t1 + [began];
    SummarizeSnoc(t1, began);
    var t3 := t2 + [CopyBegan(ServiceSlot(0), path)];
    SummarizeSnoc(t2, CopyBegan(ServiceSlot(0), path));
    assert Summarize(t3).copies == map[ServiceSlot(0) := Copy(path, {s}, false, {})];
    var t4 := t3 + [Changed({})];
    SummarizeSnoc(t3, Changed({}));
    assert {s} - {} == {s} && {} + {s} == {s};
    assert Summarize(t4).copies == map[ServiceSlot(0) := Copy(path, {s}, false, {s})];
    var t5 := t4 + [Observed(s, false)];
    SummarizeSnoc(t4, Observed(s, false));
    SummarizeSnoc(t5, ArchiveCreated);
    assert EndingService(config.stagingDir, path, name) == t5 + [ArchiveCreated];
    assert s in ConfiguredServices(config);
  }

  // ---------------------------------------------------------------------------------------
  // Two containers whose sources overlap
  // ---------------------------------------------------------------------------------------

  function Mounted(id: string, source: Path, running: bool): ContainerAudit {
    ContainerAudit(ContainerInfo(id, id, false, [Mount(source, true)]), running)
  }

  /** The copies online, before anything is stopped. */
  function OnlinePart(place: Path, idle: string, p: Path, busy: string, q: Path): seq<Event> {
    [Changed({Container(busy)}), RunBegan(true, place)]
    + [Observed(Container(idle), false), Observed(Container(busy), true)]        // Audit
    + [Observed(Container(idle), false), CopyBegan(MountSlot(idle, 0), p)]       // StageStopped
    + [CopyBegan(MountSlot(busy, 0), q)]                                         // StageOnline
  }

  /** The copies with the busy container stopped. */
  function StoppedPart(busy: string, q: Path): seq<Event> {
    var b := Container(busy);
    [JournalWritten({b}, true), StopTried(b), Stopped(b), JournalWritten({b}, true)]  // StopAndJournal
    + [CopyBegan(MountSlot(busy, 0), q)]                                              // CopyAgain
  }

  /** The idle container is copied while the busy one runs, and is not copied again after the stop. */
  function IdleAndBusy(place: Path, idle: string, p: Path, busy: string, q: Path): seq<Event> {
    var b := Container(busy);
    OnlinePart(place, idle, p, busy, q) + StoppedPart(busy, q)
    + [StartTried(b), Started(b), Observed(b, true)] + [JournalRemoved]               // ResumeAndRemove
    + [ArchiveCreated]
  }

  lemma OnlinePartState(place: Path, idle: string, p: Path, busy: string, q: Path)
    requires idle != busy
    ensures var trace, b := OnlinePart(place, idle, p, busy, q), Container(busy);
            && SafeTrace(trace)
            && Summarize(trace) ==
               Untouched.(enabled := true, place := place, runs := 1, places := {place}, running := {b}, seen := {b},
                          copies := map[MountSlot(idle, 0) := Copy(p, {b}, true, {}),
                                        MountSlot(busy, 0) := Copy(q, {b}, false, {})])
  {
    var a, b := Container(idle), Container(busy);
    var t1 := [Changed({b})];
    SummarizeSnoc([], t1[0]);
    assert [] + t1 == t1;
    var t2 := t1 + [RunBegan(true, place)];
    SummarizeSnoc(t1, RunBegan(true, place));
    var t3 := t2 + [Observed(a, false)];
    SummarizeSnoc(t2, Observed(a, false));
    var t4 := t3 + [Observed(b, true)];
    SummarizeSnoc(t3, Observed(b, true));
    var t5 := t4 + [Observed(a, false)];
    SummarizeSnoc(t4, Observed(a, false));
    var t6 := t5 + [CopyBegan(MountSlot(idle, 0), p)];
    SummarizeSnoc(t5, CopyBegan(MountSlot(idle, 0), p));
    SummarizeSnoc(t6, CopyBegan(MountSlot(busy, 0), q));
    assert OnlinePart(place, idle, p, busy, q) == t6 + [CopyBegan(MountSlot(busy, 0), q)];
  }

  lemma StoppedPartState(trace: seq<Event>, idle: string, p: Path, busy: string, q: Path)
    requires idle != busy && SafeTrace(trace)
    requires var s, b := Summarize(trace), Container(busy);
             && s.enabled && !s.blocked && s.place in s.places && s.running == {b} && s.seen == {b}
             && s.journals == map[] && s.owed == {} && s.unchecked == {}
             && s.copies == map[MountSlot(idle, 0) := Copy(p, {b}, true, {}),
                                MountSlot(busy, 0) := Copy(q, {b}, false, {})]
    ensures var t, b := Summarize(trace + StoppedPart(busy, q)), Container(busy);
            && SafeTrace(trace + StoppedPart(busy, q))
            && t.enabled && !t.blocked && t.place == Summarize(trace).place && t.unchecked == {}
            && t.journals == map[t.place := {b}] && t.owed == {(t.place, b)}
            && t.copies == map[MountSlot(idle, 0) := Copy(p, {b}, true, {}),
                               MountSlot(busy, 0) := Copy(q, {}, false, {})]
  {
    hide SafeTrace, Summarize, WithoutWorkload, EndedSince;
    var b, again := Container(busy), CopyBegan(MountSlot(busy, 0), q);
    var t1 := trace + [JournalWritten({b}, true)];
    SummarizeSnoc(trace, JournalWritten({b}, true));
    var t2 := t1 + [StopTried(b)];
    SummarizeSnoc(t1, StopTried(b));
    var t3 := t2 + [Stopped(b)];
    SummarizeSnoc(t2, Stopped(b));
    assert Summarize(t3).running == {} && Summarize(t3).copies == Summarize(trace).copies;
    var t4 := t3 + [JournalWritten({b}, true)];
    SummarizeSnoc(t3, JournalWritten({b}, true));
    assert Summarize(t4).running == {} && Summarize(t4).copies == Summarize(trace).copies;
    SummarizeSnoc(t4, again);
    assert trace + StoppedPart(busy, q) == t4 + [again];
  }

  lemma IdleAndBusyRun(place: Path, idle: string, p: Path, busy: string, q: Path)
    requires idle != busy
    ensures var trace, b := IdleAndBusy(place, idle, p, busy, q), Container(busy);
            && SafeTrace(trace)
            && Summarize(trace).copies ==
               map[MountSlot(idle, 0) := Copy(p, {b}, true, {}), MountSlot(busy, 0) := Copy(q, {}, false, {})]
  {
    hide SafeTrace, Summarize, OnlinePart, StoppedPart;
    var online := OnlinePart(place, idle, p, busy, q);
    OnlinePartState(place, idle, p, busy, q);
    StoppedPartState(online, idle, p, busy, q);
    var checked := Recheck(online + StoppedPart(busy, q), Container(busy));
    SummarizeSnoc(checked, JournalRemoved);
    SummarizeSnoc(checked + [JournalRemoved], ArchiveCreated);
  }

  lemma BothSelected(config: DockerConfig, a: ContainerAudit, b: ContainerAudit)
    requires config.stageMounts == [] && config.stopAllStateful && a.info.mounts != [] && b.info.mounts != []
    ensures SelectedOf(config, [a, b]) == [a, b]
  {
    assert MountIsStageable(config, a.info.mounts[0]) && MountIsStageable(config, b.info.mounts[0]);
    assert IsSelected(config, a) && IsSelected(config, b);
    assert SelectedOf(config, [b]) == [b] by { assert [b][1..] == []; }
    assert [a, b][1..] == [b];
  }

  /** If the sources of the two overlap, the directory of the idle container is not quiet. Its source has
      a quiet copy, in the directory of the busy one, only if both mount the very same path: with one
      source inside the other, no copy of the idle container's source is quiet. */
  lemma OverlappingSourceIsNotQuiet(config: DockerConfig, idle: string, p: Path, busy: string, q: Path)
    requires idle != busy && Overlap(p, q)
    requires config.stageMounts == [] && config.stopAllStateful
    requires config.servicePaths == [] && config.stopServices == []
    ensures var audit := [Mounted(idle, p, false), Mounted(busy, q, true)];
            var trace := IdleAndBusy(config.stagingDir, idle, p, busy, q);
            var copies := Summarize(trace).copies;
            && SelectedOf(config, audit) == audit && SafeTrace(trace) && AllCopied(config, audit, copies)
            && !MountIsQuiet(audit, copies[MountSlot(idle, 0)])
            && MountIsQuiet(audit, copies[MountSlot(busy, 0)])
            && MountsQuietExactly(config, audit, false, copies)
            && (QuietCopy(config, audit, copies, p) <==> p == q)
            && (SourceIsSafe(config, audit, false, p) <==> p == q)
  {
    hide SafeTrace, Summarize, IdleAndBusy, SelectedOf, IsSelected;
    var a, b := Mounted(idle, p, false), Mounted(busy, q, true);
    var audit := [a, b];
    var copies := Summarize(IdleAndBusy(config.stagingDir, idle, p, busy, q)).copies;
    IdleAndBusyRun(config.stagingDir, idle, p, busy, q);
    BothSelected(config, a, b);
    assert b in audit && a in audit;
    assert Overlap(b.info.mounts[0].source, p);
    assert Container(busy) in Mounting(audit, p);
    assert Shadowed(audit, false, a, p);
    assert AllCopied(config, audit, copies);
  }
}
