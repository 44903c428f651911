/** The history of a backup host, and what makes a history safe for the workloads that backups stop. */
module QuiesceTrace {
  import opened Paths

  datatype Workload = Container(id: string) | Service(name: string)

  /** A directory that one copy fills: for a mount of a container, or for a service path. */
  datatype Slot = MountSlot(id: string, position: nat) | ServiceSlot(position: nat)

  /** Journal, stop, start, copy and archive events belong to the run that began last. */
  datatype Event =
    | RunBegan(enabled: bool, place: Path)                   // with its Docker staging directory
    | Changed(running: set<Workload>)                        // others ended or started workloads
    | Observed(workload: Workload, active: bool)
    | JournalWritten(members: set<Workload>, accepted: bool) // in the run's directory; would recovery accept it?
    | JournalRemoved
    | StopTried(workload: Workload)
    | Stopped(workload: Workload)                            // the effect, which a failed stop may have too
    | StartTried(workload: Workload)
    | Started(workload: Workload)
    | CopyBegan(slot: Slot, source: Path)
    | ArchiveCreated

  /** The last copy into a slot: what ran when it began, whether the container was seen not running just
      before it, and what ended on its own since then. */
  datatype Copy = Copy(source: Path, running: set<Workload>, checked: bool, ended: set<Workload>)

  /** `runs` counts the runs so far, `places` are their staging directories, `journals` the journals on
      disk and `refused` the directories whose journal recovery does not accept. The current run is
      `blocked` if it is enabled and found such a journal, and `stops` are the workloads that it tried to
      stop. `owed` are the workloads that a stop was tried on, with the directory of that run, and that
      were not seen running since; `unstarted` those that no start was tried on since the stop; `seen` was
      ever observed active; `unchecked` was in the journal that the current run found and was not seen
      running in this run. `idle` was seen not running, and since then nothing was done but copying its
      own mounts. */
  datatype Summary = Summary(
    enabled: bool,
    place: Path,
    runs: nat,
    places: set<Path>,
    blocked: bool,
    stops: set<Workload>,
    running: set<Workload>,
    journals: map<Path, set<Workload>>,
    refused: set<Path>,
    owed: set<(Path, Workload)>,
    unstarted: set<Workload>,
    unchecked: set<Workload>,
    seen: set<Workload>,
    idle: set<Workload>,
    copies: map<Slot, Copy>)

  const Untouched := Summary(false, [], 0, {}, false, {}, {}, map[], {}, {}, {}, {}, {}, {}, map[])

  function WithoutWorkload(owed: set<(Path, Workload)>, w: Workload): set<(Path, Workload)> {
    set d | d in owed && d.1 != w
  }

  function EndedSince(copies: map<Slot, Copy>, ended: set<Workload>): map<Slot, Copy> {
    map slot | slot in copies :: copies[slot].(ended := copies[slot].ended + ended)
  }

  /** The container whose mount fills the slot. */
  function OwnerOf(slot: Slot): set<Workload> {
    match slot
    case MountSlot(id, _) => {Container(id)}
    case ServiceSlot(_) => {}
  }

  function JournalAt(s: Summary, place: Path): set<Workload> {
    if place in s.journals then s.journals[place] else {}
  }

  function Apply(s: Summary, e: Event): Summary {
    match e
    case RunBegan(enabled, place) =>
      s.(enabled := enabled, place := place, runs := s.runs + 1, places := s.places + {place},
         blocked := enabled && place in s.refused, stops := {},
         unchecked := if enabled then JournalAt(s, place) else {}, idle := {}, copies := map[])
    case Changed(running) => s.(running := running, copies := EndedSince(s.copies, s.running - running))
    case Observed(w, active) =>
      if active
      then s.(owed := WithoutWorkload(s.owed, w), unchecked := s.unchecked - {w}, seen := s.seen + {w}, idle := {})
      else s.(idle := {w})
    case JournalWritten(members, accepted) =>
      s.(journals := s.journals[s.place := members],
         refused := if accepted then s.refused - {s.place} else s.refused + {s.place}, idle := {})
    case JournalRemoved => s.(journals := s.journals - {s.place}, refused := s.refused - {s.place}, idle := {})
    case StopTried(w) =>
      s.(stops := s.stops + {w}, owed := s.owed + {(s.place, w)}, unstarted := s.unstarted + {w}, idle := {})
    case Stopped(w) => s.(running := s.running - {w}, idle := {})
    case StartTried(w) => s.(unstarted := s.unstarted - {w}, idle := {})
    case Started(w) => s.(running := s.running + {w}, idle := {})
    case CopyBegan(slot, source) =>
      s.(idle := s.idle * OwnerOf(slot),
         copies := s.copies[slot := Copy(source, s.running, s.idle * OwnerOf(slot) != {}, {})])
    case ArchiveCreated => s.(idle := {})
  }

  function Summarize(trace: seq<Event>): Summary {
    if trace == [] then Untouched
    else Apply(Summarize(trace[..|trace| - 1]), trace[|trace| - 1])
  }

  ghost predicate NothingOwedAt(s: Summary, place: Path) {
    forall w :: (place, w) !in s.owed
  }

  /** Recovered: the run has no journal, owes nothing, and saw everything running that it found
      journalled. */
  ghost predicate Settled(s: Summary) {
    s.place !in s.journals && NothingOwedAt(s, s.place) && s.unchecked == {}
  }

  /** What each event must find: checks are truthful; stops and starts concern journalled workloads
      only; a journal lists only workloads seen active, and it is replaced by other content or removed
      only when its run owes nothing; an enabled run archives only when it is settled; and a run that
      found a refused journal does nothing at all. */
  ghost predicate SafeStep(s: Summary, e: Event) {
    if s.blocked then e.RunBegan? || e.Changed?
    else match e
    case RunBegan(_, _) => true
    case Changed(_) => true
    case Observed(w, active) => active == (w in s.running)
    case JournalWritten(members, _) =>
      s.place in s.places && members <= s.seen &&
      (NothingOwedAt(s, s.place) || (s.place in s.journals && s.journals[s.place] == members))
    case JournalRemoved => NothingOwedAt(s, s.place) && s.unchecked == {}
    case StopTried(w) => w in JournalAt(s, s.place)
    case Stopped(w) => w in JournalAt(s, s.place) && w in s.stops
    case StartTried(w) => w in JournalAt(s, s.place)
    case Started(w) => w in JournalAt(s, s.place)
    case CopyBegan(_, _) => true
    case ArchiveCreated => s.enabled ==> Settled(s)
  }

  ghost predicate SafeTrace(trace: seq<Event>) {
    trace == [] ||
    var n := |trace| - 1;
    SafeTrace(trace[..n]) && SafeStep(Summarize(trace[..n]), trace[n])
  }

  lemma SameRunStep(s: Summary, e: Event)
    requires !e.RunBegan?
    ensures var t := Apply(s, e);
            && t.enabled == s.enabled && t.place == s.place && t.runs == s.runs && t.places == s.places
            && t.blocked == s.blocked
  {
  }

  lemma NewRunStep(s: Summary, enabled: bool, place: Path)
    ensures var t := Apply(s, RunBegan(enabled, place));
            && t.enabled == enabled && t.place == place && t.runs == s.runs + 1 && t.places == s.places + {place}
            && t.blocked == (enabled && place in s.refused)
  {
  }

  lemma RunStep(s: Summary, e: Event)
    ensures var t := Apply(s, e);
            s.runs <= t.runs && s.places <= t.places && (t.runs == s.runs ==> !e.RunBegan?)
  {
    hide Apply;
    if e.RunBegan? { NewRunStep(s, e.enabled, e.place); } else { SameRunStep(s, e); }
  }

  lemma SummarizeSnoc(trace: seq<Event>, e: Event)
    ensures Summarize(trace + [e]) == Apply(Summarize(trace), e)
    ensures SafeTrace(trace + [e]) <==> SafeTrace(trace) && SafeStep(Summarize(trace), e)
  {
    assert (trace + [e])[..|trace|] == trace;
  }

  lemma {:induction false} SafePrefix(trace: seq<Event>, n: nat)
    requires SafeTrace(trace) && n <= |trace|
    ensures SafeTrace(trace[..n])
  {
    if n < |trace| {
      var shorter := trace[..|trace| - 1];
      SafePrefix(shorter, n);
      assert shorter[..n] == trace[..n];
    } else {
      assert trace[..n] == trace;
    }
  }

  lemma SafeAt(trace: seq<Event>, i: nat)
    requires SafeTrace(trace) && i < |trace|
    ensures SafeTrace(trace[..i]) && SafeStep(Summarize(trace[..i]), trace[i])
  {
    SafePrefix(trace, i + 1);
    assert trace[..i + 1][..i] == trace[..i];
  }

  // ---------------------------------------------------------------------------------------
  // What the summary means
  // ---------------------------------------------------------------------------------------

  /** A stop was tried at `i` and the event never came after it. */
  ghost predicate StopAt(trace: seq<Event>, i: nat, w: Workload, e: Event) {
    && i < |trace|
    && trace[i] == StopTried(w)
    && forall j :: i < j < |trace| ==> trace[j] != e
  }

  ghost predicate StoppedWithout(trace: seq<Event>, w: Workload, e: Event) {
    exists i: nat :: StopAt(trace, i, w, e)
  }

  /** The same, in a run with this staging directory. */
  ghost predicate StoppedFrom(trace: seq<Event>, place: Path, w: Workload, e: Event) {
    exists i: nat :: StopAt(trace, i, w, e) && Summarize(trace[..i]).place == place
  }

  /** Stopped by Boxup at some point and never observed running afterwards. */
  ghost predicate StoppedAndUnverified(trace: seq<Event>, w: Workload) {
    StoppedWithout(trace, w, Observed(w, true))
  }

  lemma StopAtLast(trace: seq<Event>, i: nat, w: Workload, e: Event)
    requires trace != [] && e != StopTried(w)
    ensures var n := |trace| - 1;
            StopAt(trace, i, w, e) <==>
            (i == n && trace[n] == StopTried(w)) || (StopAt(trace[..n], i, w, e) && trace[n] != e)
  {
    var n := |trace| - 1;
    var shorter := trace[..n];
    assert forall j :: 0 <= j < n ==> shorter[j] == trace[j];
    if StopAt(shorter, i, w, e) && trace[n] != e {
      forall j | i < j < |trace| ensures trace[j] != e {
        assert j < n ==> trace[j] == shorter[j];
      }
    }
    if StopAt(trace, i, w, e) && i < n {
      forall j | i < j < n ensures shorter[j] != e { assert trace[j] != e; }
    }
  }

  lemma StoppedLast(trace: seq<Event>, place: Path, w: Workload, e: Event)
    requires trace != [] && e != StopTried(w)
    ensures var shorter, last := trace[..|trace| - 1], trace[|trace| - 1];
            && (StoppedFrom(trace, place, w, e) <==>
                  (last == StopTried(w) && Summarize(shorter).place == place) ||
                  (StoppedFrom(shorter, place, w, e) && last != e))
            && (StoppedWithout(trace, w, e) <==> last == StopTried(w) || (StoppedWithout(shorter, w, e) && last != e))
  {
    hide StopAt, Summarize;
    var n := |trace| - 1;
    var shorter := trace[..n];
    forall i: nat
      ensures StopAt(trace, i, w, e) <==>
              (i == n && trace[n] == StopTried(w)) || (StopAt(shorter, i, w, e) && trace[n] != e)
      ensures StopAt(shorter, i, w, e) ==> i < n
      ensures i <= n ==> trace[..i] == shorter[..i]
    {
      StopAtLast(trace, i, w, e);
      assert StopAt(shorter, i, w, e) ==> i < n by { StopInRange(shorter, i, w, e); }
    }
    if trace[n] == StopTried(w) { assert StopAt(trace, n, w, e); }
  }

  lemma StopInRange(trace: seq<Event>, i: nat, w: Workload, e: Event)
    ensures StopAt(trace, i, w, e) ==> i < |trace|
  {
  }

  /** The summary is exact for every history. */
  lemma {:induction false} SummaryMeaning(trace: seq<Event>, place: Path, w: Workload)
    ensures (place, w) in Summarize(trace).owed <==> StoppedFrom(trace, place, w, Observed(w, true))
    ensures w in Summarize(trace).unstarted <==> StoppedWithout(trace, w, StartTried(w))
  {
    hide StoppedWithout, StoppedFrom;
    if trace == [] {
      NothingStopped(w);
    } else {
      SummaryMeaning(trace[..|trace| - 1], place, w);
      StoppedLast(trace, place, w, Observed(w, true));
      StoppedLast(trace, place, w, StartTried(w));
    }
  }

  lemma NothingStopped(w: Workload)
    ensures forall e :: !StoppedWithout([], w, e)
    ensures forall place, e :: !StoppedFrom([], place, w, e)
  {
  }

  lemma OwedMeansUnverified(trace: seq<Event>, w: Workload)
    ensures StoppedAndUnverified(trace, w) <==> exists place :: (place, w) in Summarize(trace).owed
  {
    hide StopAt, Summarize;
    var e := Observed(w, true);
    forall place ensures (place, w) in Summarize(trace).owed <==> StoppedFrom(trace, place, w, e) {
      SummaryMeaning(trace, place, w);
    }
    if i: nat :| StopAt(trace, i, w, e) {
      StopInRange(trace, i, w, e);
      assert StoppedFrom(trace, Summarize(trace[..i]).place, w, e);
    }
  }

  /** The last copy into the slot in the current run began at `i`. */
  ghost predicate LastCopyAt(trace: seq<Event>, slot: Slot, i: nat) {
    && i < |trace|
    && trace[i].CopyBegan? && trace[i].slot == slot
    && forall j :: i < j < |trace| ==> !trace[j].RunBegan? && !(trace[j].CopyBegan? && trace[j].slot == slot)
  }

  /** After the event at `i` the workload ended, and not by a stop of Boxup's. */
  ghost predicate EndedAfter(trace: seq<Event>, i: nat, w: Workload) {
    exists j :: i < j < |trace| && trace[j].Changed? && w in Summarize(trace[..j]).running && w !in trace[j].running
  }

  /** The event copies a mount of the workload, or others ended or started workloads. */
  predicate LeavesIdle(e: Event, w: Workload) {
    e.Changed? || (e.CopyBegan? && w in OwnerOf(e.slot))
  }

  /** The workload was seen not running in this history, and Boxup did nothing since but copy its mounts. */
  ghost predicate JustSeenIdle(trace: seq<Event>, w: Workload) {
    exists i :: 0 <= i < |trace| && trace[i] == Observed(w, false) &&
                forall j :: i < j < |trace| ==> LeavesIdle(trace[j], w)
  }

  lemma JustSeenIdleSnoc(trace: seq<Event>, e: Event, w: Workload)
    ensures JustSeenIdle(trace + [e], w) <==>
            e == Observed(w, false) || (JustSeenIdle(trace, w) && LeavesIdle(e, w))
  {
    hide LeavesIdle;
    var longer, n := trace + [e], |trace|;
    assert longer[n] == e;
    if JustSeenIdle(trace, w) && LeavesIdle(e, w) {
      var i :| 0 <= i < n && trace[i] == Observed(w, false) && forall j :: i < j < n ==> LeavesIdle(trace[j], w);
      assert longer[i] == Observed(w, false) && forall j :: i < j < |longer| ==> LeavesIdle(longer[j], w);
    }
    if JustSeenIdle(longer, w) && e != Observed(w, false) {
      var i :| 0 <= i <= n && longer[i] == Observed(w, false) && forall j :: i < j <= n ==> LeavesIdle(longer[j], w);
      assert trace[i] == Observed(w, false);
      assert forall j :: i < j < n ==> longer[j] == trace[j];
      assert LeavesIdle(longer[n], w);
    }
  }

  lemma IdleStep(s: Summary, e: Event, w: Workload)
    ensures w in Apply(s, e).idle <==> e == Observed(w, false) || (w in s.idle && LeavesIdle(e, w))
  {
  }

  lemma {:induction false} IdleMeaning(trace: seq<Event>, w: Workload)
    ensures w in Summarize(trace).idle <==> JustSeenIdle(trace, w)
  {
    hide LeavesIdle, Apply;
    if trace != [] {
      var shorter, last := trace[..|trace| - 1], trace[|trace| - 1];
      IdleMeaning(shorter, w);
      IdleStep(Summarize(shorter), last, w);
      JustSeenIdleSnoc(shorter, last, w);
      assert shorter + [last] == trace;
    }
  }

  /** The recorded copies are the last ones of the current run, with what ran when they began, whether
      their container was just seen not running, and what ended on its own since. */
  ghost predicate CopyIs(trace: seq<Event>, slot: Slot, i: nat)
    requires i < |trace| && trace[i].CopyBegan?
  {
    var copies := Summarize(trace).copies;
    && slot in copies
    && copies[slot].source == trace[i].source
    && copies[slot].running == Summarize(trace[..i]).running
    && (copies[slot].checked <==> exists w :: w in OwnerOf(slot) && JustSeenIdle(trace[..i], w))
    && forall w :: w in copies[slot].ended <==> EndedAfter(trace, i, w)
  }

  lemma {:induction false} CopyMeaning(trace: seq<Event>, slot: Slot, i: nat)
    requires LastCopyAt(trace, slot, i)
    ensures CopyIs(trace, slot, i)
  {
    var n := |trace| - 1;
    var shorter := trace[..n];
    if i < n {
      assert trace[i] == shorter[i];
      forall j | i < j < n ensures !shorter[j].RunBegan? && !(shorter[j].CopyBegan? && shorter[j].slot == slot) {
        assert trace[j] == shorter[j];
      }
      CopyMeaning(shorter, slot, i);
      CopyMeaningStep(trace, slot, i);
    } else {
      CopyMeaningStart(trace, slot);
    }
  }

  lemma CopyMeaningStart(trace: seq<Event>, slot: Slot)
    requires trace != [] && trace[|trace| - 1].CopyBegan? && trace[|trace| - 1].slot == slot
    ensures CopyIs(trace, slot, |trace| - 1)
  {
    hide LeavesIdle, JustSeenIdle, SafeStep;
    var n := |trace| - 1;
    var shorter := trace[..n];
    var before := Summarize(shorter);
    forall w ensures w in before.idle <==> JustSeenIdle(shorter, w) { IdleMeaning(shorter, w); }
    var copy := Copy(trace[n].source, before.running, before.idle * OwnerOf(slot) != {}, {});
    assert Summarize(trace).copies == before.copies[slot := copy];
    assert copy.checked <==> exists w :: w in OwnerOf(slot) && JustSeenIdle(shorter, w);
  }

  lemma OtherCopyStep(s: Summary, e: Event, slot: Slot)
    requires slot in s.copies && !e.RunBegan? && !(e.CopyBegan? && e.slot == slot)
    ensures var before, after := s.copies[slot], Apply(s, e).copies;
            && slot in after && after[slot].source == before.source && after[slot].running == before.running
            && after[slot].checked == before.checked
            && after[slot].ended == before.ended + if e.Changed? then s.running - e.running else {}
  {
  }

  lemma CopyMeaningStep(trace: seq<Event>, slot: Slot, i: nat)
    requires i < |trace| - 1 && LastCopyAt(trace, slot, i)
    requires trace[..|trace| - 1][i] == trace[i] && CopyIs(trace[..|trace| - 1], slot, i)
    ensures CopyIs(trace, slot, i)
  {
    var n := |trace| - 1;
    var shorter, last := trace[..n], trace[n];
    assert trace[..i] == shorter[..i];
    assert !last.RunBegan? && !(last.CopyBegan? && last.slot == slot);
    hide EndedAfter, Apply;
    OtherCopyStep(Summarize(shorter), last, slot);
    forall w
      ensures EndedAfter(trace, i, w) <==>
              EndedAfter(shorter, i, w) || (last.Changed? && w in Summarize(shorter).running && w !in last.running)
    {
      EndedAfterLast(trace, i, w);
    }
  }

  lemma CopyFromBefore(s: Summary, e: Event, slot: Slot)
    requires slot in Apply(s, e).copies && !(e.CopyBegan? && e.slot == slot)
    ensures slot in s.copies && !e.RunBegan?
  {
  }

  lemma {:induction false} CopyRecorded(trace: seq<Event>, slot: Slot) returns (i: nat)
    requires slot in Summarize(trace).copies
    ensures LastCopyAt(trace, slot, i)
  {
    i := |trace| - 1;
    var shorter, last := trace[..i], trace[i];
    if !(last.CopyBegan? && last.slot == slot) {
      hide Apply;
      CopyFromBefore(Summarize(shorter), last, slot);
      i := CopyRecorded(shorter, slot);
      assert trace[i] == shorter[i];
    }
  }

  lemma EndedAfterLast(trace: seq<Event>, i: nat, w: Workload)
    requires i < |trace| - 1
    ensures var shorter, last := trace[..|trace| - 1], trace[|trace| - 1];
            EndedAfter(trace, i, w) <==>
            EndedAfter(shorter, i, w) || (last.Changed? && w in Summarize(shorter).running && w !in last.running)
  {
    hide Summarize;
    var n := |trace| - 1;
    var shorter := trace[..n];
    forall j | 0 <= j < n ensures shorter[..j] == trace[..j] && trace[j] == shorter[j] {}
    if j :| i < j < n && shorter[j].Changed? && w in Summarize(shorter[..j]).running && w !in shorter[j].running {
      assert w in Summarize(trace[..j]).running;
    }
    if j :| i < j < |trace| && trace[j].Changed? && w in Summarize(trace[..j]).running && w !in trace[j].running {
      if j < n { assert w in Summarize(shorter[..j]).running && shorter[j].Changed?; }
    }
  }

  // ---------------------------------------------------------------------------------------
  // What safe histories guarantee
  // ---------------------------------------------------------------------------------------

  /** Whatever is owed is listed in the journal of the run that stopped it, and journals list only
      workloads seen active. */
  ghost predicate Journaled(s: Summary) {
    && (forall d :: d in s.owed ==> d.0 in s.journals && d.1 in s.journals[d.0])
    && (forall place :: place in s.journals ==> place in s.places && s.journals[place] <= s.seen)
    && (forall place :: place in s.refused ==> place in s.journals)
  }

  lemma JournaledStep(s: Summary, e: Event)
    requires Journaled(s) && SafeStep(s, e)
    ensures Journaled(Apply(s, e))
  {
    var t := Apply(s, e);
    forall d | d in t.owed ensures d.0 in t.journals && d.1 in t.journals[d.0] {
      if d in s.owed {
        assert d == (d.0, d.1);
      }
    }
  }

  lemma {:induction false} OwedIsJournaled(trace: seq<Event>)
    requires SafeTrace(trace)
    ensures Journaled(Summarize(trace))
  {
    if trace != [] {
      var n := |trace| - 1;
      OwedIsJournaled(trace[..n]);
      JournaledStep(Summarize(trace[..n]), trace[n]);
    }
  }

  /** Crash safety over whole histories: at any point, a workload that a run stopped and that was not
      seen running since can be found in the journal of that run. */
  lemma StoppedWorkloadsAreJournaled(trace: seq<Event>, n: nat, place: Path, w: Workload)
    requires SafeTrace(trace) && n <= |trace|
    requires StoppedFrom(trace[..n], place, w, Observed(w, true))
    ensures w in JournalAt(Summarize(trace[..n]), place)
  {
    SafePrefix(trace, n);
    SummaryMeaning(trace[..n], place, w);
    OwedIsJournaled(trace[..n]);
  }

  lemma {:induction false} SeenWasObserved(trace: seq<Event>, w: Workload)
    requires w in Summarize(trace).seen
    ensures exists i :: 0 <= i < |trace| && trace[i] == Observed(w, true)
  {
    var n := |trace| - 1;
    if trace[n] == Observed(w, true) {
    } else {
      SeenWasObserved(trace[..n], w);
      var i :| 0 <= i < n && trace[..n][i] == Observed(w, true);
      assert trace[i] == Observed(w, true);
    }
  }

  /** Only workloads that were observed active before are ever started. */
  lemma OnlyActiveWorkloadsAreStarted(trace: seq<Event>, i: nat, w: Workload)
    requires SafeTrace(trace) && i < |trace| && trace[i] == StartTried(w)
    ensures exists j :: 0 <= j < i && trace[j] == Observed(w, true)
  {
    SafeAt(trace, i);
    OwedIsJournaled(trace[..i]);
    SeenWasObserved(trace[..i], w);
    var j :| 0 <= j < i && trace[..i][j] == Observed(w, true);
    assert trace[j] == Observed(w, true);
  }

  /** A journal goes away, or changes its members, only when everything that was stopped under it was
      seen running. */
  lemma JournalDroppedOnlyWhenAllVerified(trace: seq<Event>, i: nat, w: Workload)
    requires SafeTrace(trace) && i < |trace|
    requires var s := Summarize(trace[..i]);
             trace[i] == JournalRemoved ||
             (trace[i].JournalWritten? && s.place in s.journals && s.journals[s.place] != trace[i].members)
    ensures !StoppedFrom(trace[..i], Summarize(trace[..i]).place, w, Observed(w, true))
  {
    SafeAt(trace, i);
    SummaryMeaning(trace[..i], Summarize(trace[..i]).place, w);
  }

  /** An enabled run archives only when nothing stopped by runs with its staging directory is
      unverified. */
  lemma ArchivesOnlyWhenAllVerified(trace: seq<Event>, i: nat, w: Workload)
    requires SafeTrace(trace) && i < |trace| && trace[i] == ArchiveCreated && Summarize(trace[..i]).enabled
    ensures !StoppedFrom(trace[..i], Summarize(trace[..i]).place, w, Observed(w, true))
  {
    SafeAt(trace, i);
    SummaryMeaning(trace[..i], Summarize(trace[..i]).place, w);
  }

  lemma {:induction false} PlacesGrow(trace: seq<Event>, n: nat)
    requires n <= |trace|
    ensures Summarize(trace[..n]).places <= Summarize(trace).places
  {
    hide Apply;
    if n < |trace| {
      var shorter := trace[..|trace| - 1];
      PlacesGrow(shorter, n);
      assert shorter[..n] == trace[..n];
      RunStep(Summarize(shorter), trace[|trace| - 1]);
    } else {
      assert trace[..n] == trace;
    }
  }

  /** With one fixed staging directory, no enabled run archives while anything is stopped. */
  lemma FixedStagingDirectory(trace: seq<Event>, place: Path, i: nat, w: Workload)
    requires SafeTrace(trace) && Summarize(trace).places <= {place}
    requires i < |trace| && trace[i] == ArchiveCreated && Summarize(trace[..i]).enabled
    ensures !StoppedAndUnverified(trace[..i], w)
  {
    var s := Summarize(trace[..i]);
    SafeAt(trace, i);
    PlacesGrow(trace, i);
    OwedIsJournaled(trace[..i]);
    OwedMeansUnverified(trace[..i], w);
    if q :| (q, w) in s.owed {
      assert q == place;
      RunPlace(trace[..i], place);
    }
  }

  lemma {:induction false} RunPlace(trace: seq<Event>, place: Path)
    requires Summarize(trace).enabled && Summarize(trace).places <= {place}
    ensures Summarize(trace).place == place
  {
    hide Apply;
    var shorter, last := trace[..|trace| - 1], trace[|trace| - 1];
    if last.RunBegan? {
      NewRunStep(Summarize(shorter), last.enabled, last.place);
    } else {
      SameRunStep(Summarize(shorter), last);
      RunPlace(shorter, place);
    }
  }

  // ---------------------------------------------------------------------------------------
  // When an archive can be made while a workload is stopped
  // ---------------------------------------------------------------------------------------

  /** One run from its beginning to its archive, after the history `before`. */
  ghost predicate RunToArchive(before: seq<Event>, after: seq<Event>, enabled: bool, place: Path) {
    && SafeTrace(after)
    && InRun(before, after, enabled, place)
    && after[|after| - 1] == ArchiveCreated
  }

  ghost predicate InRun(before: seq<Event>, after: seq<Event>, enabled: bool, place: Path) {
    && |before| < |after| && before + [RunBegan(enabled, place)] <= after
    && forall j :: |before| < j < |after| ==> !after[j].RunBegan?
  }

  lemma {:induction false} CountedRun(before: seq<Event>, after: seq<Event>, enabled: bool, place: Path)
    requires before + [RunBegan(enabled, place)] <= after
    requires Summarize(after).runs == Summarize(before).runs + 1
    ensures InRun(before, after, enabled, place)
  {
    hide Apply;
    var n := |after| - 1;
    if n > |before| {
      RunsGrow(before, enabled, place, after[..n]);
      RunStep(Summarize(after[..n]), after[n]);
      CountedRun(before, after[..n], enabled, place);
      forall j | |before| < j < |after| ensures !after[j].RunBegan? {
        if j < n { assert after[..n][j] == after[j]; }
      }
    }
  }

  lemma {:induction false} RunsGrow(before: seq<Event>, enabled: bool, place: Path, after: seq<Event>)
    requires before + [RunBegan(enabled, place)] <= after
    ensures Summarize(after).runs > Summarize(before).runs
  {
    hide Apply;
    var n := |after| - 1;
    if n == |before| {
      assert after == before + [RunBegan(enabled, place)];
      SummarizeSnoc(before, RunBegan(enabled, place));
      NewRunStep(Summarize(before), enabled, place);
    } else {
      RunsGrow(before, enabled, place, after[..n]);
      RunStep(Summarize(after[..n]), after[n]);
    }
  }

  ghost predicate StopTriedSince(trace: seq<Event>, from: nat, w: Workload) {
    exists i :: from <= i < |trace| && trace[i] == StopTried(w)
  }

  /** What a run has tried to stop is what its own events say. */
  lemma StopsStep(s: Summary, e: Event, w: Workload)
    ensures e.RunBegan? ==> Apply(s, e).stops == {}
    ensures !e.RunBegan? ==> (w in Apply(s, e).stops <==> w in s.stops || e == StopTried(w))
  {
  }

  lemma {:induction false} StopsOfRun(before: seq<Event>, after: seq<Event>, enabled: bool, place: Path, w: Workload)
    requires InRun(before, after, enabled, place)
    ensures w in Summarize(after).stops <==> StopTriedSince(after, |before|, w)
  {
    hide Apply;
    var n := |after| - 1;
    var shorter, last := after[..n], after[n];
    StopsStep(Summarize(shorter), last, w);
    if n == |before| {
      assert after == before + [RunBegan(enabled, place)];
    } else {
      forall j | |before| < j < n ensures !shorter[j].RunBegan? { assert after[j] == shorter[j]; }
      StopsOfRun(before, shorter, enabled, place, w);
      assert !after[n].RunBegan?;
      if i :| |before| <= i < |after| && after[i] == StopTried(w) { assert i < n ==> shorter[i] == after[i]; }
      if i :| |before| <= i < n && shorter[i] == StopTried(w) { assert after[i] == shorter[i]; }
    }
  }

  lemma UncheckedStep(s: Summary, e: Event, place: Path, w: Workload)
    requires SafeStep(s, e) && !e.RunBegan? && s.enabled && s.place == place
    requires w in s.unchecked || forall q :: (q, w) in s.owed ==> q == place
    ensures var t := Apply(s, e);
            && t.enabled && t.place == place
            && (w in t.unchecked || forall q :: (q, w) in t.owed ==> q == place)
  {
  }

  lemma {:induction false} FoundStaysUnchecked(before: seq<Event>, after: seq<Event>, place: Path, w: Workload)
    requires SafeTrace(after) && InRun(before, after, true, place)
    requires w in JournalAt(Summarize(before), place)
    ensures var s := Summarize(after);
            && s.enabled && s.place == place
            && (w in s.unchecked || forall q :: (q, w) in s.owed ==> q == place)
  {
    var n := |after| - 1;
    var shorter, last := after[..n], after[n];
    if n == |before| {
      assert after == before + [RunBegan(true, place)];
      SummarizeSnoc(before, last);
    } else {
      forall j | |before| < j < n ensures !shorter[j].RunBegan? { assert after[j] == shorter[j]; }
      hide Apply, SafeStep;
      FoundStaysUnchecked(before, shorter, place, w);
      assert after == shorter + [last] && !last.RunBegan?;
      UncheckedStep(Summarize(shorter), last, place, w);
    }
  }

  /** What recovery does for one workload of the journal: start it and see it running. */
  lemma Recheck(trace: seq<Event>, w: Workload) returns (longer: seq<Event>)
    requires SafeTrace(trace) && w in JournalAt(Summarize(trace), Summarize(trace).place)
    requires !Summarize(trace).blocked
    ensures SafeTrace(longer) && longer == trace + [StartTried(w), Started(w), Observed(w, true)]
    ensures var s, t := Summarize(trace), Summarize(longer);
            && t.enabled == s.enabled && t.place == s.place && t.journals == s.journals && !t.blocked
            && t.unchecked == s.unchecked - {w}
            && t.owed == WithoutWorkload(s.owed, w) && t.copies == s.copies
  {
    hide WithoutWorkload;
    var started := trace + [StartTried(w)];
    SummarizeSnoc(trace, StartTried(w));
    var running := started + [Started(w)];
    SummarizeSnoc(started, Started(w));
    longer := running + [Observed(w, true)];
    SummarizeSnoc(running, Observed(w, true));
  }

  lemma {:induction false} RecheckAll(trace: seq<Event>, rest: set<Workload>) returns (longer: seq<Event>)
    requires SafeTrace(trace) && rest <= JournalAt(Summarize(trace), Summarize(trace).place)
    requires !Summarize(trace).blocked
    ensures SafeTrace(longer) && trace <= longer
    ensures forall j :: |trace| <= j < |longer| ==> !longer[j].RunBegan?
    ensures var s, t := Summarize(trace), Summarize(longer);
            && t.enabled == s.enabled && t.place == s.place && t.journals == s.journals && !t.blocked
            && t.unchecked == s.unchecked - rest
            && forall d :: d in t.owed <==> d in s.owed && d.1 !in rest
    decreases rest
  {
    hide SafeTrace, Summarize;
    longer := trace;
    if rest != {} {
      var w :| w in rest;
      var checked := Recheck(trace, w);
      longer := RecheckAll(checked, rest - {w});
      forall j | |trace| <= j < |longer| ensures !longer[j].RunBegan? {
        if j < |checked| { assert longer[j] == checked[j]; }
      }
    }
  }

  /** The run can archive without seeing the workload: its Docker handling is disabled, or its staging
      directory holds no journal, or one that recovery accepts and that does not list the workload. */
  ghost predicate Overlooks(before: Summary, enabled: bool, place: Path, w: Workload) {
    !enabled || place !in before.journals || (place !in before.refused && w !in before.journals[place])
  }

  /** Exactly when a run can archive while a workload is stopped and unverified. */
  lemma ArchiveWhileStoppedIff(before: seq<Event>, enabled: bool, place: Path, w: Workload)
    requires SafeTrace(before) && StoppedAndUnverified(before, w)
    ensures (exists after :: RunToArchive(before, after, enabled, place) && StoppedAndUnverified(after, w)) <==>
            Overlooks(Summarize(before), enabled, place, w)
  {
    hide StoppedAndUnverified;
    if Overlooks(Summarize(before), enabled, place, w) {
      var after := ArchiveAnyway(before, enabled, place, w);
      assert RunToArchive(before, after, enabled, place);
    } else {
      forall after ensures !(RunToArchive(before, after, true, place) && StoppedAndUnverified(after, w)) {
        if RunToArchive(before, after, true, place) {
          NotOverlooked(before, after, place, w);
        }
      }
    }
  }

  lemma {:induction false} BlockedRunStaysBlocked(before: seq<Event>, after: seq<Event>, place: Path)
    requires InRun(before, after, true, place) && place in Summarize(before).refused
    ensures Summarize(after).blocked
  {
    hide Apply;
    var n := |after| - 1;
    var shorter, last := after[..n], after[n];
    if n == |before| {
      assert after == before + [RunBegan(true, place)];
      SummarizeSnoc(before, last);
      NewRunStep(Summarize(before), true, place);
    } else {
      forall j | |before| < j < n ensures !shorter[j].RunBegan? { assert after[j] == shorter[j]; }
      BlockedRunStaysBlocked(before, shorter, place);
      assert after == shorter + [last] && !last.RunBegan?;
      SameRunStep(Summarize(shorter), last);
    }
  }

  /** An enabled run that finds a journal which recovery refuses creates no archive. */
  lemma RefusedNeverArchives(before: seq<Event>, after: seq<Event>, place: Path)
    requires SafeTrace(after) && InRun(before, after, true, place) && place in Summarize(before).refused
    ensures after[|after| - 1] != ArchiveCreated
  {
    BlockedRunStaysBlocked(before, after, place);
  }

  lemma NotOverlooked(before: seq<Event>, after: seq<Event>, place: Path, w: Workload)
    requires RunToArchive(before, after, true, place) && !Overlooks(Summarize(before), true, place, w)
    ensures !StoppedAndUnverified(after, w)
  {
    hide StoppedWithout;
    if place !in Summarize(before).refused {
      ListedIsVerified(before, after, place, w);
    } else {
      RefusedNeverArchives(before, after, place);
    }
  }

  lemma ListedIsVerified(before: seq<Event>, after: seq<Event>, place: Path, w: Workload)
    requires RunToArchive(before, after, true, place) && w in JournalAt(Summarize(before), place)
    ensures !StoppedAndUnverified(after, w)
  {
    FoundStaysUnchecked(before, after, place, w);
    SafeAt(after, |after| - 1);
    OwedMeansUnverified(after, w);
  }

  /** Such a run: `Quiesce.DockerManager.Backup` recovers the journal, if there is one, by restarting
      and checking what it lists, then finds nothing to stage, and archives. */
  lemma ArchiveAnyway(before: seq<Event>, enabled: bool, place: Path, w: Workload) returns (after: seq<Event>)
    requires SafeTrace(before) && StoppedAndUnverified(before, w)
    requires Overlooks(Summarize(before), enabled, place, w)
    ensures RunToArchive(before, after, enabled, place) && StoppedAndUnverified(after, w)
  {
    hide StoppedAndUnverified;
    OwedIsJournaled(before);
    OwedMeansUnverified(before, w);
    var began := before + [RunBegan(enabled, place)];
    SummarizeSnoc(before, RunBegan(enabled, place));
    var ready := began;
    if enabled && place in Summarize(began).journals {
      var rechecked := RecheckAll(began, Summarize(began).journals[place]);
      ready := rechecked + [JournalRemoved];
      SummarizeSnoc(rechecked, JournalRemoved);
      forall j | |before| < j < |ready| ensures !ready[j].RunBegan? {
        if j < |rechecked| { assert ready[j] == rechecked[j]; }
      }
    }
    after := ready + [ArchiveCreated];
    SummarizeSnoc(ready, ArchiveCreated);
    OwedMeansUnverified(after, w);
  }

  /** A run that stops the only container of the host and is then cut off by a crash. Its events are
      those of `Quiesce.DockerManager.Backup` in the order of its body: the audit, the first copy of
      the only mount, the journal and the stop. The container was started before. */
  function CrashedRun(place: Path, id: string, source: Path): seq<Event> {
    var w := Container(id);
    [Changed({w}), RunBegan(true, place), Observed(w, true), CopyBegan(MountSlot(id, 0), source)]
    + [JournalWritten({w}, true), StopTried(w), Stopped(w)]
  }

  lemma CrashedRunOwes(place: Path, id: string, source: Path)
    ensures SafeTrace(CrashedRun(place, id, source))
    ensures var w := Container(id);
            Summarize(CrashedRun(place, id, source)) ==
            Untouched.(enabled := true, place := place, runs := 1, places := {place}, journals := map[place := {w}],
                       stops := {w}, owed := {(place, w)}, unstarted := {w}, seen := {w},
                       copies := map[MountSlot(id, 0) := Copy(source, {w}, false, {})])
  {
    var w, copied := Container(id), CopyBegan(MountSlot(id, 0), source);
    var t1 := [Changed({w})];
    SummarizeSnoc([], Changed({w}));
    assert [] + t1 == t1;
    var t2 := t1 + [RunBegan(true, place)];
    SummarizeSnoc(t1, RunBegan(true, place));
    var t3 := t2 + [Observed(w, true)];
    SummarizeSnoc(t2, Observed(w, true));
    var t4 := t3 + [copied];
    SummarizeSnoc(t3, copied);
    var t5 := t4 + [JournalWritten({w}, true)];
    SummarizeSnoc(t4, JournalWritten({w}, true));
    var t6 := t5 + [StopTried(w)];
    SummarizeSnoc(t5, StopTried(w));
    SummarizeSnoc(t6, Stopped(w));
    assert CrashedRun(place, id, source) == t6 + [Stopped(w)];
    assert Summarize(t1).running == {w} && Summarize(t3).seen == {w} && Summarize(t6).owed == {(place, w)};
  }

  /** With Docker handling switched off in between, a backup neither recovers nor looks at the journal:
      this safe history archives while a container is stopped. A disabled `Backup` has no other events
      than its beginning and the archive. */
  lemma DisabledRunMayArchiveWhileStopped(place: Path, id: string, source: Path)
    ensures var after := CrashedRun(place, id, source) + [RunBegan(false, place)] + [ArchiveCreated];
            SafeTrace(after) && StoppedAndUnverified(after, Container(id))
  {
    var crashed, began := CrashedRun(place, id, source), RunBegan(false, place);
    CrashedRunOwes(place, id, source);
    SummarizeSnoc(crashed, began);
    SummarizeSnoc(crashed + [began], ArchiveCreated);
    OwedMeansUnverified(crashed + [began] + [ArchiveCreated], Container(id));
  }

  /** A second profile with a staging directory of its own does not find the journal either: this safe
      history archives, in an enabled run, while a container is stopped. The second `Backup` finds no
      journal, sees the stopped container in its audit, and selects nothing to stage. */
  lemma SecondProfileMayArchiveWhileStopped(first: Path, second: Path, id: string, source: Path)
    requires first != second
    ensures var found := [RunBegan(true, second)] + [Observed(Container(id), false)];
            var after := CrashedRun(first, id, source) + found + [ArchiveCreated];
            SafeTrace(after) && StoppedAndUnverified(after, Container(id)) && Summarize(after).enabled
  {
    var crashed, began, seen := CrashedRun(first, id, source), RunBegan(true, second), Observed(Container(id), false);
    CrashedRunOwes(first, id, source);
    SummarizeSnoc(crashed, began);
    SummarizeSnoc(crashed + [began], seen);
    assert crashed + [began] + [seen] == crashed + ([began] + [seen]);
    SummarizeSnoc(crashed + [began] + [seen], ArchiveCreated);
    OwedMeansUnverified(crashed + [began] + [seen] + [ArchiveCreated], Container(id));
  }

  ghost predicate ObservedRunningSince(trace: seq<Event>, from: nat, w: Workload) {
    exists i :: from <= i < |trace| && trace[i] == Observed(w, true)
  }

  ghost predicate StartTriedSince(trace: seq<Event>, from: nat, w: Workload) {
    exists i :: from <= i < |trace| && trace[i] == StartTried(w)
  }

  lemma SinceStays(shorter: seq<Event>, longer: seq<Event>, from: nat, w: Workload)
    requires shorter <= longer
    ensures ObservedRunningSince(shorter, from, w) ==> ObservedRunningSince(longer, from, w)
    ensures StartTriedSince(shorter, from, w) ==> StartTriedSince(longer, from, w)
  {
    if i :| from <= i < |shorter| && shorter[i] == Observed(w, true) { assert longer[i] == shorter[i]; }
    if i :| from <= i < |shorter| && shorter[i] == StartTried(w) { assert longer[i] == shorter[i]; }
  }
}
