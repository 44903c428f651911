/** Stopping, copying and resuming workloads around a backup, with a journal that survives crashes.
    Every method can crash between any two of its actions: it then returns at once. */
module Quiesce {
  import opened Ordering
  import opened Paths
  import opened Selection
  import opened QuiesceTrace
  import opened Containers
  import opened Journals

  datatype Outcome = Ok | Failed | Crashed

  datatype CheckResult = Answer(active: bool) | NoAnswer | CheckCrashed

  ghost function MembersOf(journals: map<Path, Journal>): map<Path, set<Workload>> {
    map place | place in journals :: journals[place].Members()
  }

  ghost function RefusedOf(journals: map<Path, Journal>, encodedSize: Journal -> nat): set<Path> {
    set place | place in journals && !RecoveryAccepts(journals[place], encodedSize)
  }

  /** Only the journal in this staging directory may differ. */
  ghost predicate SameElsewhere(before: map<Path, Journal>, after: map<Path, Journal>, place: Path) {
    forall p :: p != place ==> (p in before <==> p in after) && (p in before && p in after ==> before[p] == after[p])
  }

  lemma SameElsewhereMinus(before: map<Path, Journal>, middle: map<Path, Journal>, after: map<Path, Journal>,
                           place: Path)
    requires SameElsewhere(before, middle, place) && (after == middle || after == middle - {place})
    ensures SameElsewhere(before, after, place)
  {
  }

  lemma SameElsewhereChain(before: map<Path, Journal>, middle: map<Path, Journal>, after: map<Path, Journal>,
                           place: Path)
    requires SameElsewhere(before, middle, place) && SameElsewhere(middle, after, place)
    ensures SameElsewhere(before, after, place)
  {
  }

  /** The same run goes on. */
  ghost predicate SameRun(s: Summary, t: Summary) {
    && t.enabled == s.enabled && t.place == s.place && t.runs == s.runs && t.places == s.places
    && t.blocked == s.blocked && s.seen <= t.seen && s.stops <= t.stops && t.unchecked <= s.unchecked
  }

  /** The slots of other containers than these are left alone, and of the service paths unless `paths`. */
  ghost predicate Kept(s: Summary, t: Summary, ids: set<string>, paths: bool) {
    SameCopies(s.copies, t.copies, ids, paths)
  }

  lemma KeptChain(s: Summary, t: Summary, u: Summary, ids0: set<string>, paths0: bool, ids1: set<string>, paths1: bool,
                  ids: set<string>, paths: bool)
    requires Kept(s, t, ids0, paths0) && Kept(t, u, ids1, paths1)
    requires ids0 <= ids && ids1 <= ids && (paths0 || paths1 ==> paths)
    ensures Kept(s, u, ids, paths)
  {
    forall slot | slot in s.copies && !Touches(slot, ids, paths)
      ensures !Touches(slot, ids0, paths0) && !Touches(slot, ids1, paths1)
    {
    }
  }

  lemma KeptSelf(s: Summary, ids: set<string>, paths: bool)
    ensures Kept(s, s, ids, paths)
  {
  }

  lemma KeptWider(s: Summary, t: Summary, ids0: set<string>, ids: set<string>, paths: bool)
    requires Kept(s, t, ids0, false) && ids0 <= ids
    ensures Kept(s, t, ids, paths)
  {
  }

  lemma KeptEach(s: Summary, t: Summary)
    requires Kept(s, t, {}, false)
    ensures forall slot :: slot in s.copies ==>
              && slot in t.copies && t.copies[slot].source == s.copies[slot].source
              && t.copies[slot].running == s.copies[slot].running && t.copies[slot].checked == s.copies[slot].checked
  {
    forall slot | slot in s.copies ensures !Touches(slot, {}, false) {}
  }

  lemma KeptCopies(s: Summary, t: Summary, ids: set<string>, paths: bool)
    requires Kept(s, t, ids, paths)
    ensures SameCopies(s.copies, t.copies, ids, paths)
  {
  }

  lemma EachWorkload(ids: seq<string>, services: seq<string>, containers: seq<Workload>, units: seq<Workload>)
    requires |containers| == |ids| && forall i :: 0 <= i < |ids| ==> containers[i] == Container(ids[i])
    requires |units| == |services| && forall i :: 0 <= i < |services| ==> units[i] == Service(services[i])
    ensures forall w :: w in Workloads(ids, services) <==> w in containers || w in units
  {
    forall w | w in Workloads(ids, services) ensures w in containers || w in units {
      match w
      case Container(id) =>
        var k :| 0 <= k < |ids| && ids[k] == id;
        assert containers[k] == w;
      case Service(name) =>
        var k :| 0 <= k < |services| && services[k] == name;
        assert units[k] == w;
    }
  }

  class DockerManager {
    var running: set<Workload>

    /** The journals on disk, by the staging directory that holds them. */
    var journals: map<Path, Journal>

    /** No outside party starts workloads during a run. */
    const isolated: bool

    /** The length of a journal as it is written to disk. */
    const encodedSize: Journal -> nat

    ghost var trace: seq<Event>

    /** Counts what goes wrong: commands and file operations that fail or are cut off by a crash,
        starts without effect, a full disk, and workloads that others start or stop. */
    ghost var trouble: nat

    constructor (isolated: bool, encodedSize: Journal -> nat)
      ensures Valid() && trace == [] && trouble == 0 && journals == map[] && running == {}
      ensures this.isolated == isolated && this.encodedSize == encodedSize
    {
      running, journals := {}, map[];
      this.isolated, this.encodedSize := isolated, encodedSize;
      trace, trouble := [], 0;
    }

    ghost function State(): Summary
      reads this`trace
    {
      Summarize(trace)
    }

    ghost predicate Valid()
      reads this`trace, this`running, this`journals
    {
      && SafeTrace(trace)
      && State().running == running
      && State().journals == MembersOf(journals)
      && State().refused == RefusedOf(journals, encodedSize)
    }

    /** The current run has not found a journal that recovery refuses. */
    ghost predicate Ready()
      reads this`trace, this`running, this`journals
    {
      Valid() && !State().blocked
    }

    /** The workload is in the journal of the current run. */
    ghost predicate Listed(w: Workload)
      reads this`trace
    {
      w in JournalAt(State(), State().place)
    }

    /** Nothing that happened to the workload is left open. */
    ghost predicate Clear(w: Workload)
      reads this`trace
    {
      w !in State().unchecked && forall place :: (place, w) !in State().owed
    }

    twostate predicate Continues()
      reads this`trace, this`trouble
    {
      && old(trace) <= trace
      && old(trouble) <= trouble
      && SameRun(old(State()), State())
    }

    /** What a sequence of actions may change: only of these workloads a stop is tried; without trouble the
        others run as before, and on an isolated host only these starts make any run. Copies went into
        slots of these containers, and of the service paths if `paths`. */
    twostate predicate Progress(stopped: set<Workload>, started: set<Workload>, ids: set<string>, paths: bool)
      reads this
    {
      && Continues()
      && State().stops <= old(State()).stops + stopped
      && State().unstarted <= old(State()).unstarted + stopped
      && (forall d :: d in State().owed ==> d in old(State()).owed || (d.0 == State().place && d.1 in stopped))
      && Kept(old(State()), State(), ids, paths)
      && (isolated ==> running <= old(running) + started)
      && (trouble == old(trouble) ==>
            && running <= old(running) + started
            && forall w :: w in old(running) && w !in stopped ==> w in running)
    }

    /** Whatever ran when the copy began still runs or is recorded as ended. */
    ghost predicate Tracked(copy: Copy)
      reads this`running
    {
      && (forall w :: w in copy.running ==> w in running || w in copy.ended)
      && (isolated ==> copy.ended <= copy.running && running <= copy.running)
    }

    twostate predicate KeepsTrack()
      reads this`trace, this`running
    {
      forall slot :: slot in old(State()).copies && old(Tracked(State().copies[slot])) ==>
        slot in State().copies && Tracked(State().copies[slot])
    }

    ghost method Append(e: Event)
      requires SafeTrace(trace) && SafeStep(State(), e)
      modifies this`trace
      ensures SafeTrace(trace) && trace == old(trace) + [e] && State() == Apply(old(State()), e)
    {
      SummarizeSnoc(trace, e);
      trace := trace + [e];
    }

    /** Time passes: workloads may end, and on a host that is not isolated also start. */
    method Outside()
      requires Valid()
      modifies this`running, this`trace, this`trouble
      ensures Valid() && Progress({}, {}, {}, false) && KeepsTrack()
      ensures State() == old(State()).(running := running, copies := State().copies)
    {
      hide SafeTrace, Summarize, MembersOf, RefusedOf, SafeStep, Apply;
      var next: set<Workload> := *;
      if isolated { next := next * running; }
      if next == running { return; }
      trouble := trouble + 1;
      ChangeStep(State(), next);
      Append(Changed(next));
      running := next;
    }

    lemma ChangeStep(s: Summary, next: set<Workload>)
      ensures SafeStep(s, Changed(next))
      ensures Apply(s, Changed(next)) == s.(running := next, copies := EndedSince(s.copies, s.running - next))
    {
    }

    method StopEvents(w: Workload, effective: bool)
      requires Ready() && Listed(w)
      modifies this`running, this`trace
      ensures Ready() && Progress({w}, {}, {}, false)
      ensures State().journals == old(State()).journals && w in State().stops
      ensures effective ==> w !in running
    {
      hide SafeTrace, Summarize, RefusedOf, EndedSince, WithoutWorkload;
      Append(StopTried(w));
      if effective {
        Append(Stopped(w));
        running := running - {w};
      }
    }

    /** `docker stop` or `systemctl stop`. Success means stopped; failure leaves it open. */
    method Stop(w: Workload) returns (r: Outcome)
      requires Ready() && Listed(w)
      modifies this`running, this`trace, this`trouble
      ensures Ready() && Progress({w}, {}, {}, false)
      ensures State().journals == old(State()).journals
      ensures r.Ok? ==> w !in running && w in State().stops
      ensures r.Ok? || trouble > old(trouble)
    {
      hide SafeTrace, Summarize, RefusedOf;
      Outside();
      r := *;
      if !r.Ok? { trouble := trouble + 1; }
      var begun, effective: bool := *, *;
      if r.Crashed? && !begun { return; }
      StopEvents(w, r.Ok? || effective);
    }

    method StartEvents(w: Workload, effective: bool)
      requires Ready() && Listed(w)
      modifies this`running, this`trace
      ensures Ready() && Progress({}, {w}, {}, false)
      ensures State().journals == old(State()).journals && State().owed == old(State()).owed
      ensures StartTriedSince(trace, |old(trace)|, w) && w !in State().unstarted
      ensures effective ==> w in running
    {
      hide SafeTrace, Summarize, RefusedOf, EndedSince, WithoutWorkload;
      Append(StartTried(w));
      assert trace[|old(trace)|] == StartTried(w);
      if effective {
        Append(Started(w));
        running := running + {w};
        assert trace[|old(trace)|] == StartTried(w);
      }
    }

    /** `docker start` or `systemctl start`. Whether the workload then runs is decided by a check. */
    method Start(w: Workload) returns (r: Outcome)
      requires Ready() && Listed(w)
      modifies this`running, this`trace, this`trouble
      ensures Ready() && Progress({}, {w}, {}, false)
      ensures State().journals == old(State()).journals && State().owed == old(State()).owed
      ensures !r.Crashed? ==> StartTriedSince(trace, |old(trace)|, w) && w !in State().unstarted
      ensures (!r.Crashed? && w in running) || trouble > old(trouble)
    {
      hide SafeTrace, Summarize, RefusedOf, StartTriedSince;
      Outside();
      r := *;
      var begun, effective: bool := *, *;
      if r.Crashed? || !effective { trouble := trouble + 1; }
      if r.Crashed? && !begun { return; }
      ghost var from := |trace|;
      StartEvents(w, effective);
      SinceEarlier(trace, from, |old(trace)|, w);
    }

    lemma SinceEarlier(longer: seq<Event>, from: nat, earlier: nat, w: Workload)
      requires earlier <= from
      ensures ObservedRunningSince(longer, from, w) ==> ObservedRunningSince(longer, earlier, w)
      ensures StartTriedSince(longer, from, w) ==> StartTriedSince(longer, earlier, w)
    {
    }

    /** `docker inspect` or `systemctl is-active`. An answer is the truth at that moment. */
    method Check(w: Workload) returns (r: CheckResult)
      requires Ready()
      modifies this`running, this`trace, this`trouble
      ensures Ready() && Progress({}, {}, {}, false) && KeepsTrack()
      ensures State().journals == old(State()).journals && State().owed <= old(State()).owed
      ensures r.Answer? ==> r.active == (w in running)
      ensures r.Answer? && !r.active ==> w in State().idle
      ensures r.Answer? && r.active ==> w in State().seen && Clear(w) && ObservedRunningSince(trace, |old(trace)|, w)
      ensures (r.Answer? && running == old(running)) || trouble > old(trouble)
    {
      hide SafeTrace, Summarize, RefusedOf;
      Outside();
      r := *;
      if r.Answer? {
        r := Answer(w in running);
        ghost var before := trace;
        Append(Observed(w, r.active));
        assert trace[|before|] == Observed(w, r.active);
      } else {
        trouble := trouble + 1;
      }
    }

    method WriteEvent(place: Path, next: Journal)
      requires Ready() && place == State().place && place in State().places && next.Members() <= State().seen
      requires NothingOwedAt(State(), place) || (place in journals && journals[place].Members() == next.Members())
      modifies this`trace, this`journals
      ensures Ready() && Progress({}, {}, {}, false) && journals == old(journals)[place := next]
      ensures State().owed == old(State()).owed && State().unchecked == old(State()).unchecked
    {
      hide SafeTrace, Summarize, RecoveryAccepts, EndedSince, WithoutWorkload, Apply;
      WriteStep(State(), next.Members(), RecoveryAccepts(next, encodedSize));
      Append(JournalWritten(next.Members(), RecoveryAccepts(next, encodedSize)));
      journals := journals[place := next];
    }

    lemma WriteStep(s: Summary, members: set<Workload>, accepted: bool)
      ensures Apply(s, JournalWritten(members, accepted)) ==
              s.(journals := s.journals[s.place := members],
                 refused := if accepted then s.refused - {s.place} else s.refused + {s.place}, idle := {})
    {
    }

    method RemoveEvent(place: Path)
      requires Ready() && place == State().place && NothingOwedAt(State(), place) && State().unchecked == {}
      modifies this`trace, this`journals
      ensures Ready() && Progress({}, {}, {}, false) && journals == old(journals) - {place}
      ensures State().owed == old(State()).owed && State().unchecked == old(State()).unchecked
    {
      hide SafeTrace, Summarize, RecoveryAccepts, EndedSince, WithoutWorkload;
      Append(JournalRemoved);
      journals := journals - {place};
    }

    /** `write_atomic`: the rename is the last step, so a failed write leaves the old journal and a
        crash leaves the old or the new one. */
    method WriteJournal(place: Path, next: Journal) returns (r: Outcome)
      requires Ready() && place == State().place && place in State().places && next.Members() <= State().seen
      requires NothingOwedAt(State(), place) || (place in journals && journals[place].Members() == next.Members())
      modifies this`running, this`trace, this`trouble, this`journals
      ensures Ready() && Progress({}, {}, {}, false)
      ensures r.Ok? ==> journals == old(journals)[place := next]
      ensures r.Failed? ==> journals == old(journals)
      ensures r.Crashed? ==> journals == old(journals) || journals == old(journals)[place := next]
      ensures State().owed == old(State()).owed && State().unchecked == old(State()).unchecked
      ensures r.Ok? || trouble > old(trouble)
    {
      hide SafeTrace, Summarize, RefusedOf;
      Outside();
      r := *;
      if !r.Ok? { trouble := trouble + 1; }
      var renamed: bool := *;
      if r.Failed? || (r.Crashed? && !renamed) { return; }
      WriteEvent(place, next);
    }

    method RemoveJournal(place: Path) returns (r: Outcome)
      requires Ready() && place == State().place && NothingOwedAt(State(), place) && State().unchecked == {}
      modifies this`running, this`trace, this`trouble, this`journals
      ensures Ready() && Progress({}, {}, {}, false)
      ensures r.Ok? ==> journals == old(journals) - {place}
      ensures r.Failed? ==> journals == old(journals)
      ensures r.Crashed? ==> journals == old(journals) || journals == old(journals) - {place}
      ensures State().owed == old(State()).owed && State().unchecked == old(State()).unchecked
      ensures r.Ok? || trouble > old(trouble)
    {
      hide SafeTrace, Summarize, RefusedOf;
      Outside();
      r := *;
      if !r.Ok? { trouble := trouble + 1; }
      var removed: bool := *;
      if r.Failed? || (r.Crashed? && !removed) { return; }
      RemoveEvent(place);
    }

    lemma DebtsOfRun()
      requires Valid()
      ensures forall w :: (State().place, w) in State().owed ==> Listed(w)
    {
      hide SafeTrace, Summarize, RefusedOf;
      OwedIsJournaled(trace);
      assert forall w :: (State().place, w) in State().owed ==> (State().place, w).1 == w;
    }

    lemma JournalSeen(place: Path)
      requires Ready() && place in journals
      ensures place in State().places && journals[place].Members() <= State().seen
    {
      hide SafeTrace, Summarize, RefusedOf;
      OwedIsJournaled(trace);
    }

    // -------------------------------------------------------------------------------------
    // Resuming
    // -------------------------------------------------------------------------------------

    /** Starts and checks one workload. A failed start is forgiven when the check finds it running. */
    method ResumeOne(w: Workload) returns (crashed: bool, verified: bool)
      requires Ready() && Listed(w)
      modifies this`running, this`trace, this`trouble
      ensures Ready() && Progress({}, {w}, {}, false)
      ensures State().journals == old(State()).journals && State().owed <= old(State()).owed
      ensures !crashed ==> StartTriedSince(trace, |old(trace)|, w) && w !in State().unstarted
      ensures !crashed && verified ==> ObservedRunningSince(trace, |old(trace)|, w) && Clear(w)
      ensures (!crashed && verified && w in running) || trouble > old(trouble)
    {
      hide SafeTrace, Summarize, RefusedOf;
      var start := Start(w);
      if start.Crashed? { return true, false; }
      ghost var started := trace;
      var check := Check(w);
      SinceStays(started, trace, |old(trace)|, w);
      if check.CheckCrashed? { return true, false; }
      verified := check.Answer? && check.active;
      SinceEarlier(trace, |started|, |old(trace)|, w);
      return false, verified;
    }

    /** The workload was started, and was then seen running or is a recorded failure. */
    ghost predicate Resumed(from: nat, w: Workload, failures: seq<Workload>)
      reads this`trace
    {
      && StartTriedSince(trace, from, w) && w !in State().unstarted
      && (w in failures || (ObservedRunningSince(trace, from, w) && Clear(w)))
    }

    method ResumeInto(w: Workload, failures0: seq<Workload>, ghost from: nat)
        returns (crashed: bool, failures: seq<Workload>)
      requires Ready() && Listed(w) && from <= |trace|
      modifies this`running, this`trace, this`trouble
      ensures Ready() && Progress({}, {w}, {}, false)
      ensures State().journals == old(State()).journals && State().owed <= old(State()).owed
      ensures !crashed ==> Resumed(from, w, failures)
      ensures forall v :: old(Resumed(from, v, failures0)) ==> Resumed(from, v, failures)
      ensures failures == failures0 || failures == failures0 + [w]
      ensures (!crashed && failures == failures0 && w in running) || trouble > old(trouble)
    {
      hide SafeTrace, Summarize, RefusedOf, ObservedRunningSince, StartTriedSince;
      var verified;
      ghost var before := trace;
      crashed, verified := ResumeOne(w);
      failures := if crashed || verified then failures0 else failures0 + [w];
      SinceEarlier(trace, |before|, from, w);
      forall v ensures StartTriedSince(before, from, v) ==> StartTriedSince(trace, from, v)
               ensures ObservedRunningSince(before, from, v) ==> ObservedRunningSince(trace, from, v)
      {
        SinceStays(before, trace, from, v);
      }
    }

    /** One of the two loops of `resume`. */
    method ResumeEach(workloads: seq<Workload>, failures0: seq<Workload>, ghost from: nat, ghost started: set<Workload>)
        returns (crashed: bool, failures: seq<Workload>)
      requires Ready() && from <= |trace| && forall w :: w in workloads ==> Listed(w) && w in started
      modifies this`running, this`trace, this`trouble
      ensures Ready() && Progress({}, started, {}, false)
      ensures State().journals == old(State()).journals && State().owed <= old(State()).owed
      ensures !crashed ==> forall w :: w in workloads ==> Resumed(from, w, failures)
      ensures forall v :: old(Resumed(from, v, failures0)) ==> Resumed(from, v, failures)
      ensures forall w :: w in failures ==> w in failures0 || w in workloads
      ensures (!crashed && failures == failures0 && forall w :: w in workloads ==> w in running) ||
              trouble > old(trouble)
    {
      hide SafeTrace, Summarize, RefusedOf, Resumed;
      crashed, failures := false, failures0;
      for i := 0 to |workloads|
        invariant !crashed && Ready() && Progress({}, started, {}, false)
        invariant State().journals == old(State()).journals && State().owed <= old(State()).owed
        invariant forall k :: 0 <= k < i ==> Resumed(from, workloads[k], failures)
        invariant forall v :: old(Resumed(from, v, failures0)) ==> Resumed(from, v, failures)
        invariant forall w :: w in failures ==> w in failures0 || w in workloads
        invariant (failures == failures0 && forall k :: 0 <= k < i ==> workloads[k] in running) ||
                  trouble > old(trouble)
      {
        assert workloads[i] in workloads;
        crashed, failures := ResumeInto(workloads[i], failures, from);
        if crashed { return; }
      }
    }

    /** Never stops early: every listed workload is started and checked, failures are collected. */
    method Resume(ids: seq<string>, services: seq<string>) returns (r: Outcome, failures: seq<Workload>)
      requires Ready() && State().place in journals
      requires journals[State().place].Members() == Workloads(ids, services)
      modifies this`running, this`trace, this`trouble
      ensures Ready() && Progress({}, Workloads(ids, services), {}, false)
      ensures State().journals == old(State()).journals
      ensures r.Ok? ==> failures == [] && NothingOwedAt(State(), State().place)
      ensures r.Ok? && old(State()).unchecked <= Workloads(ids, services) ==> State().unchecked == {}
      ensures r.Failed? ==> failures != []
      ensures !r.Crashed? ==> forall w :: w in Workloads(ids, services) ==>
                StartTriedSince(trace, |old(trace)|, w) && w !in State().unstarted &&
                (w in failures || ObservedRunningSince(trace, |old(trace)|, w))
      ensures forall w :: w in failures ==> w in Workloads(ids, services)
      ensures (r.Ok? && Workloads(ids, services) <= running) || trouble > old(trouble)
    {
      hide SafeTrace, Summarize, RefusedOf, Kept, StartTriedSince, ObservedRunningSince;
      DebtsOfRun();
      ghost var from, state0 := |trace|, State();
      ghost var all := Workloads(ids, services);
      var containers: seq<Workload> := seq(|ids|, i requires 0 <= i < |ids| => Container(ids[i]));
      var units: seq<Workload> := seq(|services|, i requires 0 <= i < |services| => Service(services[i]));
      var crashed: bool;
      crashed, failures := ResumeEach(containers, [], from, all);
      ghost var state1 := State();
      if crashed { return Crashed, failures; }
      crashed, failures := ResumeEach(units, failures, from, all);
      KeptChain(state0, state1, State(), {}, false, {}, false, {}, false);
      if crashed { return Crashed, failures; }
      EachWorkload(ids, services, containers, units);
      return if failures == [] then Ok else Failed, failures;
    }

    /** Starts everything journalled again, and removes the journal after every restart was verified. */
    method ResumeAndRemove(place: Path, ids: seq<string>, services: seq<string>) returns (r: Outcome)
      requires Ready() && place == State().place && place in journals
      requires journals[place].Members() == Workloads(ids, services) && State().unchecked <= Workloads(ids, services)
      modifies this`running, this`trace, this`trouble, this`journals
      ensures Ready() && Progress({}, Workloads(ids, services), {}, false)
      ensures journals == old(journals) || journals == old(journals) - {place}
      ensures r.Ok? ==> Settled(State()) && journals == old(journals) - {place}
      ensures r.Failed? ==> journals == old(journals)
      ensures r.Ok? ==> forall w :: w in Workloads(ids, services) ==> ObservedRunningSince(trace, |old(trace)|, w)
      ensures !r.Crashed? ==> forall w :: w in Workloads(ids, services) ==>
                w !in State().unstarted && StartTriedSince(trace, |old(trace)|, w)
      ensures (r.Ok? && Workloads(ids, services) <= running) || trouble > old(trouble)
    {
      hide SafeTrace, Summarize, RefusedOf, Kept, StartTriedSince, ObservedRunningSince;
      var failures;
      r, failures := Resume(ids, services);
      if !r.Ok? { return; }
      ghost var state1, resumed := State(), trace;
      r := RemoveJournal(place);
      KeptChain(old(State()), state1, State(), {}, false, {}, false, {}, false);
      forall w | w in Workloads(ids, services)
        ensures StartTriedSince(trace, |old(trace)|, w)
        ensures r.Ok? ==> ObservedRunningSince(trace, |old(trace)|, w)
      {
        SinceStays(resumed, trace, |old(trace)|, w);
      }
    }

    // -------------------------------------------------------------------------------------
    // Recovery
    // -------------------------------------------------------------------------------------

    /** A run has just begun with this configuration. */
    ghost predicate Began(config: DockerConfig)
      reads this`trace
    {
      var s := State();
      && s.enabled == config.enabled && s.place == config.stagingDir && s.place in s.places
      && s.blocked == (config.enabled && s.place in s.refused) && s.stops == {}
      && s.unchecked == (if config.enabled then JournalAt(s, s.place) else {})
    }

    ghost predicate Recoverable(place: Path)
      reads this`journals
    {
      place in journals ==> RecoveryAccepts(journals[place], encodedSize)
    }

    /** Replays a journal that an interrupted run left in the staging directory. */
    method RecoverUnfinished(config: DockerConfig) returns (r: Outcome)
      requires Valid() && Began(config)
      modifies this`running, this`trace, this`trouble, this`journals
      ensures Valid() && Progress({}, JournalAt(old(State()), config.stagingDir), {}, false)
      ensures journals == old(journals) || (config.enabled && journals == old(journals) - {config.stagingDir})
      ensures !config.enabled || config.stagingDir !in old(journals) ==>
                r.Ok? && trace == old(trace) && running == old(running)
      ensures r.Ok? ==> Ready()
      ensures config.enabled && r.Ok? ==> Settled(State())
      ensures config.enabled && r.Ok? && config.stagingDir in old(journals) ==>
                && old(Recoverable(config.stagingDir))
                && forall w :: w in old(journals)[config.stagingDir].Members() ==>
                     ObservedRunningSince(trace, |old(trace)|, w)
      ensures config.enabled && r.Failed? ==> journals == old(journals) && config.stagingDir in journals
      ensures config.enabled && !old(Recoverable(config.stagingDir)) ==>
              !r.Ok? && trace == old(trace) && running == old(running)
      ensures config.enabled && r.Failed? && trouble == old(trouble) ==> !old(Recoverable(config.stagingDir))
      ensures config.enabled && trouble == old(trouble) && old(Recoverable(config.stagingDir)) ==>
                r.Ok? && running == old(running) + JournalAt(old(State()), config.stagingDir)
      ensures config.enabled && r.Failed? && old(trace) < trace ==>
                forall w :: w in JournalAt(old(State()), config.stagingDir) ==> StartTriedSince(trace, |old(trace)|, w)
    {
      hide SafeTrace, Summarize, RecoveryAccepts, StartTriedSince, ObservedRunningSince;
      var place := config.stagingDir;
      DebtsOfRun();
      if !config.enabled || place !in journals { return Ok; }
      var readable: Outcome := *;
      if !readable.Ok? {
        trouble := trouble + 1;
        return readable;
      }
      var found := journals[place];
      if !RecoveryAccepts(found, encodedSize) { return Failed; }
      r := ResumeAndRemove(place, found.active, found.services);
    }

    // -------------------------------------------------------------------------------------
    // Copying
    // -------------------------------------------------------------------------------------

    /** The slot was copied in this method call, while no more ran than when the call began. */
    twostate predicate CopiedHere(slot: Slot, source: Path)
      reads this`trace, this`running, this`trouble
    {
      && slot in State().copies
      && State().copies[slot].source == source
      && (isolated ==> State().copies[slot].running <= old(running))
      && (trouble == old(trouble) ==> State().copies[slot].running == old(running))
    }

    ghost method CopyEvent(slot: Slot, source: Path)
      requires Ready()
      modifies this`trace
      ensures Ready() && Progress({}, {}, if slot.MountSlot? then {slot.id} else {}, slot.ServiceSlot?)
      ensures var idle := old(State()).idle * OwnerOf(slot);
              State() == old(State()).(idle := idle,
                copies := old(State()).copies[slot := Copy(source, running, idle != {}, {})])
      ensures Tracked(State().copies[slot])
    {
      hide SafeTrace, Summarize, RefusedOf, EndedSince, WithoutWorkload;
      Append(CopyBegan(slot, source));
    }

    /** The other copies stay as they are, and stay tracked. */
    twostate predicate KeepsOthers(slot: Slot)
      reads this`trace, this`running
    {
      forall other :: other != slot && other in old(State()).copies ==>
        && other in State().copies
        && State().copies[other].source == old(State()).copies[other].source
        && State().copies[other].running == old(State()).copies[other].running
        && State().copies[other].checked == old(State()).copies[other].checked
        && (old(Tracked(State().copies[other])) ==> Tracked(State().copies[other]))
    }

    /** If the container was just seen not running, then copying one of its mounts leaves it at that, and
        the copy is recorded accordingly. */
    twostate predicate KeepsIdle(slot: Slot, copied: bool)
      reads this`trace
    {
      OwnerOf(slot) != {} && OwnerOf(slot) <= old(State()).idle ==>
        OwnerOf(slot) <= State().idle && (copied ==> slot in State().copies && State().copies[slot].checked)
    }

    /** One rsync call. */
    method CopyOnce(slot: Slot, source: Path) returns (r: Outcome)
      requires Ready()
      modifies this`running, this`trace, this`trouble
      ensures Ready() && Progress({}, {}, if slot.MountSlot? then {slot.id} else {}, slot.ServiceSlot?)
      ensures r.Ok? ==> CopiedHere(slot, source) && Tracked(State().copies[slot])
      ensures KeepsOthers(slot) && KeepsIdle(slot, r.Ok?)
      ensures r.Ok? || trouble > old(trouble)
    {
      hide SafeTrace, Summarize, RefusedOf, MembersOf, Tracked, Kept, SameCopies;
      ghost var ids, paths := if slot.MountSlot? then {slot.id} else {}, slot.ServiceSlot?;
      CopyEvent(slot, source);
      ghost var state1 := State();
      Outside();
      KeptChain(old(State()), state1, State(), ids, paths, {}, false, ids, paths);
      KeptEach(state1, State());
      r := *;
      if !r.Ok? { trouble := trouble + 1; }
    }

    /** A failed call is retried at most four times, only without interruption, and only if the source
        changed during the transfer; `transient` says that the last call failed for this reason. */
    method CopyPath(slot: Slot, source: Path, interruptible: bool)
        returns (r: Outcome, attempts: nat, transient: bool)
      requires Ready()
      modifies this`running, this`trace, this`trouble
      ensures Ready() && Progress({}, {}, if slot.MountSlot? then {slot.id} else {}, slot.ServiceSlot?)
      ensures attempts <= 5 && (interruptible ==> attempts <= 1) && (attempts == 0 ==> r.Failed?)
      ensures r.Failed? && transient ==> attempts == if interruptible then 1 else 5
      ensures r.Ok? ==> CopiedHere(slot, source) && Tracked(State().copies[slot])
      ensures KeepsOthers(slot) && KeepsIdle(slot, r.Ok?)
      ensures r.Ok? || trouble > old(trouble)
    {
      hide SafeTrace, Summarize, RefusedOf, MembersOf, Tracked, Kept;
      ghost var ids, paths := if slot.MountSlot? then {slot.id} else {}, slot.ServiceSlot?;
      KeptSelf(State(), ids, paths);
      attempts, transient := 0, false;
      var inspected: bool := *;
      if !inspected {
        trouble := trouble + 1;
        return Failed, attempts, transient;
      }
      while attempts < 5
        invariant attempts <= 5 && (interruptible ==> attempts == 0)
        invariant Ready() && Progress({}, {}, ids, paths)
        invariant KeepsOthers(slot) && KeepsIdle(slot, false)
        invariant if attempts > 0 then trouble > old(trouble) else trace == old(trace) && running == old(running)
      {
        attempts := attempts + 1;
        ghost var state0 := State();
        r := CopyOnce(slot, source);
        KeptChain(old(State()), state0, State(), ids, paths, ids, paths, ids, paths);
        transient := *;
        if !r.Failed? || interruptible || !transient { return; }
      }
      return Failed, attempts, transient;
    }

    twostate predicate MountsHere(config: DockerConfig, info: ContainerInfo, n: nat)
      reads this`trace, this`running, this`trouble
    {
      forall i: nat :: i < n && i < |info.mounts| && MountIsStageable(config, info.mounts[i]) ==>
        CopiedHere(MountSlot(info.id, i), info.mounts[i].source)
    }

    /** The container was just seen not running when the call began, and so were its copies made. */
    twostate predicate MountsCheckedHere(config: DockerConfig, info: ContainerInfo, n: nat)
      reads this`trace
    {
      Container(info.id) in old(State()).idle ==>
        && Container(info.id) in State().idle
        && forall i: nat :: i < n && i < |info.mounts| && MountIsStageable(config, info.mounts[i]) ==>
             MountSlot(info.id, i) in State().copies && State().copies[MountSlot(info.id, i)].checked
    }

    /** Copies every stageable mount of one container. */
    method CopyMounts(config: DockerConfig, container: ContainerInfo, interruptible: bool)
        returns (r: Outcome, staged: seq<Path>)
      requires Ready()
      modifies this`running, this`trace, this`trouble
      ensures Ready() && Progress({}, {}, {container.id}, false)
      ensures State().journals == old(State()).journals
      ensures r.Ok? ==> forall p :: p in staged <==> Stages(config, container, p)
      ensures r.Ok? ==> MountsStaged(config, container, State().copies, isolated, trouble == old(trouble), old(running))
      ensures r.Ok? && Container(container.id) in old(State()).idle ==> MountsChecked(config, container, State().copies)
      ensures r.Ok? || trouble > old(trouble) || !AbsoluteMounts(config, container)
    {
      hide SafeTrace, Summarize, RefusedOf, MountIsStageable, Kept;
      staged := [];
      KeptSelf(State(), {container.id}, false);
      for i := 0 to |container.mounts|
        invariant Ready() && Progress({}, {}, {container.id}, false)
        invariant forall p :: p in staged <==> exists k :: 0 <= k < i && container.mounts[k].source == p &&
                                                           MountIsStageable(config, container.mounts[k])
        invariant MountsHere(config, container, i) && MountsCheckedHere(config, container, i)
        invariant forall k :: 0 <= k < i && MountIsStageable(config, container.mounts[k]) ==>
                  container.mounts[k].absolute
      {
        var mount := container.mounts[i];
        if MountIsStageable(config, mount) {
          if !mount.absolute { return Failed, staged; }
          ghost var state0, id := State(), container.id;
          var attempts, transient;
          r, attempts, transient := CopyPath(MountSlot(container.id, i), mount.source, interruptible);
          KeptChain(old(State()), state0, State(), {id}, false, {id}, false, {id}, false);
          if !r.Ok? { return; }
          staged := staged + [mount.source];
        }
      }
      r := Ok;
    }

    twostate predicate PathsHere(config: DockerConfig, n: nat)
      reads this`trace, this`running, this`trouble
    {
      forall i: nat :: i < n && i < |config.servicePaths| ==>
        CopiedHere(ServiceSlot(i), config.servicePaths[i]) && Tracked(State().copies[ServiceSlot(i)])
    }

    method CopyServicePaths(config: DockerConfig, interruptible: bool) returns (r: Outcome)
      requires Ready()
      modifies this`running, this`trace, this`trouble
      ensures Ready() && Progress({}, {}, {}, true)
      ensures r.Ok? ==> PathsHere(config, |config.servicePaths|)
      ensures r.Ok? ==> PathsCopied(config, State().copies)
      ensures r.Ok? && isolated ==> PathsCopiedWithin(config, State().copies, old(running))
      ensures r.Ok? || trouble > old(trouble)
    {
      hide SafeTrace, Summarize, RefusedOf, Tracked, Kept;
      KeptSelf(State(), {}, true);
      for i := 0 to |config.servicePaths|
        invariant Ready() && Progress({}, {}, {}, true)
        invariant PathsHere(config, i)
      {
        ghost var state0 := State();
        var attempts, transient;
        r, attempts, transient := CopyPath(ServiceSlot(i), config.servicePaths[i], interruptible);
        KeptChain(old(State()), state0, State(), {}, true, {}, true, {}, true);
        if !r.Ok? { return; }
      }
      r := Ok;
    }

    /** Copies one container that the audit found stopped, after checking that it still is. */
    method StageOneStopped(config: DockerConfig, info: ContainerInfo) returns (r: Outcome, staged: seq<Path>)
      requires Ready()
      modifies this`running, this`trace, this`trouble
      ensures Ready() && Progress({}, {}, {info.id}, false)
      ensures r.Ok? ==> forall p :: p in staged <==> Stages(config, info, p)
      ensures r.Ok? ==> MountsStaged(config, info, State().copies, isolated, trouble == old(trouble), old(running))
      ensures r.Ok? ==> MountsChecked(config, info, State().copies)
      ensures r.Ok? || trouble > old(trouble) || !AbsoluteMounts(config, info) || Container(info.id) in old(running)
    {
      hide SafeTrace, Summarize, RefusedOf, Kept, Stages, MountsStaged, MountsChecked, AbsoluteMounts;
      staged := [];
      var check := Check(Container(info.id));
      ghost var state1, running1, trouble1 := State(), running, trouble;
      KeptWider(old(State()), state1, {}, {info.id}, false);
      if check.CheckCrashed? { return Crashed, staged; }
      if check.NoAnswer? || check.active { return Failed, staged; }
      r, staged := CopyMounts(config, info, false);
      KeptChain(old(State()), state1, State(), {}, false, {info.id}, false, {info.id}, false);
      if r.Ok? {
        MountsStagedWider(config, info, State().copies, isolated, trouble == trouble1, running1,
                          trouble == old(trouble), old(running));
      }
    }

    method StageStopped(config: DockerConfig, selected: seq<ContainerAudit>) returns (r: Outcome, staged: seq<Path>)
      requires Ready() && DistinctIds(selected)
      modifies this`running, this`trace, this`trouble
      ensures Ready() && Progress({}, {}, StoppedIds(selected), false)
      ensures r.Ok? ==> forall p :: p in staged <==> StagedStopped(config, selected, p)
      ensures r.Ok? ==> forall c :: c in selected && !c.running ==>
                && MountsStaged(config, c.info, State().copies, isolated, trouble == old(trouble), old(running))
                && MountsChecked(config, c.info, State().copies)
      ensures r.Ok? || trouble > old(trouble) || !AllAbsolute(config, selected) || !AuditCovers(selected, old(running))
    {
      hide SafeTrace, Summarize, RefusedOf, Kept, Stages, MountsStaged, MountsChecked, AbsoluteMounts;
      ghost var idle := StoppedIds(selected);
      KeptSelf(State(), idle, false);
      staged := [];
      for i := 0 to |selected|
        invariant Ready() && Progress({}, {}, idle, false)
        invariant forall p :: p in staged <==> StagedStopped(config, selected[..i], p)
        invariant forall k :: 0 <= k < i && !selected[k].running ==>
                    && MountsStaged(config, selected[k].info, State().copies, isolated,
                                    trouble == old(trouble), old(running))
                    && MountsChecked(config, selected[k].info, State().copies)
      {
        var info := selected[i].info;
        assert selected[..i + 1] == selected[..i] + [selected[i]];
        forall p ensures StagedStopped(config, selected[..i + 1], p) <==>
                         StagedStopped(config, selected[..i], p) || (!selected[i].running && Stages(config, info, p))
        {
          StagedStoppedSnoc(config, selected[..i], selected[i], p);
        }
        if !selected[i].running {
          ghost var state0, calm0, running0, trouble0 := State(), trouble == old(trouble), running, trouble;
          assert info.id in idle;
          var copied;
          r, copied := StageOneStopped(config, info);
          KeptChain(old(State()), state0, State(), idle, false, {info.id}, false, idle, false);
          if !r.Ok? { return; }
          staged := staged + copied;
          MountsStagedWider(config, info, State().copies, isolated, trouble == trouble0, running0,
                            trouble == old(trouble), old(running));
          KeptCopies(state0, State(), {info.id}, false);
          forall k | 0 <= k < i && !selected[k].running
            ensures MountsStaged(config, selected[k].info, State().copies, isolated,
                                 trouble == old(trouble), old(running))
            ensures MountsChecked(config, selected[k].info, State().copies)
          {
            MountsStagedKept(config, selected[k].info, state0.copies, State().copies, {info.id}, false,
                             isolated, calm0, trouble == old(trouble), old(running));
          }
        }
      }
      assert selected[..|selected|] == selected;
      r := Ok;
    }

    /** First copy and dump of one running container. */
    method StageOneOnline(config: DockerConfig, info: ContainerInfo) returns (r: Outcome)
      requires Ready()
      modifies this`running, this`trace, this`trouble
      ensures Ready() && Progress({}, {}, {info.id}, false)
      ensures r.Ok? ==> HasCopies(config, info)
      ensures r.Ok? || trouble > old(trouble) || !AbsoluteMounts(config, info)
    {
      hide SafeTrace, Summarize, RefusedOf, Kept, AbsoluteMounts, MountsStaged;
      var copied;
      r, copied := CopyMounts(config, info, false);
      if r.Ok? {
        MountsStagedWider(config, info, State().copies, isolated, trouble == old(trouble), old(running),
                          false, old(running));
        HasCopiesOf(config, info, State().copies, isolated, false, old(running));
      }
      if !r.Ok? || !info.postgres { return; }
      ghost var state1 := State();
      Outside();
      KeptChain(old(State()), state1, State(), {info.id}, false, {}, false, {info.id}, false);
      KeptCopies(state1, State(), {}, false);
      MountsStagedKept(config, info, state1.copies, State().copies, {}, false, false, false, false, {});
      r := *;
      if !r.Ok? { trouble := trouble + 1; }
    }

    /** Every stageable mount of the container has been copied in this run. */
    ghost predicate HasCopies(config: DockerConfig, info: ContainerInfo)
      reads this`trace
    {
      MountsStaged(config, info, State().copies, false, false, {})
    }

    lemma HasCopiesOf(config: DockerConfig, info: ContainerInfo, copies: map<Slot, Copy>, isolated: bool, calm: bool,
                      ran: set<Workload>)
      requires copies == State().copies && MountsStaged(config, info, copies, isolated, calm, ran)
      ensures HasCopies(config, info)
    {
      hide MountsCopied, Summarize;
    }

    method StageOnline(config: DockerConfig, selected: seq<ContainerAudit>) returns (r: Outcome)
      requires Ready() && DistinctIds(selected)
      modifies this`running, this`trace, this`trouble
      ensures Ready() && Progress({}, {}, FinalIds(selected, false), false)
      ensures r.Ok? ==> forall c :: c in selected && c.running ==> HasCopies(config, c.info)
      ensures r.Ok? || trouble > old(trouble) || !AllAbsolute(config, selected)
    {
      hide SafeTrace, Summarize, RefusedOf, Kept, AbsoluteMounts, MountsStaged;
      ghost var busy := FinalIds(selected, false);
      KeptSelf(State(), busy, false);
      for i := 0 to |selected|
        invariant Ready() && Progress({}, {}, busy, false)
        invariant forall k :: 0 <= k < i && selected[k].running ==> HasCopies(config, selected[k].info)
      {
        if selected[i].running {
          ghost var state0, id := State(), selected[i].info.id;
          assert id in busy;
          r := StageOneOnline(config, selected[i].info);
          KeptChain(old(State()), state0, State(), busy, false, {id}, false, busy, false);
          if !r.Ok? { return; }
          KeptCopies(state0, State(), {id}, false);
          forall k | 0 <= k < i && selected[k].running ensures HasCopies(config, selected[k].info) {
            MountsStagedKept(config, selected[k].info, state0.copies, State().copies, {id}, false, false, false,
              false, {});
          }
        }
      }
      r := Ok;
    }

    method FindActiveServices(config: DockerConfig) returns (r: Outcome, active: seq<string>)
      requires Ready()
      modifies this`running, this`trace, this`trouble
      ensures Ready() && Progress({}, {}, {}, false) && KeepsTrack()
      ensures forall s :: s in active ==> s in config.stopServices && Service(s) in State().seen
      ensures r.Ok? && (isolated || trouble == old(trouble)) ==>
                forall s :: s in config.stopServices && s !in active ==> Service(s) !in running
      ensures r.Ok? || trouble > old(trouble)
      ensures trouble == old(trouble) ==> forall s :: s in active ==> Service(s) in running
    {
      hide SafeTrace, Summarize, RefusedOf, Tracked;
      active := [];
      for i := 0 to |config.stopServices|
        invariant Ready() && Progress({}, {}, {}, false) && KeepsTrack()
        invariant forall s :: s in active ==> s in config.stopServices && Service(s) in State().seen
        invariant trouble == old(trouble) ==> forall s :: s in active ==> Service(s) in running
        invariant isolated || trouble == old(trouble) ==>
                  forall k :: 0 <= k < i && config.stopServices[k] !in active ==>
                    Service(config.stopServices[k]) !in running
      {
        var service := config.stopServices[i];
        var check := Check(Service(service));
        if check.CheckCrashed? { return Crashed, active; }
        if check.NoAnswer? { return Failed, active; }
        if check.active { active := active + [service]; }
      }
      r := Ok;
    }

    /** What the copies before any stop leave behind, when `before` ran at their beginning: every slot has
        a copy, which for stopped containers can be the last one; `services` are
        the configured services found active. */
    ghost predicate StagedBeforeStop(config: DockerConfig, selected: seq<ContainerAudit>, before: set<Workload>,
                                     calm: bool, stopped: seq<Path>, services: seq<string>)
      reads this`trace, this`running
    {
      var copies := State().copies;
      && (forall p :: p in stopped <==> StagedStopped(config, selected, p))
      && (forall s :: s in services ==> Service(s) in State().seen)
      && (forall c :: c in selected ==> HasCopies(config, c.info))
      && (forall c :: c in selected && !c.running ==> MountsStaged(config, c.info, copies, isolated, calm, before))
      && (forall c :: c in selected && !c.running ==> MountsChecked(config, c.info, copies))
      && PathsCopied(config, copies)
      && (isolated ==> PathsCopiedWithin(config, copies, before))
      && (forall i: nat :: i < |config.servicePaths| ==> Tracked(copies[ServiceSlot(i)]))
      && (isolated ==> running <= before)
      && (isolated ==> forall s :: s in config.stopServices && s !in services ==> Service(s) !in running)
    }

    /** The mounts before any stop. */
    method StageMounts(config: DockerConfig, selected: seq<ContainerAudit>) returns (r: Outcome, stopped: seq<Path>)
      requires Ready() && DistinctIds(selected)
      modifies this`running, this`trace, this`trouble
      ensures Ready() && Progress({}, {}, StoppedIds(selected) + FinalIds(selected, false), false)
      ensures r.Ok? ==> forall p :: p in stopped <==> StagedStopped(config, selected, p)
      ensures r.Ok? ==> forall c :: c in selected ==> HasCopies(config, c.info)
      ensures r.Ok? ==> forall c :: c in selected && !c.running ==>
                && MountsStaged(config, c.info, State().copies, isolated, trouble == old(trouble), old(running))
                && MountsChecked(config, c.info, State().copies)
      ensures r.Ok? || trouble > old(trouble) || !AllAbsolute(config, selected) || !AuditCovers(selected, old(running))
    {
      hide SafeTrace, Summarize, RefusedOf, Kept, StagedStopped, MountsStaged, AllAbsolute, AuditCovers, HasCopies,
           MountsChecked;
      ghost var idle, busy := StoppedIds(selected), FinalIds(selected, false);
      r, stopped := StageStopped(config, selected);
      ghost var state1, calm1 := State(), trouble == old(trouble);
      KeptWider(old(State()), state1, idle, idle + busy, false);
      if !r.Ok? { return; }
      r := StageOnline(config, selected);
      KeptChain(old(State()), state1, State(), idle + busy, false, busy, false, idle + busy, false);
      if !r.Ok? { return; }
      KeptCopies(state1, State(), busy, false);
      forall c | c in selected && !c.running
        ensures MountsStaged(config, c.info, State().copies, isolated, trouble == old(trouble), old(running))
        ensures MountsChecked(config, c.info, State().copies)
      {
        StoppedIsNotFinal(selected, c);
        MountsStagedKept(config, c.info, state1.copies, State().copies, busy, false,
                         isolated, calm1, trouble == old(trouble), old(running));
      }
      forall c | c in selected && !c.running ensures HasCopies(config, c.info) {
        HasCopiesOf(config, c.info, State().copies, isolated, trouble == old(trouble), old(running));
      }
    }

    method StageBeforeStop(config: DockerConfig, selected: seq<ContainerAudit>)
        returns (r: Outcome, stopped: seq<Path>, services: seq<string>)
      requires Ready() && DistinctIds(selected)
      modifies this`running, this`trace, this`trouble
      ensures Ready() && Progress({}, {}, StoppedIds(selected) + FinalIds(selected, false), true)
      ensures r.Ok? ==> StagedBeforeStop(config, selected, old(running), trouble == old(trouble), stopped, services)
      ensures r.Ok? || trouble > old(trouble) || !AllAbsolute(config, selected) || !AuditCovers(selected, old(running))
      ensures forall s :: s in services ==> s in config.stopServices && Service(s) in State().seen
      ensures trouble == old(trouble) ==> forall s :: s in services ==> Service(s) in running
      ensures r.Ok? && trouble == old(trouble) ==>
                forall s :: s in config.stopServices && s !in services ==> Service(s) !in running
    {
      hide SafeTrace, Summarize, RefusedOf, Kept, StagedStopped, MountsStaged, AllAbsolute, Tracked, AuditCovers,
           MountsChecked;
      ghost var ids := StoppedIds(selected) + FinalIds(selected, false);
      services := [];
      r, stopped := StageMounts(config, selected);
      ghost var state1, calm1, running1 := State(), trouble == old(trouble), running;
      KeptWider(old(State()), state1, ids, ids, true);
      if !r.Ok? { return; }
      r := CopyServicePaths(config, false);
      ghost var state2 := State();
      KeptChain(old(State()), state1, state2, ids, true, {}, true, ids, true);
      if !r.Ok? { return; }
      if isolated { PathsCopiedWider(config, state2.copies, running1, old(running)); }
      r, services := FindActiveServices(config);
      KeptChain(old(State()), state2, State(), ids, true, {}, false, ids, true);
      if !r.Ok? { return; }
      KeptCopies(state2, State(), {}, false);
      PathCopiesKept(config, state2.copies, State().copies, {});
      KeptChain(state1, state2, State(), {}, true, {}, false, {}, true);
      KeptCopies(state1, State(), {}, true);
      forall c | c in selected ensures HasCopies(config, c.info) {
        MountsStagedKept(config, c.info, state1.copies, State().copies, {}, true, false, false, false, {});
      }
      forall c | c in selected && !c.running
        ensures MountsStaged(config, c.info, State().copies, isolated, trouble == old(trouble), old(running))
        ensures MountsChecked(config, c.info, State().copies)
      {
        MountsStagedKept(config, c.info, state1.copies, State().copies, {}, true,
                         isolated, calm1, trouble == old(trouble), old(running));
      }
    }

    // -------------------------------------------------------------------------------------
    // Copying while stopped
    // -------------------------------------------------------------------------------------

    /** Stops services first and then containers, and gives up at the first failure. */
    method StopAll(ids: seq<string>, services: seq<string>) returns (r: Outcome)
      requires Ready() && forall w :: w in Workloads(ids, services) ==> Listed(w)
      modifies this`running, this`trace, this`trouble
      ensures Ready() && Progress(Workloads(ids, services), {}, {}, false)
      ensures State().journals == old(State()).journals
      ensures r.Ok? ==> Workloads(ids, services) <= State().stops
      ensures r.Ok? && (isolated || trouble == old(trouble)) ==> running !! Workloads(ids, services)
      ensures r.Ok? || trouble > old(trouble)
    {
      hide SafeTrace, Summarize, RefusedOf;
      ghost var all := Workloads(ids, services);
      var units: seq<Workload> := seq(|services|, i requires 0 <= i < |services| => Service(services[i]));
      var containers: seq<Workload> := seq(|ids|, i requires 0 <= i < |ids| => Container(ids[i]));
      r := StopEach(units, all);
      if !r.Ok? { return; }
      r := StopEach(containers, all);
      EachWorkload(ids, services, containers, units);
    }

    method StopEach(workloads: seq<Workload>, ghost stopped: set<Workload>) returns (r: Outcome)
      requires Ready() && forall w :: w in workloads ==> Listed(w) && w in stopped
      modifies this`running, this`trace, this`trouble
      ensures Ready() && Progress(stopped, {}, {}, false)
      ensures State().journals == old(State()).journals
      ensures r.Ok? ==> forall w :: w in workloads ==> w in State().stops
      ensures r.Ok? && (isolated || trouble == old(trouble)) ==> forall w :: w in workloads ==> w !in running
      ensures r.Ok? || trouble > old(trouble)
    {
      hide SafeTrace, Summarize, RefusedOf, Kept;
      KeptSelf(State(), {}, false);
      for i := 0 to |workloads|
        invariant Ready() && Progress(stopped, {}, {}, false)
        invariant State().journals == old(State()).journals
        invariant forall k :: 0 <= k < i ==> workloads[k] in State().stops
        invariant isolated || trouble == old(trouble) ==> forall k :: 0 <= k < i ==> workloads[k] !in running
      {
        ghost var state0 := State();
        assert workloads[i] in workloads;
        r := Stop(workloads[i]);
        KeptChain(old(State()), state0, State(), {}, false, {}, false, {}, false);
        if !r.Ok? { return; }
      }
      r := Ok;
    }

    /** The final copies: containers that ran, or all selected ones if a service was stopped. */
    method CopyQuiesced(config: DockerConfig, selected: seq<ContainerAudit>, anyService: bool)
        returns (r: Outcome, copied: seq<Path>)
      requires Ready() && DistinctIds(selected)
      modifies this`running, this`trace, this`trouble
      ensures Ready() && Progress({}, {}, FinalIds(selected, anyService), false)
      ensures State().journals == old(State()).journals
      ensures r.Ok? ==> forall p :: p in copied <==> CopiedFinally(config, selected, anyService, p)
      ensures r.Ok? ==> forall c :: c in selected && (c.running || anyService) ==>
                MountsStaged(config, c.info, State().copies, isolated, trouble == old(trouble), old(running))
      ensures r.Ok? || trouble > old(trouble) || !AllAbsolute(config, selected)
    {
      hide SafeTrace, Summarize, RefusedOf, Kept, Stages, MountsStaged, AbsoluteMounts;
      ghost var busy := FinalIds(selected, anyService);
      KeptSelf(State(), busy, false);
      copied := [];
      for i := 0 to |selected|
        invariant Ready() && Progress({}, {}, busy, false)
        invariant State().journals == old(State()).journals
        invariant forall p :: p in copied <==> CopiedFinally(config, selected[..i], anyService, p)
        invariant forall k :: 0 <= k < i && (selected[k].running || anyService) ==>
                    MountsStaged(config, selected[k].info, State().copies, isolated,
                                 trouble == old(trouble), old(running))
      {
        var info, again := selected[i].info, selected[i].running || anyService;
        assert selected[..i + 1] == selected[..i] + [selected[i]];
        forall p ensures CopiedFinally(config, selected[..i + 1], anyService, p) <==>
                         CopiedFinally(config, selected[..i], anyService, p) || (again && Stages(config, info, p))
        {
          CopiedFinallySnoc(config, selected[..i], selected[i], anyService, p);
        }
        if again {
          ghost var state0, calm0, running0, trouble0 := State(), trouble == old(trouble), running, trouble;
          assert info.id in busy;
          var more;
          r, more := CopyMounts(config, info, true);
          KeptChain(old(State()), state0, State(), busy, false, {info.id}, false, busy, false);
          if !r.Ok? { return; }
          copied := copied + more;
          MountsStagedWider(config, info, State().copies, isolated, trouble == trouble0, running0,
                            trouble == old(trouble), old(running));
          KeptCopies(state0, State(), {info.id}, false);
          forall k | 0 <= k < i && (selected[k].running || anyService)
            ensures MountsStaged(config, selected[k].info, State().copies, isolated,
                                 trouble == old(trouble), old(running))
          {
            MountsStagedKept(config, selected[k].info, state0.copies, State().copies, {info.id}, false,
                             isolated, calm0, trouble == old(trouble), old(running));
          }
        }
      }
      assert selected[..|selected|] == selected;
      r := Ok;
    }

    /** The second copies: the mounts and then the service paths. */
    method CopyAgain(config: DockerConfig, selected: seq<ContainerAudit>, anyService: bool)
        returns (r: Outcome, final: seq<Path>)
      requires Ready() && DistinctIds(selected)
      modifies this`running, this`trace, this`trouble
      ensures Ready() && Progress({}, {}, FinalIds(selected, anyService), true)
      ensures State().journals == old(State()).journals
      ensures r.Ok? ==> forall p :: p in final <==>
                CopiedFinally(config, selected, anyService, p) || p in config.servicePaths
      ensures r.Ok? ==> forall c :: c in selected && (c.running || anyService) ==>
                MountsStaged(config, c.info, State().copies, isolated, trouble == old(trouble), old(running))
      ensures r.Ok? ==> PathsCopied(config, State().copies)
      ensures r.Ok? && isolated ==> PathsCopiedWithin(config, State().copies, old(running))
      ensures r.Ok? || trouble > old(trouble) || !AllAbsolute(config, selected)
    {
      hide SafeTrace, Summarize, RefusedOf, Kept, CopiedFinally, AllAbsolute, MountsStaged;
      ghost var busy := FinalIds(selected, anyService);
      r, final := CopyQuiesced(config, selected, anyService);
      ghost var state1, calm1 := State(), trouble == old(trouble);
      KeptWider(old(State()), state1, busy, busy, true);
      if !r.Ok? { return; }
      r := CopyServicePaths(config, true);
      KeptChain(old(State()), state1, State(), busy, true, {}, true, busy, true);
      if !r.Ok? { return; }
      final := final + config.servicePaths;
      KeptCopies(state1, State(), {}, true);
      forall c | c in selected && (c.running || anyService)
        ensures MountsStaged(config, c.info, State().copies, isolated, trouble == old(trouble), old(running))
      {
        MountsStagedKept(config, c.info, state1.copies, State().copies, {}, true,
                         isolated, calm1, trouble == old(trouble), old(running));
      }
    }

    /** Stops everything and notes in the journal that it has. */
    method StopAndJournal(place: Path, ids: seq<string>, services: seq<string>) returns (r: Outcome)
      requires Ready() && place == State().place
      requires place in journals && journals[place] == Journal(ids, services, Stopping)
      modifies this`running, this`trace, this`trouble, this`journals
      ensures Ready() && Progress(Workloads(ids, services), {}, {}, false)
      ensures SameElsewhere(old(journals), journals, place)
      ensures place in journals && journals[place].Members() == Workloads(ids, services)
      ensures r.Ok? ==> journals[place] == Journal(ids, services, Quiesced) && Workloads(ids, services) <= State().stops
      ensures r.Ok? && isolated ==> running <= old(running) - Workloads(ids, services)
      ensures r.Ok? && trouble == old(trouble) ==> running == old(running) - Workloads(ids, services)
      ensures r.Ok? || trouble > old(trouble)
    {
      hide SafeTrace, Summarize, RefusedOf, Kept;
      JournalSeen(place);
      r := StopAll(ids, services);
      ghost var state1 := State();
      if !r.Ok? { return; }
      r := WriteJournal(place, Journal(ids, services, Quiesced));
      KeptChain(old(State()), state1, State(), {}, false, {}, false, {}, false);
    }

    /** The part of a snapshot that runs with workloads stopped. Whatever happens in it, the caller
        resumes afterwards, unless the machine crashed. */
    method CopyWhileStopped(config: DockerConfig, selected: seq<ContainerAudit>, ids: seq<string>,
                            services: seq<string>, staged: seq<Path>)
        returns (r: Outcome, completed: seq<Path>)
      requires Ready() && DistinctIds(selected) && config.stagingDir == State().place
      requires config.stagingDir in journals && journals[config.stagingDir] == Journal(ids, services, Stopping)
      modifies this`running, this`trace, this`trouble, this`journals
      ensures Ready() && Progress(Workloads(ids, services), {}, FinalIds(selected, services != []), true)
      ensures SameElsewhere(old(journals), journals, config.stagingDir)
      ensures config.stagingDir in journals && journals[config.stagingDir].Members() == Workloads(ids, services)
      ensures r.Ok? ==> journals[config.stagingDir] == Journal(ids, services, Quiesced)
      ensures r.Ok? ==> Workloads(ids, services) <= State().stops
      ensures r.Ok? ==> forall p :: p in completed <==>
                p in staged || CopiedFinally(config, selected, services != [], p) || p in config.servicePaths
      ensures r.Ok? ==> forall c :: c in selected && (c.running || services != []) ==>
                MountsStaged(config, c.info, State().copies, isolated, trouble == old(trouble),
                             old(running) - Workloads(ids, services))
      ensures r.Ok? ==> PathsCopied(config, State().copies)
      ensures r.Ok? && isolated ==> PathsCopiedWithin(config, State().copies, old(running) - Workloads(ids, services))
      ensures r.Ok? || trouble > old(trouble) || !AllAbsolute(config, selected)
    {
      hide SafeTrace, Summarize, RefusedOf, Kept, CopiedFinally, AllAbsolute, MountsStaged;
      ghost var all, busy := Workloads(ids, services), FinalIds(selected, services != []);
      completed := [];
      r := StopAndJournal(config.stagingDir, ids, services);
      ghost var state1, running1, trouble1 := State(), running, trouble;
      KeptWider(old(State()), state1, {}, busy, true);
      if !r.Ok? { return; }
      var final;
      r, final := CopyAgain(config, selected, services != []);
      KeptChain(old(State()), state1, State(), busy, true, busy, true, busy, true);
      if !r.Ok? { return; }
      completed := staged + final;
      forall c | c in selected && (c.running || services != [])
        ensures MountsStaged(config, c.info, State().copies, isolated, trouble == old(trouble), old(running) - all)
      {
        MountsStagedWider(config, c.info, State().copies, isolated, trouble == trouble1, running1,
                          trouble == old(trouble), old(running) - all);
      }
    }

    // -------------------------------------------------------------------------------------
    // One snapshot
    // -------------------------------------------------------------------------------------

    /** Sorts the staged sources and removes repetitions. */
    method SortedSources(sources: seq<Path>) returns (r: seq<Path>)
      ensures StrictlySorted(r, PathLe)
      ensures forall p :: p in r <==> p in sources
    {
      PathOrder();
      var sorted := Sort(sources, PathLe);
      assert forall p :: p in sorted <==> p in multiset(sorted);
      assert forall p :: p in sources <==> p in multiset(sources);
      r := DedupSorted(sorted, PathLe);
    }

    /** Writes the journal and copies with everything stopped. `r` is the outcome of the journal; without
        a journal nothing was stopped. */
    method JournalAndCopy(config: DockerConfig, selected: seq<ContainerAudit>, ids: seq<string>, services: seq<string>,
                          stopped: seq<Path>)
        returns (r: Outcome, copied: Outcome, completed: seq<Path>)
      requires Ready() && NothingOwedAt(State(), State().place)
      requires DistinctIds(selected) && config.stagingDir == State().place && State().place in State().places
      requires Workloads(ids, services) <= State().seen
      modifies this`running, this`trace, this`trouble, this`journals
      ensures Ready() && Progress(Workloads(ids, services), {}, FinalIds(selected, services != []), true)
      ensures SameElsewhere(old(journals), journals, config.stagingDir)
      ensures r.Failed? ==> State().unstarted <= old(State()).unstarted
      ensures r.Ok? ==>
              config.stagingDir in journals && journals[config.stagingDir].Members() == Workloads(ids, services)
      ensures r.Ok? && copied.Ok? ==> Workloads(ids, services) <= State().stops
      ensures r.Ok? && copied.Ok? ==> forall p :: p in completed <==>
                p in stopped || CopiedFinally(config, selected, services != [], p) || p in config.servicePaths
      ensures r.Ok? && copied.Ok? ==> forall c :: c in selected && (c.running || services != []) ==>
                MountsStaged(config, c.info, State().copies, isolated, trouble == old(trouble),
                             old(running) - Workloads(ids, services))
      ensures r.Ok? && copied.Ok? ==> PathsCopied(config, State().copies)
      ensures r.Ok? && copied.Ok? && isolated ==>
                PathsCopiedWithin(config, State().copies, old(running) - Workloads(ids, services))
      ensures (r.Ok? && copied.Ok?) || trouble > old(trouble) || !AllAbsolute(config, selected)
    {
      hide SafeTrace, Summarize, RefusedOf, Kept, CopiedFinally, AllAbsolute, MountsStaged, PathsCopied;
      ghost var all, busy := Workloads(ids, services), FinalIds(selected, services != []);
      copied, completed := Failed, [];
      r := WriteJournal(config.stagingDir, Journal(ids, services, Stopping));
      ghost var state1, running1, trouble1 := State(), running, trouble;
      KeptWider(old(State()), state1, {}, busy, true);
      if !r.Ok? { return; }
      copied, completed := CopyWhileStopped(config, selected, ids, services, stopped);
      KeptChain(old(State()), state1, State(), busy, true, busy, true, busy, true);
      if !copied.Ok? { return; }
      forall c | c in selected && (c.running || services != [])
        ensures MountsStaged(config, c.info, State().copies, isolated, trouble == old(trouble), old(running) - all)
      {
        MountsStagedWider(config, c.info, State().copies, isolated, trouble == trouble1, running1 - all,
                          trouble == old(trouble), old(running) - all);
      }
      if isolated { PathsCopiedWider(config, State().copies, running1 - all, old(running) - all); }
    }

    lemma PathsCopiedWider(config: DockerConfig, copies: map<Slot, Copy>, narrow: set<Workload>, wide: set<Workload>)
      requires PathsCopiedWithin(config, copies, narrow) && narrow <= wide
      ensures PathsCopiedWithin(config, copies, wide)
    {
    }

    /** The interrupted part of a snapshot: journal, stop, copy, resume, and remove the journal only
        after every restart was verified. `before` ran when the snapshot began. */
    method StopCopyResume(config: DockerConfig, selected: seq<ContainerAudit>, ids: seq<string>, services: seq<string>,
                          stopped: seq<Path>, ghost before: set<Workload>, ghost calm: bool)
        returns (r: Outcome, sources: seq<Path>)
      requires Ready() && Settled(State()) && config.stagingDir == State().place && State().place in State().places
      requires DistinctIds(selected) && ids == RunningIds(selected) && (ids != [] || services != [])
      requires forall c :: c in selected && c.running ==> Container(c.info.id) in State().seen
      requires StagedBeforeStop(config, selected, before, calm, stopped, services) && (calm ==> running == before)
      modifies this`running, this`trace, this`trouble, this`journals
      ensures Ready() && Continues() && SameElsewhere(old(journals), journals, config.stagingDir)
      ensures forall d :: d in State().owed ==> d in old(State()).owed || d.0 == config.stagingDir
      ensures r.Ok? ==> Settled(State())
      ensures State().stops <= old(State()).stops + Workloads(ids, services)
      ensures r.Ok? ==> Workloads(ids, services) <= State().stops
      ensures r.Ok? ==> StrictlySorted(sources, PathLe) && StagesExactly(config, selected, sources)
      ensures r.Ok? ==>
                SnapshotStaged(config, selected, services, before, State().copies, isolated,
                               calm && trouble == old(trouble))
      ensures !r.Crashed? ==> State().unstarted <= old(State()).unstarted
      ensures trouble == old(trouble) && AllAbsolute(config, selected) ==>
                r.Ok? && running == old(running) + Workloads(ids, services)
    {
      hide SafeTrace, Summarize, RefusedOf, Kept, Stages, StrictlySorted, StagedStopped, CopiedFinally, AllAbsolute;
      hide RunningIds, MountsStaged, MountsChecked, StagesExactly, SnapshotStaged, Tracked, PathsCopied,
           PathsCopiedWithin;
      hide ObservedRunningSince, StartTriedSince, SameElsewhere, MembersOf, RefusedOf;
      ghost var all, busy := Workloads(ids, services), FinalIds(selected, services != []);
      ghost var state0, running0 := State(), running;
      sources := [];
      MembersSeen(selected, ids, services);
      var copied, completed;
      r, copied, completed := JournalAndCopy(config, selected, ids, services, stopped);
      if !r.Ok? { return; }
      if copied.Crashed? { return Crashed, []; }
      ghost var state1, running1, calm1, journals1 := State(), running, trouble == old(trouble), journals;
      r := ResumeAndRemove(config.stagingDir, ids, services);
      SameElsewhereMinus(old(journals), journals1, journals, config.stagingDir);
      if !r.Ok? { return; }
      if !copied.Ok? { return Failed, []; }
      if trouble == old(trouble) { StoppedAndStarted(running0, running1, running, all); }
      sources := SortedSources(completed);
      QuiescedSources(config, selected, stopped, services != [], completed, sources);
      KeptChain(state0, state1, State(), busy, true, {}, false, busy, true);
      KeptCopies(state0, State(), busy, true);
      KeptCopies(state1, State(), {}, false);
      FinallyStaged(config, selected, ids, services, before, running0, state0.copies, state1.copies, State().copies,
                    calm, calm1, calm && trouble == old(trouble));
    }

    lemma StoppedAndStarted(before: set<Workload>, middle: set<Workload>, after: set<Workload>, quieted: set<Workload>)
      requires middle <= before && forall w :: w in before && w !in quieted ==> w in middle
      requires middle <= after <= middle + quieted && quieted <= after
      ensures after == before + quieted
    {
    }

    lemma MembersSeen(selected: seq<ContainerAudit>, ids: seq<string>, services: seq<string>)
      requires ids == RunningIds(selected)
      requires forall c :: c in selected && c.running ==> Container(c.info.id) in State().seen
      requires forall s :: s in services ==> Service(s) in State().seen
      ensures Workloads(ids, services) <= State().seen
    {
      hide Summarize;
    }

    /** The slots after the last copies: containers that were stopped for this hold copies made while
        the journalled workloads were down, the others the copies of the beginning. */
    lemma FinallyStaged(config: DockerConfig, selected: seq<ContainerAudit>, ids: seq<string>, services: seq<string>,
                        before: set<Workload>, running1: set<Workload>, first: map<Slot, Copy>, second: map<Slot, Copy>,
                        last: map<Slot, Copy>, calm0: bool, calm1: bool, calm: bool)
      requires ids == RunningIds(selected) && (ids != [] || services != []) && DistinctIds(selected)
      requires forall c :: c in selected && !c.running ==> MountsStaged(config, c.info, first, isolated, calm0, before)
      requires forall c :: c in selected && !c.running ==> MountsChecked(config, c.info, first)
      requires forall c :: c in selected && (c.running || services != []) ==>
                 MountsStaged(config, c.info, second, isolated, calm1, running1 - Workloads(ids, services))
      requires PathsCopied(config, second)
      requires isolated ==> PathsCopiedWithin(config, second, running1 - Workloads(ids, services)) && running1 <= before
      requires isolated ==> forall s :: s in config.stopServices && s !in services ==> Service(s) !in running1
      requires calm ==> calm0 && calm1 && running1 == before
      requires SameCopies(first, last, FinalIds(selected, services != []), true) && SameCopies(second, last, {}, false)
      ensures SnapshotStaged(config, selected, services, before, last, isolated, calm)
    {
      hide MountsCopied, MountsCopiedWithin, MountsCopiedDuring, MountsChecked, PathsCopied, PathsCopiedWithin,
           SameCopies;
      ghost var all := Workloads(ids, services);
      PathCopiesKept(config, second, last, {});
      forall c | c in selected
        ensures MountsStaged(config, c.info, last, isolated, calm, RanDuring(c, services != [], all, before))
        ensures !c.running && services == [] ==> MountsChecked(config, c.info, last)
      {
        if c.running || services != [] {
          MountsStagedKept(config, c.info, second, last, {}, false, isolated, calm1, calm1, running1 - all);
          MountsStagedWider(config, c.info, last, isolated, calm1, running1 - all, calm, before - all);
        } else {
          StoppedIsNotFinal(selected, c);
          MountsStagedKept(config, c.info, first, last, FinalIds(selected, false), true, isolated, calm0, calm, before);
        }
      }
      if isolated {
        PathsFinallyQuiet(config, services, running1, all, last);
        PathsCopiedWider(config, last, running1 - all, before - all);
      }
    }

    lemma PathsFinallyQuiet(config: DockerConfig, services: seq<string>, running1: set<Workload>, all: set<Workload>,
                            last: map<Slot, Copy>)
      requires PathsCopied(config, last) && PathsCopiedWithin(config, last, running1 - all)
      requires forall s :: s in config.stopServices && s !in services ==> Service(s) !in running1
      requires forall s :: s in services ==> Service(s) in all
      ensures forall i: nat :: i < |config.servicePaths| ==>
                ServiceSlot(i) in last && PathIsQuiet(config, last[ServiceSlot(i)])
    {
    }

    lemma QuiescedSources(config: DockerConfig, selected: seq<ContainerAudit>, stopped: seq<Path>, anyService: bool,
                          completed: seq<Path>, sources: seq<Path>)
      requires forall p :: p in stopped <==> StagedStopped(config, selected, p)
      requires forall p :: p in completed <==>
                 p in stopped || CopiedFinally(config, selected, anyService, p) || p in config.servicePaths
      requires forall p :: p in sources <==> p in completed
      ensures StagesExactly(config, selected, sources)
    {
      hide Stages;
      forall p ensures p in stopped || CopiedFinally(config, selected, anyService, p) <==>
                       exists c :: c in selected && Stages(config, c.info, p)
      {
        if c :| c in selected && Stages(config, c.info, p) {
          var i :| 0 <= i < |selected| && selected[i] == c;
          assert StagedStopped(config, selected, p) || CopiedFinally(config, selected, anyService, p);
        }
      }
    }

    lemma OnlineSources(config: DockerConfig, selected: seq<ContainerAudit>, stopped: seq<Path>, sources: seq<Path>)
      requires RunningIds(selected) == []
      requires forall p :: p in stopped <==> StagedStopped(config, selected, p)
      requires forall p :: p in sources <==> p in stopped + config.servicePaths
      ensures StagesExactly(config, selected, sources)
    {
      hide Stages, RunningIds;
      forall p ensures p in stopped <==> exists c :: c in selected && Stages(config, c.info, p) {
        if c :| c in selected && Stages(config, c.info, p) {
          var i :| 0 <= i < |selected| && selected[i] == c;
          NoneRunning(selected, c);
        }
      }
    }

    /** When nothing has to be stopped, the copies of the beginning are the last ones. A service path is
        then quiet exactly if no configured service ended on its own after its copy began. */
    lemma OnlineStaged(config: DockerConfig, selected: seq<ContainerAudit>, before: set<Workload>, calm: bool,
                       stopped: seq<Path>)
      requires RunningIds(selected) == [] && StagedBeforeStop(config, selected, before, calm, stopped, [])
      ensures SnapshotStaged(config, selected, [], before, State().copies, isolated, calm)
    {
      hide MountsCopied, MountsCopiedWithin, MountsCopiedDuring, MountsChecked, Summarize, RunningIds;
      var copies := State().copies;
      assert before - Workloads([], []) == before;
      forall c | c in selected
        ensures MountsStaged(config, c.info, copies, isolated, calm, RanDuring(c, false, Workloads([], []), before))
      {
        NoneRunning(selected, c);
      }
    }

    ghost predicate InRunOf(config: DockerConfig)
      reads this`trace
    {
      State().enabled == config.enabled && State().place == config.stagingDir && State().place in State().places
    }

    /** Copies online, and unless nothing is active quiesces for a second copy. There must be no older
        journal: callers recover first. */
    method PrepareSnapshot(config: DockerConfig, audit: seq<ContainerAudit>)
        returns (r: Outcome, snapshot: Option<seq<Path>>, ghost services: seq<string>)
      requires Ready() && InRunOf(config) && (config.enabled ==> Settled(State()))
      requires DistinctIds(audit) && forall c :: c in audit && c.running ==> Container(c.info.id) in State().seen
      modifies this`running, this`trace, this`trouble, this`journals
      ensures Ready() && Continues() && SameElsewhere(old(journals), journals, config.stagingDir)
      ensures forall d :: d in State().owed ==> d in old(State()).owed || d.0 == config.stagingDir
      ensures !config.enabled ==> r.Ok? && snapshot.None? && trace == old(trace) && journals == old(journals)
      ensures var quieted := Workloads(RunningIds(SelectedOf(config, audit)), services);
              && State().stops <= old(State()).stops + quieted
              && (r.Ok? && config.enabled ==> quieted <= State().stops)
      ensures config.enabled && r.Ok? ==> Settled(State())
      ensures config.enabled && r.Ok? ==>
                (snapshot.None? <==> SelectedOf(config, audit) == [] && config.servicePaths == [])
      ensures r.Ok? && snapshot.Some? ==>
                && StrictlySorted(snapshot.value, PathLe)
                && StagesExactly(config, SelectedOf(config, audit), snapshot.value)
      ensures r.Ok? && snapshot.Some? ==>
                SnapshotStaged(config, SelectedOf(config, audit), services, old(running), State().copies,
                               isolated, trouble == old(trouble))
      ensures r.Ok? && snapshot.Some? ==>
                && AllCopied(config, SelectedOf(config, audit), State().copies)
                && StoppedChecked(config, SelectedOf(config, audit), services, State().copies)
      ensures r.Ok? && snapshot.Some? && isolated && AuditCovers(audit, old(running)) ==>
                SnapshotQuiet(config, SelectedOf(config, audit), services, State().copies)
      ensures r.Ok? && snapshot.Some? && isolated ==>
                PathsQuiet(config, SelectedOf(config, audit), services, State().copies)
      ensures r.Ok? && snapshot.Some? && trouble == old(trouble) && AuditDescribes(audit, old(running)) ==>
                SnapshotQuietExactly(config, SelectedOf(config, audit), services, State().copies)
      ensures forall s :: s in services ==> s in config.stopServices && Service(s) in State().seen
      ensures trouble == old(trouble) && r.Ok? && snapshot.Some? ==>
                forall s :: s in config.stopServices ==> (s in services <==> Service(s) in old(running))
      ensures !r.Crashed? ==> State().unstarted <= old(State()).unstarted
      ensures trouble == old(trouble) && AuditDescribes(audit, old(running)) && AllAbsolute(config, audit) ==>
                r.Ok? && running == old(running)
    {
      hide SafeTrace, Summarize, RefusedOf, Kept, Stages, SelectedOf, IsSelected, StrictlySorted, StagedStopped;
      hide MountsStaged, StagesExactly, SnapshotStaged, Tracked, RunningIds, AbsoluteMounts, AuditDescribes,
           AuditCovers;
      hide AllCopied, StoppedChecked, SnapshotQuiet, PathsQuiet, SnapshotQuietExactly, MembersOf;
      r, snapshot, services := Ok, None, [];
      if !config.enabled { return; }
      var roomy: bool := *;
      if !roomy {
        trouble := trouble + 1;
        return Failed, None, [];
      }
      var selected := SelectedOf(config, audit);
      if selected == [] && config.servicePaths == [] { return; }
      SelectedIdsDistinct(config, audit);
      SelectedStaysExact(config, audit);
      var stopped, active;
      r, stopped, active := StageBeforeStop(config, selected);
      services := active;
      if !r.Ok? { return; }
      ghost var calm := trouble == old(trouble);
      var ids, sources := RunningIds(selected), [];
      if ids == [] && active == [] {
        sources := SortedSources(stopped + config.servicePaths);
        OnlineSources(config, selected, stopped, sources);
        OnlineStaged(config, selected, old(running), calm, stopped);
        SnapshotIsQuiet(config, audit, active, old(running), State().copies, isolated, calm);
        return Ok, Some(sources), active;
      }
      ghost var quieted := Workloads(ids, active);
      assert calm && AuditDescribes(audit, old(running)) ==> running + quieted == running;
      r, sources := StopCopyResume(config, selected, ids, active, stopped, old(running), calm);
      if !r.Ok? { return; }
      snapshot := Some(sources);
      SnapshotIsQuiet(config, audit, active, old(running), State().copies, isolated, trouble == old(trouble));
    }

    lemma SelectedStaysExact(config: DockerConfig, audit: seq<ContainerAudit>)
      ensures AllAbsolute(config, audit) ==> AllAbsolute(config, SelectedOf(config, audit))
      ensures AuditDescribes(audit, running) ==> AuditCovers(SelectedOf(config, audit), running)
      ensures AuditDescribes(audit, running) ==>
                forall id :: id in RunningIds(SelectedOf(config, audit)) ==> Container(id) in running
    {
      hide AbsoluteMounts, IsSelected;
    }

    // -------------------------------------------------------------------------------------
    // Whole runs
    // -------------------------------------------------------------------------------------

    /** Lists the containers with their state at one moment. */
    method Audit(config: DockerConfig, containers: seq<ContainerInfo>) returns (r: Outcome, audit: seq<ContainerAudit>)
      requires Ready()
      modifies this`running, this`trace, this`trouble
      ensures Ready() && Progress({}, {}, {}, false)
      ensures forall c :: c in audit && c.running ==> Container(c.info.id) in State().seen
      ensures AuditDescribes(audit, running)
      ensures r.Ok? || trouble > old(trouble)
      ensures r.Ok? && config.enabled ==>
                |audit| == |containers| && forall i :: 0 <= i < |audit| ==> audit[i].info == containers[i]
      ensures r.Ok? && !config.enabled ==> audit == [] && trace == old(trace)
    {
      hide SafeTrace, Summarize, RefusedOf;
      audit := [];
      if !config.enabled { return Ok, []; }
      Outside();
      r := *;
      if !r.Ok? {
        trouble := trouble + 1;
        return;
      }
      ghost var audited, troubled := running, trouble;
      for i := 0 to |containers|
        invariant running == audited && trouble == troubled
        invariant Ready() && Progress({}, {}, {}, false)
        invariant |audit| == i && forall k :: 0 <= k < i ==> audit[k].info == containers[k]
        invariant AuditDescribes(audit, running)
        invariant forall c :: c in audit && c.running ==> Container(c.info.id) in State().seen
      {
        var active := Container(containers[i].id) in running;
        Append(Observed(Container(containers[i].id), active));
        audit := audit + [ContainerAudit(containers[i], active)];
      }
    }

    method BeginRun(config: DockerConfig)
      requires Valid()
      modifies this`trace
      ensures Valid() && Began(config) && trace == old(trace) + [RunBegan(config.enabled, config.stagingDir)]
      ensures State() == Apply(old(State()), RunBegan(config.enabled, config.stagingDir))
    {
      hide SafeTrace, Summarize, RefusedOf;
      Append(RunBegan(config.enabled, config.stagingDir));
    }

    ghost predicate DistinctContainers(containers: seq<ContainerInfo>) {
      forall i, j :: 0 <= i < j < |containers| ==> containers[i].id != containers[j].id
    }

    /** Everything before the archive: recover, audit and stage, in this order. */
    method StageRun(config: DockerConfig, containers: seq<ContainerInfo>)
        returns (r: Outcome, snapshot: Option<seq<Path>>, ghost audit: seq<ContainerAudit>, ghost services: seq<string>)
      requires Valid() && Began(config) && DistinctContainers(containers)
      modifies this`running, this`trace, this`trouble, this`journals
      ensures Valid() && Continues() && SameElsewhere(old(journals), journals, config.stagingDir)
      ensures r.Ok? ==> Ready()
      ensures var quieted := Workloads(RunningIds(SelectedOf(config, audit)), services);
              State().stops <= quieted && (r.Ok? && config.enabled ==> quieted <= State().stops)
      ensures !config.enabled ==> journals == old(journals) && snapshot == None
      ensures r.Ok? && config.enabled ==> Settled(State())
      ensures config.enabled && !old(Recoverable(config.stagingDir)) ==> !r.Ok? && trace == old(trace)
      ensures r.Ok? && config.enabled ==>
                |audit| == |containers| && forall i :: 0 <= i < |audit| ==> audit[i].info == containers[i]
      ensures r.Ok? && config.enabled ==>
                (snapshot.None? <==> SelectedOf(config, audit) == [] && config.servicePaths == [])
      ensures r.Ok? && snapshot.Some? ==>
                && StrictlySorted(snapshot.value, PathLe)
                && StagesExactly(config, SelectedOf(config, audit), snapshot.value)
                && AllCopied(config, SelectedOf(config, audit), State().copies)
                && StoppedChecked(config, SelectedOf(config, audit), services, State().copies)
      ensures forall s :: s in services ==> s in config.stopServices && Service(s) in State().seen
      ensures trouble == old(trouble) && r.Ok? && snapshot.Some? ==>
                forall s :: s in config.stopServices ==>
                  (s in services <==> Service(s) in old(running) + JournalAt(old(State()), config.stagingDir))
      ensures r.Ok? && snapshot.Some? && isolated ==>
                SnapshotQuiet(config, SelectedOf(config, audit), services, State().copies)
      ensures r.Ok? && snapshot.Some? && trouble == old(trouble) ==>
                SnapshotQuietExactly(config, SelectedOf(config, audit), services, State().copies)
      ensures !r.Crashed? ==> State().unstarted <= old(State()).unstarted
      ensures trouble == old(trouble) && (forall c :: c in containers ==> AbsoluteMounts(config, c)) &&
              (config.enabled ==> old(Recoverable(config.stagingDir))) ==>
                && r.Ok?
                && running == old(running) + if config.enabled then JournalAt(old(State()), config.stagingDir) else {}
    {
      hide SafeTrace, Summarize, RecoveryAccepts, AbsoluteMounts, StagesExactly, SelectedOf, StrictlySorted, IsSelected;
      hide SnapshotStaged, AllCopied, StoppedChecked, SnapshotQuiet, PathsQuiet, SnapshotQuietExactly, AuditDescribes,
           AuditCovers, Kept, SameElsewhere;
      hide ObservedRunningSince, StartTriedSince, SafeStep, RunningIds, MembersOf, RefusedOf, DistinctContainers;
      snapshot, audit, services := None, [], [];
      r := RecoverUnfinished(config);
      ghost var journals1 := journals;
      SameElsewhereMinus(old(journals), old(journals), journals1, config.stagingDir);
      if !r.Ok? { return; }
      var found;
      r, found := Audit(config, containers);
      audit := found;
      if !r.Ok? { return; }
      AuditOf(config, containers, found);
      DescribesCovers(found, running);
      r, snapshot, services := PrepareSnapshot(config, found);
      SameElsewhereChain(old(journals), journals1, journals, config.stagingDir);
    }

    lemma AuditOf(config: DockerConfig, containers: seq<ContainerInfo>, audit: seq<ContainerAudit>)
      requires DistinctContainers(containers)
      requires |audit| == 0 || |audit| == |containers|
      requires forall i :: 0 <= i < |audit| ==> audit[i].info == containers[i]
      ensures DistinctIds(audit)
      ensures (forall c :: c in containers ==> AbsoluteMounts(config, c)) ==> AllAbsolute(config, audit)
    {
      hide AbsoluteMounts;
      forall c | c in audit ensures c.info in containers {
        var i :| 0 <= i < |audit| && audit[i] == c;
        assert containers[i] == c.info;
      }
    }

    /** The order of a backup: recover, audit, stage, and only then create the archive. */
    method Backup(config: DockerConfig, containers: seq<ContainerInfo>, cancelled: bool)
        returns (r: Outcome, snapshot: Option<seq<Path>>, ghost audit: seq<ContainerAudit>, ghost services: seq<string>)
      requires Valid() && DistinctContainers(containers)
      modifies this`running, this`trace, this`trouble, this`journals
      ensures Valid() && old(trace) + [RunBegan(config.enabled, config.stagingDir)] <= trace
      ensures old(trouble) <= trouble && State().places == old(State()).places + {config.stagingDir}
      ensures SameElsewhere(old(journals), journals, config.stagingDir)
      ensures !config.enabled ==> journals == old(journals) && snapshot == None
      ensures r.Ok? ==> !cancelled && RunToArchive(old(trace), trace, config.enabled, config.stagingDir)
      ensures r.Ok? && config.enabled ==> Settled(State())
      ensures r.Ok? ==> forall w :: StoppedAndUnverified(trace, w) ==>
                Overlooks(old(State()), config.enabled, config.stagingDir, w)
      ensures config.enabled && !old(Recoverable(config.stagingDir)) ==>
                !r.Ok? && trace == old(trace) + [RunBegan(config.enabled, config.stagingDir)]
      ensures r.Ok? && config.enabled ==>
                |audit| == |containers| && forall i :: 0 <= i < |audit| ==> audit[i].info == containers[i]
      ensures r.Ok? && config.enabled ==>
                (snapshot.None? <==> SelectedOf(config, audit) == [] && config.servicePaths == [])
      ensures r.Ok? && snapshot.Some? ==>
                && StrictlySorted(snapshot.value, PathLe)
                && StagesExactly(config, SelectedOf(config, audit), snapshot.value)
                && AllCopied(config, SelectedOf(config, audit), State().copies)
                && StoppedChecked(config, SelectedOf(config, audit), services, State().copies)
      ensures r.Ok? ==> forall s :: s in services ==> s in config.stopServices && Service(s) in State().seen
      ensures trouble == old(trouble) && r.Ok? && snapshot.Some? ==>
                forall s :: s in config.stopServices ==>
                  (s in services <==> Service(s) in old(running) + JournalAt(old(State()), config.stagingDir))
      ensures r.Ok? && snapshot.Some? && isolated ==>
                SnapshotQuiet(config, SelectedOf(config, audit), services, State().copies)
      ensures r.Ok? && snapshot.Some? && trouble == old(trouble) ==>
                SnapshotQuietExactly(config, SelectedOf(config, audit), services, State().copies)
      ensures r.Ok? && config.enabled ==> StagedAsConfigured(config, audit, snapshot, State().copies)
      ensures StopsOnlyConfigured(config, audit, trace, |old(trace)|)
      ensures r.Ok? && config.enabled ==> StopsAllConfigured(config, audit, trace, |old(trace)|)
      ensures !r.Crashed? ==> State().unstarted <= old(State()).unstarted
      ensures trouble == old(trouble) && !cancelled && (config.enabled ==> old(Recoverable(config.stagingDir))) &&
              SourcesAreAbsolute(config, containers) ==>
                && r.Ok?
                && running == old(running) + if config.enabled then JournalAt(old(State()), config.stagingDir) else {}
    {
      hide SafeTrace, Summarize, RecoveryAccepts, AbsoluteMounts, StagesExactly, SelectedOf, StrictlySorted, IsSelected;
      hide AllCopied, StoppedChecked, SnapshotQuiet, SnapshotQuietExactly, StoppedWithout, InRun, SameElsewhere,
           Overlooks;
      hide StagedAsConfigured, StopsOnlyConfigured, StopsAllConfigured, RunningIds, SourcesAreAbsolute;
      BeginRun(config);
      AbsoluteSources(config, containers);
      r, snapshot, audit, services := StageRun(config, containers);
      CountedRun(old(trace), trace, config.enabled, config.stagingDir);
      StopsAreConfigured(config, old(trace), audit, services, false);
      if r.Ok? && config.enabled { SelectedIsStaged(config, audit, snapshot, State().copies); }
      if !r.Ok? { return; }
      if cancelled { return Failed, snapshot, audit, services; }
      Append(ArchiveCreated);
      r := *;
      if !r.Ok? { trouble := trouble + 1; }
      CountedRun(old(trace), trace, config.enabled, config.stagingDir);
      StopsAreConfigured(config, old(trace), audit, services, config.enabled);
      VerifiedAtArchive(old(trace), trace, config.enabled, config.stagingDir);
    }

    lemma StopsAreConfigured(config: DockerConfig, before: seq<Event>, audit: seq<ContainerAudit>,
                             services: seq<string>, all: bool)
      requires InRun(before, trace, config.enabled, config.stagingDir)
      requires State().stops <= Workloads(RunningIds(SelectedOf(config, audit)), services)
      requires all ==> Workloads(RunningIds(SelectedOf(config, audit)), services) <= State().stops
      requires forall s :: s in services ==> s in config.stopServices
      ensures StopsOnlyConfigured(config, audit, trace, |before|)
      ensures all ==> StopsAllConfigured(config, audit, trace, |before|)
    {
      hide InRun, StopTriedSince, Summarize, SelectedOf, RunningIds, AskedToStop;
      forall w ensures w in State().stops <==> StopTriedSince(trace, |before|, w) {
        StopsOfRun(before, trace, config.enabled, config.stagingDir, w);
      }
      forall id ensures Container(id) in Workloads(RunningIds(SelectedOf(config, audit)), services) <==>
                        exists c :: c in audit && c.info.id == id && AskedToStop(config, c)
      {
        QuietedIsConfigured(config, audit, services, id);
      }
    }

    lemma VerifiedAtArchive(before: seq<Event>, after: seq<Event>, enabled: bool, place: Path)
      requires RunToArchive(before, after, enabled, place)
      ensures forall w :: StoppedAndUnverified(after, w) ==> Overlooks(Summarize(before), enabled, place, w)
    {
      forall w | StoppedAndUnverified(after, w) ensures Overlooks(Summarize(before), enabled, place, w) {
        if enabled && !Overlooks(Summarize(before), enabled, place, w) { NotOverlooked(before, after, place, w); }
      }
    }

    /** What happens between backups, such as a reboot. */
    method Elsewhere()
      requires Valid()
      modifies this`running, this`trace
      ensures Valid() && old(trace) <= trace && State().places == old(State()).places
      ensures State().journals == old(State()).journals && State().owed == old(State()).owed
    {
      hide SafeTrace, Summarize, RefusedOf;
      var next: set<Workload> := *;
      Append(Changed(next));
      running := next;
    }

    /** Any number of backups, each of which may fail or crash anywhere, with arbitrary configurations
        and arbitrary events in between: the history stays safe throughout. */
    method ManyBackups(runs: seq<(DockerConfig, seq<ContainerInfo>, bool)>)
      requires Valid() && forall i :: 0 <= i < |runs| ==> DistinctContainers(runs[i].1)
      modifies this`running, this`trace, this`trouble, this`journals
      ensures Valid() && old(trace) <= trace && old(trouble) <= trouble
      ensures State().places == old(State()).places + set i | 0 <= i < |runs| :: runs[i].0.stagingDir
    {
      hide SafeTrace, Summarize, RefusedOf;
      for i := 0 to |runs|
        invariant Valid() && old(trace) <= trace && old(trouble) <= trouble
        invariant State().places == old(State()).places + set k | 0 <= k < i :: runs[k].0.stagingDir
      {
        Elsewhere();
        var outcome, snapshot;
        ghost var audit, services;
        outcome, snapshot, audit, services := Backup(runs[i].0, runs[i].1, runs[i].2);
      }
    }

    /** So if all of them share one staging directory, no enabled one archives while anything is stopped. */
    lemma OneProfileIsSafe(place: Path, i: nat, w: Workload)
      requires Valid() && State().places <= {place}
      requires i < |trace| && trace[i] == ArchiveCreated && Summarize(trace[..i]).enabled
      ensures !StoppedAndUnverified(trace[..i], w)
    {
      FixedStagingDirectory(trace, place, i, w);
    }
  }

  ghost predicate StagedStopped(config: DockerConfig, selected: seq<ContainerAudit>, source: Path) {
    exists i :: 0 <= i < |selected| && !selected[i].running && Stages(config, selected[i].info, source)
  }

  ghost predicate CopiedFinally(config: DockerConfig, selected: seq<ContainerAudit>, anyService: bool, source: Path) {
    exists i :: 0 <= i < |selected| && (selected[i].running || anyService) && Stages(config, selected[i].info, source)
  }

  lemma StagedStoppedSnoc(config: DockerConfig, selected: seq<ContainerAudit>, last: ContainerAudit, source: Path)
    ensures StagedStopped(config, selected + [last], source) <==>
            StagedStopped(config, selected, source) || (!last.running && Stages(config, last.info, source))
  {
    hide Stages;
    var longer := selected + [last];
    if i :| 0 <= i < |selected| && !selected[i].running && Stages(config, selected[i].info, source) {
      assert longer[i] == selected[i];
    }
    assert longer[|selected|] == last;
  }

  lemma CopiedFinallySnoc(config: DockerConfig, selected: seq<ContainerAudit>, last: ContainerAudit,
                          anyService: bool, source: Path)
    ensures CopiedFinally(config, selected + [last], anyService, source) <==>
            CopiedFinally(config, selected, anyService, source) ||
            ((last.running || anyService) && Stages(config, last.info, source))
  {
    hide Stages;
    var longer := selected + [last];
    if i :| 0 <= i < |selected| && (selected[i].running || anyService) && Stages(config, selected[i].info, source) {
      assert longer[i] == selected[i];
    }
    assert longer[|selected|] == last;
  }
}
