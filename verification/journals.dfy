/** Recovery journals, and which of them recovery accepts. */
module Journals {
  import opened QuiesceTrace
  import opened Containers
  import opened Decimals

  datatype Phase = Stopping | Quiesced | OtherPhase

  datatype Journal = Journal(active: seq<string>, services: seq<string>, phase: Phase) {
    ghost function Members(): set<Workload> {
      Workloads(active, services)
    }
  }

  const MAX_JOURNAL_ENTRIES := 10_000
  const MAX_JOURNAL_BYTES := 1024 * 1024

  predicate IsAlphanumeric(c: char) {
    '0' <= c <= '9' || 'a' <= c <= 'z' || 'A' <= c <= 'Z'
  }

  /** By code points: digits, and the letters of both cases. */
  lemma AlphanumericIs(c: char)
    ensures IsAlphanumeric(c) <==> 48 <= c as int <= 57 || 65 <= c as int <= 90 || 97 <= c as int <= 122
  {
  }

  predicate ValidId(id: string) {
    && 0 < |id| <= 64
    && (forall i :: 0 <= i < |id| ==> IsAlphanumeric(id[i]) || id[i] == '-' || id[i] == '_')
    && IsAlphanumeric(id[0])
    && IsAlphanumeric(id[|id| - 1])
  }

  predicate ValidServiceName(name: string) {
    && |name| <= 256
    && |name| > |".service"|
    && name[|name| - |".service"|..] == ".service"
    && (forall i :: 0 <= i < |name| - |".service"| ==> IsAlphanumeric(name[i]) || name[i] in "-_.@:")
    && IsAlphanumeric(name[0])
  }

  predicate AllDistinct(s: seq<string>) {
    forall i, j :: 0 <= i < j < |s| ==> s[i] != s[j]
  }

  predicate RecoveryAccepts(journal: Journal, encodedSize: Journal -> nat) {
    && encodedSize(journal) <= MAX_JOURNAL_BYTES
    && |journal.active| <= MAX_JOURNAL_ENTRIES
    && |journal.services| <= MAX_JOURNAL_ENTRIES
    && journal.phase != OtherPhase
    && (forall i :: 0 <= i < |journal.active| ==> ValidId(journal.active[i]))
    && AllDistinct(journal.active)
    && (forall i :: 0 <= i < |journal.services| ==> ValidServiceName(journal.services[i]))
    && AllDistinct(journal.services)
  }

  lemma DistinctCons(x: string, s: seq<string>)
    requires AllDistinct(s) && x !in s
    ensures AllDistinct([x] + s)
  {
  }

  lemma {:induction false} JournaledIds(config: DockerConfig, audit: seq<ContainerAudit>)
    requires DistinctIds(audit)
    ensures var ids := RunningIds(SelectedOf(config, audit));
            AllDistinct(ids) && forall id :: id in ids ==> exists i :: 0 <= i < |audit| && audit[i].info.id == id
  {
    hide IsSelected;
    if audit != [] {
      var rest := audit[1..];
      JournaledIds(config, rest);
      var more := RunningIds(SelectedOf(config, rest));
      var id := audit[0].info.id;
      forall other | other in more ensures other != id && exists i :: 0 <= i < |audit| && audit[i].info.id == other {
        var k :| 0 <= k < |rest| && rest[k].info.id == other;
        assert audit[k + 1].info.id == other;
      }
      DistinctCons(id, more);
      var selected := [audit[0]] + SelectedOf(config, rest);
      assert selected[1..] == SelectedOf(config, rest);
      assert audit[0].info.id == id;
      assert RunningIds(selected) == if audit[0].running then [id] + more else more;
      assert SelectedOf(config, audit) == if IsSelected(config, audit[0]) then selected else SelectedOf(config, rest);
    }
  }

  /** `prepare_snapshot` does not check the bounds that recovery enforces, so what it journals can be
      recovered exactly when the journal stays within them. */
  lemma JournalRecoverableIffBounded(config: DockerConfig, audit: seq<ContainerAudit>, services: seq<string>,
                                     phase: Phase, encodedSize: Journal -> nat)
    requires DistinctIds(audit) && forall c :: c in audit ==> ValidId(c.info.id)
    requires |services| <= 10_000 && AllDistinct(services)
    requires forall s :: s in services ==> ValidServiceName(s)
    requires phase != OtherPhase
    ensures var journal := Journal(RunningIds(SelectedOf(config, audit)), services, phase);
            RecoveryAccepts(journal, encodedSize) <==>
            |journal.active| <= 10_000 && encodedSize(journal) <= 1_048_576
  {
    hide ValidId, ValidServiceName, AllDistinct;
    JournaledIds(config, audit);
    var ids := RunningIds(SelectedOf(config, audit));
    forall k | 0 <= k < |ids| ensures ValidId(ids[k]) {
      assert ids[k] in ids;
      var i :| 0 <= i < |audit| && audit[i].info.id == ids[k];
      assert audit[i] in audit;
    }
  }

  /** Docker's own container ids, 64 hexadecimal digits, pass the check. */
  lemma DockerIdIsValid(id: string)
    requires |id| == 64 && forall i :: 0 <= i < 64 ==> '0' <= id[i] <= '9' || 'a' <= id[i] <= 'f'
    ensures ValidId(id)
  {
  }

  /** Everything recovery asks of a journal. */
  lemma RecoveryAcceptsIff(journal: Journal, encodedSize: Journal -> nat)
    ensures RecoveryAccepts(journal, encodedSize) <==>
            && encodedSize(journal) <= 1_048_576
            && |journal.active| <= 10_000 && |journal.services| <= 10_000
            && (journal.phase == Stopping || journal.phase == Quiesced)
            && (forall id :: id in journal.active ==> ValidId(id))
            && (forall s :: s in journal.services ==> ValidServiceName(s))
            && (forall i, j :: 0 <= i < j < |journal.active| ==> journal.active[i] != journal.active[j])
            && (forall i, j :: 0 <= i < j < |journal.services| ==> journal.services[i] != journal.services[j])
  {
    hide ValidId, ValidServiceName;
    forall i | 0 <= i < |journal.active| ensures journal.active[i] in journal.active {}
    forall i | 0 <= i < |journal.services| ensures journal.services[i] in journal.services {}
  }

  /** What the checks of names are for: no option, path or pattern passes as a name. */
  lemma IdsThatPass()
    ensures ValidId("web-1_a") && !ValidId("") && !ValidId("-web") && !ValidId("web-") && !ValidId("a/b")
    ensures forall id :: |id| > 64 ==> !ValidId(id)
  {
    assert "a/b"[1] == '/';
  }

  /** A unit name passes exactly if it is a stem with the suffix, and what the stem may be. */
  lemma ServicesThatPass(name: string)
    ensures ValidServiceName(name) <==>
            exists stem ::
              && name == stem + ".service" && 1 <= |stem| <= 248 && IsAlphanumeric(stem[0])
              && forall c :: c in stem ==> IsAlphanumeric(c) || c in "-_.@:"
  {
    hide IsAlphanumeric;
    if ValidServiceName(name) {
      var stem := name[..|name| - 8];
      assert name == stem + ".service";
      forall c | c in stem ensures IsAlphanumeric(c) || c in "-_.@:" {
        var i :| 0 <= i < |stem| && stem[i] == c;
        assert name[i] == c;
      }
    }
    if stem :| && name == stem + ".service" && 1 <= |stem| <= 248 && IsAlphanumeric(stem[0])
               && forall c :: c in stem ==> IsAlphanumeric(c) || c in "-_.@:" {
      assert name[|stem|..] == ".service";
      forall i | 0 <= i < |stem| ensures name[i] == stem[i] && stem[i] in stem {}
    }
  }

  /** Containers numbered from zero, all running, each with one mount. */
  function Numbered(n: nat): seq<ContainerAudit> {
    seq(n, i requires 0 <= i < n => ContainerAudit(ContainerInfo(Decimal(i), "", false, [Mount(["srv"], true)]), true))
  }

  lemma {:induction false} AllRunIds(config: DockerConfig, audit: seq<ContainerAudit>)
    requires forall c :: c in audit ==> c.running && IsSelected(config, c)
    ensures SelectedOf(config, audit) == audit && |RunningIds(audit)| == |audit|
  {
    hide IsSelected;
    if audit != [] {
      assert forall c :: c in audit[1..] ==> c in audit;
      assert audit[0] in audit && audit == [audit[0]] + audit[1..];
      AllRunIds(config, audit[1..]);
    }
  }

  lemma NumberedIds(n: nat)
    requires n <= 100_000
    ensures DistinctIds(Numbered(n)) && forall c :: c in Numbered(n) ==> ValidId(c.info.id)
  {
    var audit := Numbered(n);
    assert Power10(5) == 100_000;
    forall i, j | 0 <= i < j < n ensures audit[i].info.id != audit[j].info.id {
      if Decimal(i) == Decimal(j) { DecimalInjective(i, j); }
    }
    forall i | 0 <= i < n ensures ValidId(audit[i].info.id) { DecimalLength(i, 5); }
  }

  /** More than 10,000 running containers are journalled, and recovery refuses that journal. */
  lemma OversizedJournalIsRefused(config: DockerConfig, encodedSize: Journal -> nat)
    requires config.stopAllStateful && config.stageMounts == []
    ensures var audit := Numbered(10_001);
            && DistinctIds(audit) && (forall c :: c in audit ==> ValidId(c.info.id))
            && !RecoveryAccepts(Journal(RunningIds(SelectedOf(config, audit)), [], Quiesced), encodedSize)
  {
    var audit := Numbered(10_001);
    NumberedIds(10_001);
    forall c | c in audit ensures c.running && IsSelected(config, c) {
      assert MountIsStageable(config, c.info.mounts[0]);
    }
    AllRunIds(config, audit);
  }
}
