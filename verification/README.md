# Verified model of Boxup

Boxup is a front end to Borg. This project models the three parts of it that decide whether data
survives, and proves what they promise:

- **Quiescing workloads around a backup.** Before a backup, Boxup copies mounts online, writes a
  journal, stops services and containers, copies again, starts everything it stopped and drops the
  journal only after every workload was seen running. A command can fail and the machine can crash
  between any two steps; the next backup begins by replaying the journal.
- **Restoring.** Selections are normalized and checked, a manifest is built from the live listing, the
  archive is extracted into staging and compared with the manifest, and only then published: into a new
  directory, by exchanging each selected root at its original path, or by a recursive merge into `/`.
- **The index.** A cache of archive listings that must equal a full rebuild after any history of
  refreshes, with a full-text search and LIKE queries that must equal plain scans.

Around them it covers what the staging directory holds after a run, which sources and exclusions an
archive request carries, and the backup duration estimate.

## Layout

| file | models |
|---|---|
| `ordering.dfy`, `paths.dfy`, `decimals.dfy` | sorting; paths as strings and as components; printed numbers |
| `selection.dfy`, `protected.dfy` | minimal selections, the three selectors, protected paths |
| `planning.dfy`, `extraction.dfy` | the live manifest and what extraction delivers |
| `filetree.dfy`, `verification.dfy` | file trees; the exact comparison of an extracted tree |
| `publication.dfy`, `merge.dfy`, `restore.dfy`, `destructive.dfy` | the three publications and the restore drivers |
| `quiesce_trace.dfy`, `containers.dfy`, `journals.dfy` | safe histories of a backup host; containers, slots and quiet copies; recovery journals |
| `quiesce.dfy`, `quiet_examples.dfy` | the Docker manager; runs that leave a copy which is not quiet |
| `staging.dfy`, `archive_request.dfy` | the Docker staging directory; the archive request |
| `like.dfy`, `index_tables.dfy`, `index_refresh.dfy`, `search.dfy` | LIKE patterns, index tables and triggers, refreshes, queries |
| `estimate.dfy` | the duration estimate |

## How the system is modelled

- Archive paths are strings with `/` between components; `Paths.Split` connects them with component
  paths, and "at or below" is proved to be component prefix.
- File trees are values of a datatype, looked up without following links. One opaque number stands for
  the owner, mode and times of a directory.
- Failures of system calls come from an oracle (`ioFails`) or are arbitrary choices; where they are
  arbitrary, a ghost counter (`trouble`) records them, so that contracts can also say that a run without
  trouble succeeds. A crash is a return from the middle of a method with the state as it is.
- The backup host keeps a ghost history of everything that happened to it
  (`Quiesce.DockerManager.trace`), from which follows what runs, which journal lies in which staging
  directory, what was stopped and not seen running since, and what ran when the last copy into each
  directory began. Every method keeps the history safe in the sense of `QuiesceTrace.SafeTrace`, and the
  lemmas of `QuiesceTrace` say what every safe history guarantees. `Valid()` is that invariant together
  with the agreement of the history, the running workloads and the journals on disk.
- Journals are indexed by the Docker staging directory that holds them, since every run looks in the
  directory of its own configuration only.
- The directory of a mount is quiet if the last copy into it began while no selected container ran that
  mounts something at, below or above its source. The directory of a service path is quiet if the last
  copy into it began while no configured service was active; that no selected container ran either is a
  statement of its own (`Containers.PathsWithoutContainers`).
- SQLite is modelled by its documented contract: a transaction is a copy of the tables that replaces
  them when it commits; cascading deletes and triggers act row by row. The case folds of `LIKE` and of
  the trigram tokenizer are parameters.

## Findings

- `docs/RESTORE.md` says a selected path is replaced exactly. The code refuses an existing target that is
  not a directory (src/restore.rs:399-403), so a single file cannot be replaced:
  `Publication.ExistingTargetAccepted` gives the exact condition, `Publication.ReplacingAFileIsRefused`
  an instance.
- A listing from the index can show paths that a live listing does not, because SQLite's `LIKE` ignores
  ASCII case. `LikePatterns.CachedListingFoldsCase`: the two agree on every path if and only if the
  prefix contains no ASCII letter; `LikePatterns.CachedListingShowsVariant` is an instance.
- The roots of an original-path restore are computed after the state directory and before the restore
  staging directory is created. If the selection and the staging directory then share a missing ancestor,
  the root is that ancestor, creating staging creates it too, and the exchange fails because one end lies
  inside the other. `Publication.RootHoldsStagingIff` is exact, `Publication.RootMayHoldStaging` an instance,
  and without faults `DestructiveRestore.RestoreOriginal` completes if and only if no selected path is of
  this kind. `Publication.MissingBeforehand` tells it from the file system at the beginning: a missing
  ancestor counts unless it is also one of the state directory. So a state directory beside the staging
  directory makes such a restore succeed (`Publication.StateDirectoryMayMakeRoom`).
- `prepare_snapshot` does not check the bounds that recovery enforces on journals.
  `Journals.JournalRecoverableIffBounded`: with Docker's and the configuration's identifiers, a journal can
  be recovered if and only if it lists at most 10,000 containers and takes at most 1 MiB.
  `Journals.OversizedJournalIsRefused` is an instance.
- An archive can be created while a workload is stopped and unverified if and only if the run has Docker
  handling disabled, or its own staging directory holds no journal, or one that recovery accepts and that
  does not list the workload (`QuiesceTrace.ArchiveWhileStoppedIff`). An enabled run that finds a journal
  recovery refuses does nothing at all (`Quiesce.DockerManager.Backup`) and so never archives
  (`QuiesceTrace.RefusedNeverArchives`). Both kinds of failing runs happen:
  `QuiesceTrace.DisabledRunMayArchiveWhileStopped`, and with a second profile
  `QuiesceTrace.SecondProfileMayArchiveWhileStopped`. With one fixed staging directory no enabled run
  does it (`QuiesceTrace.FixedStagingDirectory`).
- `docs/RESTORE.md` (lines 154-155) says that a stopped selected container receives one already quiescent
  copy when no configured service is active. The code does not look at the other containers: the directory
  of a container that was found stopped is not quiet when a selected container runs that mounts something
  at, below or above the same source, since it is copied while that one runs and not copied again. In a run
  without trouble a directory is quiet if and only if it is not of this kind
  (`Containers.MountsQuietExactly`, ensured by `Quiesce.DockerManager.Backup`). The source may still have a
  quiet copy in the directory of a running container that mounts the very same path; with nested sources
  it may have none. `Containers.SourcesQuietExactly` is exact, and
  `QuietExamples.OverlappingSourceIsNotQuiet` shows a run for every pair of overlapping sources.
- When nothing has to be stopped, service paths are copied before the services are checked. Such a copy
  is quiet if and only if no configured service ended on its own after the copy began
  (`Containers.PathsQuiet`); `QuietExamples.ServiceMayEndBeforeTheCheck` shows a run in which one did. When a
  selected container runs or a service is found active, service paths always have a quiet copy.
- Cleaning the staging directory does not look inside the position directories it keeps. A copy of a
  directory source replaces the old content, but a copy of a file source leaves whatever the directory
  held: `Staging.ReceivedIsExactIff` says exactly when a copy leaves nothing else behind, and
  `Staging.OldFileStays` is an instance.
- Boxup's own exclusions can cut off its inventory or its staged copies when the recovery root, an index
  sidecar or a staged source lies at or above them; configuration validation does not rule this out.
  `ArchiveRequest.InventoryIsArchivedIff` and `ArchiveRequest.StagedCopyIsArchivedIff` are exact,
  `ArchiveRequest.StagedSourceHidesInventory` is an instance.

## Model

| member | source | states |
|---|---|---|
| `QuiesceTrace.SummaryMeaning` | src/jobs.rs:873-940 | The running summary is exact for every history: a workload is owed by a staging directory iff a run with that directory tried to stop it and it was never seen running afterwards, and unstarted iff no start was tried after the last stop |
| `QuiesceTrace.CopyMeaning` | src/jobs.rs:943-981 | The recorded copy of a directory is the last one of the run, with what ran when it began, whether its container was seen not running just before, and what ended on its own since |
| `QuiesceTrace.IdleMeaning` | src/jobs.rs:845-852 | The workloads that the summary keeps as idle are exactly those that were seen not running with nothing done since but copying their own mounts |
| `QuiesceTrace.OwedIsJournaled` | src/jobs.rs:880-940 | In every state of every safe history whatever is owed is listed in the journal in that staging directory, and journals list only workloads once seen active |
| `QuiesceTrace.StoppedWorkloadsAreJournaled` | src/jobs.rs:880-940 | At every point, a workload that a run stopped and that was not seen running since is listed in the journal on disk in the staging directory of that run |
| `QuiesceTrace.OnlyActiveWorkloadsAreStarted` | src/jobs.rs:1093-1137 | Whenever a start is tried, the workload had been observed active before |
| `QuiesceTrace.JournalDroppedOnlyWhenAllVerified` | src/jobs.rs:909-924 | A journal is removed, or replaced by one with other members, only when nothing stopped under it is unverified |
| `QuiesceTrace.ArchivesOnlyWhenAllVerified` | src/jobs.rs:227-233 | An enabled run archives only when nothing stopped by runs with its staging directory is unverified |
| `QuiesceTrace.StopsOfRun` | src/jobs.rs:893-898 | What the summary records as stopped by a run is exactly what its own stop events say |
| `QuiesceTrace.FixedStagingDirectory` | src/jobs.rs:227-233 | If all runs share one staging directory, an enabled run archives only when nothing stopped is unverified |
| `QuiesceTrace.ArchiveWhileStoppedIff` | src/jobs.rs:746-768 | After any safe history, some run can archive with a stopped workload still unverified iff it is disabled, or its staging directory holds no journal, or one that recovery accepts and that does not list the workload |
| `QuiesceTrace.RefusedNeverArchives` | src/jobs.rs:754-768 | An enabled run that finds a journal recovery refuses creates no archive |
| `QuiesceTrace.DisabledRunMayArchiveWhileStopped` | src/jobs.rs:746-748 | A crashed run followed by a disabled one, step by step: the second archives while the container is stopped |
| `QuiesceTrace.SecondProfileMayArchiveWhileStopped` | src/config.rs:537-539 | A crashed run followed by an enabled one with another staging directory, step by step: the second archives while the container is stopped |
| `Journals.JournalRecoverableIffBounded` | src/jobs.rs:754-789 | What prepare_snapshot journals is accepted by recovery iff it is within 10,000 containers and, as it is encoded, 1 MiB |
| `Journals.RecoveryAcceptsIff` | src/jobs.rs:754-789 | Recovery accepts a journal iff it is bounded, in one of the two phases, and lists valid ids and service names without repetition |
| `Journals.DockerIdIsValid` | src/config.rs:615-635 | Docker's own ids of 64 hexadecimal digits are valid |
| `Journals.IdsThatPass` | src/config.rs:615-635 | Ids with a leading or trailing hyphen, a slash, no character or more than 64 are invalid |
| `Journals.ServicesThatPass` | src/config.rs:698-717 | A unit name is valid iff it is a stem of 1 to 248 allowed characters with the suffix .service |
| `Journals.OversizedJournalIsRefused` | src/jobs.rs:762-765 | For example, 10,001 running selected containers give a journal that recovery refuses |
| `Containers.QuietUnlessShadowed` | src/jobs.rs:846-915 | A copy made while no more ran than is expected at that point is quiet unless its container was found stopped, no service is active and a running selected container mounts something at, below or above the source |
| `Containers.QuietIffNotShadowed` | src/jobs.rs:846-915 | If exactly that ran, it is quiet iff this is not the case |
| `Containers.SnapshotIsQuiet` | src/jobs.rs:846-915 | What a snapshot leaves: every directory was copied into; mounts are quiet unless shadowed, and a source has a quiet copy if a service was stopped, or a container ran that stages exactly it, or no selected container that uses it ran; service paths were copied with no selected container running, and quiet if anything was stopped, otherwise iff no configured service ended after the copy began; in a run without trouble mounts are quiet iff not shadowed and sources have a quiet copy iff one of the three holds |
| `Containers.SelectedIsStaged` | src/jobs.rs:814-829 | In fields of the configuration: every mount of a container chosen by id, by name or with all others, whose source is listed or none is, has an absolute source, is among the staged sources and was copied into its own position; so was every service path |
| `Containers.QuietedIsConfigured` | src/jobs.rs:814-882 | The containers that a snapshot stops are those that run, have a mount to stage and are chosen by id, by name or with all others |
| `QuietExamples.ServiceMayEndBeforeTheCheck` | src/jobs.rs:859-866 | A run with nothing to stop, step by step, whose service path is copied while the service is active |
| `QuietExamples.OverlappingSourceIsNotQuiet` | src/jobs.rs:846-853 | A run with a stopped and a running container whose sources overlap, step by step: the directory of the stopped one is not quiet, that of the running one is, and the source of the stopped one has a quiet copy iff the two sources are equal |
| `Quiesce.DockerManager.Stop` | src/jobs.rs:1057-1077 | A stop, only of a journalled workload; success means not running, failure leaves it open but is recorded as a stop |
| `Quiesce.DockerManager.WriteJournal` | src/jobs.rs:883-908 | An atomic write in the staging directory of the run: failure keeps the old journal, a crash leaves the old or the new one; other members may be written only when nothing is owed there, and no journal may be written by a run that found a refused one |
| `Quiesce.DockerManager.RemoveJournal` | src/jobs.rs:909-924 | Removal, allowed only when nothing is owed there and everything found journalled was seen running |
| `Quiesce.DockerManager.ResumeOne` | src/jobs.rs:1093-1118 | One start and one check; verified only if the check saw the workload running, even when the start command failed; without trouble it is verified and runs |
| `Quiesce.DockerManager.Resume` | src/jobs.rs:1093-1137 | Never stops early: unless the machine crashes, every listed workload is started after its stop and then either seen running or reported; success means nothing is owed; without trouble it succeeds and all run |
| `Quiesce.DockerManager.ResumeAndRemove` | src/jobs.rs:920-929 | The journal goes only after every member was seen running; failure keeps it |
| `Quiesce.DockerManager.RecoverUnfinished` | src/jobs.rs:746-793 | Looks in the staging directory of the configuration only. Success leaves every workload journalled there seen running and no journal; an unreadable journal or one outside the bounds changes nothing and ends the run; failure keeps the journal, after starting every accepted member; without trouble an accepted journal is replayed and exactly its members are added to what runs |
| `Quiesce.DockerManager.CopyPath` | src/jobs.rs:983-1025 | At most five attempts, only one when interruptible, and all of them before a transient failure is reported; success means that the last copy into the directory read this source and began in this call, while nothing ran that did not run before; other directories keep their copies |
| `Quiesce.DockerManager.CopyMounts` | src/jobs.rs:943-967 | Success returns exactly the sources of the stageable mounts, all absolute, each copied into the directory of its own position |
| `Quiesce.DockerManager.StageStopped` | src/jobs.rs:846-853 | Copies exactly the stageable mounts of the containers audited as stopped; each was seen not running again just before its own copies, and every such copy is recorded so |
| `Quiesce.DockerManager.FindActiveServices` | src/jobs.rs:861-866 | The reported services were seen active; on an isolated host, or without trouble, no other configured service runs |
| `Quiesce.DockerManager.StageBeforeStop` | src/jobs.rs:846-866 | Before anything is stopped every slot of the selected containers and of the service paths has been copied into; what those copies are for stopped containers, and which services are active |
| `Quiesce.DockerManager.StopAll` | src/jobs.rs:893-898 | Success means that a stop of each listed service and container was tried, and on an isolated host, or without trouble, that none of them runs |
| `Quiesce.DockerManager.CopyWhileStopped` | src/jobs.rs:892-919 | Success leaves the journal in its quiesced phase, and the last copies of containers that ran, of all containers if a service did, and of service paths were made while none of the journalled workloads ran; the journal keeps its members in every case |
| `Quiesce.DockerManager.StopCopyResume` | src/jobs.rs:882-940 | Success implies no journal and nothing owed; unless the machine crashed, whatever was stopped has been started again, also when copying failed; without trouble it succeeds and the workloads run again |
| `Quiesce.DockerManager.PrepareSnapshot` | src/jobs.rs:795-941 | Success: nothing owed, no journal; no snapshot iff no container is selected and no service path configured; staged sources strictly sorted and equal to all stageable mounts of selected containers plus all service paths, each copied into its directory; a stop was tried of exactly the running selected containers and active services; without an active service every container audited as stopped was seen not running just before its copies; on an isolated host the statements of SnapshotIsQuiet, and without trouble the exact ones. Any outcome but a crash has started what it stopped; without trouble it succeeds and leaves the running set as it was |
| `Quiesce.DockerManager.Backup` | src/jobs.rs:217-320 | Recover, audit, stage, then create: success is one run that ends in its archive, after staging succeeded and nobody cancelled; whatever is still unverified is overlooked by the condition of ArchiveWhileStoppedIff; an enabled run that finds a journal recovery refuses fails with no further event; after an enabled success the audit has one entry for each container, everything that the configuration asks for is staged (SelectedIsStaged) and was stopped, and the statements about quiet copies hold; whatever the outcome, no stop was tried of anything the configuration does not ask for; other staging directories keep their journals; without trouble it succeeds and the running set grows by the recovered workloads only |
| `Quiesce.DockerManager.ManyBackups` | src/jobs.rs:217-320 | Any number of backups with arbitrary configurations and staging directories, failures, crashes and reboots in between keep the history safe, and their staging directories are those of the history |
| `Quiesce.DockerManager.OneProfileIsSafe` | src/jobs.rs:227-233 | When all of them had one staging directory, no enabled one archived while anything was stopped |
| `Quiesce.DockerManager.SortedSources` | src/jobs.rs:876-877 | The same sources, strictly sorted |
| `Decimals.PositionNamesAreCanonical` | src/jobs.rs:1638-1644 | The parse-and-print test accepts exactly the decimal names of the positions below the count |
| `Decimals.DecimalRoundTrip` | src/jobs.rs:958-961 | Reading the printed decimal gives the number back |
| `Staging.PlacedFind` | src/jobs.rs:956-963 | A copy into one position directory changes no other one |
| `Staging.ReceivedIsExactIff` | src/jobs.rs:996-1010 | A copy leaves nothing else in its directory iff the source is a directory or the directory held nothing else |
| `Staging.OldFileStays` | src/jobs.rs:1659-1684 | For example, the copy of another file stays beside the new one |
| `Staging.StagingArea.CleanChildDirectories` | src/jobs.rs:1659-1684 | Success leaves a directory with exactly the wanted subdirectories of before, contents kept; failure only with trouble |
| `Staging.StagingArea.CleanStaleStaging` | src/jobs.rs:1602-1657 | From any earlier content: at most the directories of this run, those that were plain directories with their content, no dumps; entries other than mounts, services and postgres untouched |
| `Staging.StagingArea.CopyPath` | src/jobs.rs:983-1025 | One read of the source lands in its own directory as rsync leaves it beside what was there, and every other directory stays; fails only with a fault or on a source that cannot be copied |
| `Staging.StagingArea.DumpPostgres` | src/jobs.rs:1027-1055 | Adds exactly the dump of the container |
| `Staging.StagingArea.Prepare` | src/jobs.rs:826-920 | After success every mount that the configuration asks for, and every service path, has a copy of its own source at its own place in the tree, read after the stop exactly if its container ran or a service was stopped; nothing of earlier runs is left, and the dumps are those of the running databases; other entries are untouched; fails only with a fault or on a source that cannot be copied |
| `Staging.HoldsExactlyNames` | src/jobs.rs:1602-1657 | So the names are equal, not just bounded: ids, positions of each id, service positions |
| `Staging.ExactIsNotStale` | src/jobs.rs:1602-1657 | In fields of the configuration: every directory under mounts is that of a mount to stage, every one under services that of a service path, and the files under postgres are exactly the dumps to make |
| `Staging.FindIsAt` | src/jobs.rs:956-979 | Mounts lie at mounts/ID/POSITION and service paths at services/POSITION |
| `ArchiveRequest.AddSourceIfUncovered` | src/jobs.rs:1572-1588 | The item is covered afterwards, and was added iff no source covered it, with devices counted when one_file_system is on |
| `ArchiveRequest.InternallyExcluded` | src/jobs.rs:269-299 | The configured exclusions come first and the set grows by exactly the internal ones |
| `ArchiveRequest.BuildRequest` | src/jobs.rs:258-299 | Fails iff a configured source is absent or none is configured; otherwise the request holds the configured sources and exclusions, the internal exclusions, and a source from which the walk reaches the inventory file of this archive and the staging directory, on the same device if it stays on one |
| `ArchiveRequest.InternalCutIff` | src/jobs.rs:269-299 | The internal exclusions cut a path off from a source iff something on the way is to be kept out: the recovery area, the caches, restore staging, a staged source, the index with its sidecars, or one of the four state files |
| `ArchiveRequest.ArchivedIff` | src/jobs.rs:258-299 | A complete request archives a path iff some source lies at or above it and nothing on the way is excluded by the operator, kept out, or covered by another file system |
| `ArchiveRequest.KeptOutIsNotArchived` | src/jobs.rs:269-299 | So it archives nothing that is to be kept out |
| `ArchiveRequest.SlotsAreStagedCopies` | src/jobs.rs:956-979 | All copies and dumps of the staging directory count as staged copies |
| `ArchiveRequest.InventoryCutIff` | src/jobs.rs:269-299 | The internal exclusions cut the inventory off from a source iff the recovery root is at or above the state directory, an index sidecar lies between, or a staged source is at or above it |
| `ArchiveRequest.StagedCopyCutIff` | src/jobs.rs:269-299 | The same for every path below mounts, services or postgres of the staging directory |
| `ArchiveRequest.InventoryIsArchivedIff` | src/jobs.rs:258-299 | With any operator exclusions, the inventory is archived iff some source holds it and neither the operator nor, with one_file_system, a mount nor such a case cuts it off |
| `ArchiveRequest.StagedCopyIsArchivedIff` | src/jobs.rs:258-299 | The same for every staged copy |
| `ArchiveRequest.InternalDataIsArchived` | src/config.rs:361-379 | On one file system, or without one_file_system, non-overlap of the configured paths suffices when no recovery root, sidecar or staged source is in the way and the operator excludes nothing |
| `ArchiveRequest.StagedSourceHidesInventory` | src/jobs.rs:295-299 | For example, a staged source at /var/lib cuts the inventory off |
| `Paths.MatchesIsComponentPrefix` | src/restore.rs:754-759 | The string test for at-or-below is component prefix |
| `Paths.AncestorsAreProper` | src/borg.rs:554-566 | Walking parents yields exactly the proper ancestors |
| `Paths.ValidArchivePathIff` | src/restore.rs:1025-1044 | An archive path is valid iff all its components are proper names and it has no control character |
| `Selection.AncestorSortsFirst` | src/restore.rs:362-374 | An ancestor sorts at or before everything below it |
| `Selection.GreedyStep` | src/restore.rs:362-374 | One step of the greedy pass keeps a covering antichain although unrelated names sort in between |
| `Selection.MinimalRestorePaths` | src/restore.rs:362-374 | Returns the strictly sorted paths of the input with no other input path above them; they are an antichain |
| `Selection.MinimalCoverUnique` | src/restore.rs:362-374 | The result depends only on the set of inputs |
| `Selection.MinimalCoverMatchesSamePaths` | src/restore.rs:362-374 | It matches exactly the archive paths that the input matches |
| `Selection.MinimalCoverIdempotent` | src/restore.rs:362-374 | It is a fixed point |
| `Selection.BorgListPatterns` | src/borg.rs:551-582 | Refuses an empty selection or an invalid path; otherwise lists the sorted ancestors as full paths, then the selection as prefixes, then the exclusion of everything |
| `Selection.BorgExtractPatterns` | src/borg.rs:673-698 | The selection as prefixes, then the exclusion of everything |
| `Selection.ThreeSelectorsAgree` | src/backend.rs:24-43 | The first-match pattern list, the default filter of the trait and the planning test accept the same items |
| `Selection.ExtractPatternsSelect` | src/borg.rs:657-671 | Extraction takes exactly the items at or below a selected path |
| `Protected.EnsureNotDenied` | src/restore.rs:694-736 | Accepts iff the path overlaps no protected path, a selection inside the inventory being exempt from the state directory alone |
| `Protected.AcceptedIsApart` | src/restore.rs:694-736 | Field by field: accepted means apart from the denied paths, the credentials, the state, cache, index and staging paths and the configuration, except inside the inventory where that is allowed |
| `Protected.AcceptedSelectionsAvoidProtectedPaths` | src/restore.rs:694-736 | No item that an accepted selection matches lies at, below or above a protected path, except inside the inventory |
| `Protected.AncestorsOfAcceptedSelectionsAreUnprotected` | src/restore.rs:694-736 | The synthetic directories above an accepted selection are not protected either |
| `Protected.NormalizePaths` | src/restore.rs:473-497 | Accepts iff there are 1 to 10,000 inputs, all acceptable; returns them without leading slash, each at its first occurrence |
| `Protected.NormalizedInputsInOrder` | src/restore.rs:473-497 | Further inputs only append, so the first occurrences keep their order |
| `Protected.StripRootMeaning` | src/restore.rs:484-488 | One leading slash is dropped and nothing else |
| `Protected.EnsureTargetNotDenied` | src/restore.rs:738-752 | Also keeps restore targets apart from the Docker staging directory |
| `Planning.ManifestUnique` | src/restore.rs:564-639 | A listing and a selection determine the manifest |
| `Planning.AddSyntheticAncestors` | src/restore.rs:641-679 | Adds directories for exactly the missing proper ancestors, each counted once; refuses iff the file limit would be exceeded |
| `Planning.OneMatchMeansUnique` | src/restore.rs:681-692 | Exactly one match with this id means that the name stands for this archive and no other |
| `Planning.ArchiveIdDigits` | src/restore.rs:1046-1052 | An archive id is 64 hexadecimal digits |
| `Planning.FittingKinds` | src/restore.rs:588-603 | Files, directories and links can be restored, and only directories above a selection |
| `Planning.ScanListing` | src/restore.rs:564-625 | Collects exactly the included items with their counts, refusing only what no plan can accept |
| `Planning.SyntheticDirectoriesComplete` | src/restore.rs:626-679 | The scan plus the synthetic directories is the manifest, at the same total size |
| `Planning.ValidateLiveSelection` | src/restore.rs:540-639 | Succeeds iff the snapshot name is unique with a valid id, the listing is complete and the plan is acceptable; the plan holds the manifest with exact file and byte counts within limits |
| `Extraction.PlanExactForExtraction` | src/restore.rs:569-679 | The manifest equals the ideal extraction iff the listing contains every selected path and every directory between it and its descendants |
| `Extraction.AncestorsArePlannedDirectories` | src/restore.rs:641-679 | Every proper ancestor of a selection is planned as a directory |
| `Extraction.DeliveryKeepsTheManifest` | src/restore.rs:578-591 | Planning from the filtered listing and from the whole listing gives the same manifest |
| `FileTree.LabelsDetermineTree` | src/restore.rs:840-929 | Two trees that show the same at every path are equal |
| `FileTree.GraftLabel` | src/restore.rs:972-1000 | Replacing a subtree changes exactly what is at or below it |
| `Verification.VisitEntry` | src/restore.rs:853-905 | Each step of the worklist reads a path not seen before and keeps the traversal invariant |
| `Verification.TraversalDone` | src/restore.rs:849-905 | An empty worklist means that every node of the tree was seen |
| `Verification.ReadDirectory` | src/restore.rs:853-905 | Reads one directory with exact counters, stopping only on what condemns the whole tree |
| `Verification.VerifyExtractedManifest` | src/restore.rs:840-929 | Accepts iff the tree has no special files, fits the limits, and equals the projected manifest with its counts |
| `Verification.ComparisonIsEquality` | src/restore.rs:906-929 | Comparing counters and looking up each entry is equality of the two maps |
| `Verification.AcceptanceIsExact` | src/restore.rs:840-929 | For a plan from planning, acceptance is equality of kinds, file sizes and link targets at every path |
| `Verification.AcceptedTreeShowsThePlan` | src/restore.rs:840-929 | Acceptance in terms of the tree: every planned path holds a file of the planned size, a link with the planned target or a directory, and no other path exists |
| `Verification.FaithfulExtractionAccepted` | src/restore.rs:840-929 | The ideal extraction is accepted iff the listing was complete |
| `Publication.EnsureNoSymlinkComponents` | src/restore.rs:783-802 | Accepts iff the path exists without crossing a link and is no link itself |
| `Publication.FindRoot` | src/restore.rs:376-405 | Finds the selected path if it exists and otherwise its highest missing ancestor; refuses iff the place is not anchored in real directories |
| `Publication.OriginalPublicationPaths` | src/restore.rs:376-407 | Succeeds iff every selected path is anchored; returns the minimal cover of the roots |
| `Publication.RootsEqualOrIncomparable` | src/restore.rs:376-407 | Roots of incomparable selections are equal or incomparable |
| `Publication.EveryRootIsPublished` | src/restore.rs:376-407 | Minimizing the roots loses none of them |
| `Publication.RootHoldsStagingIff` | src/restore.rs:284-285 | The root of an accepted selection overlaps the restore staging directory iff it contains it, and iff the selected path and staging share a missing ancestor when the roots are computed |
| `Publication.MissingBeforehand` | src/restore.rs:268-285 | They do iff they shared a missing ancestor at the beginning that is not also one of the state directory |
| `Publication.RootMayHoldStaging` | src/restore.rs:268-285 | For example, data/docs with staging at /data/stage, the state elsewhere and /data missing: accepted, and the exchange is impossible once staging exists |
| `Publication.StateDirectoryMayMakeRoom` | src/restore.rs:268-285 | With the state at /data/state instead, the root is data/docs itself and holds no staging |
| `FileTree.MakeDirsWhen` | src/restore.rs:804-838 | All directories of a path can be created iff whatever exists on it is a directory |
| `FileTree.MakeDirsLabel` | src/restore.rs:804-838 | Creating them adds nothing but the missing ones |
| `FileTree.MakeDirsAt` | src/restore.rs:804-838 | What overlaps the path nowhere stays as it is |
| `FileTree.CreateDirectories` | src/restore.rs:804-838 | Creates a directory with its missing ancestors, one component after the other; a failure leaves only some of them, from the top, and comes from a fault or from something on the path that is no directory |
| `Publication.Disk.PublishOriginalPath` | src/restore.rs:972-1000 | Exchanges the two subtrees, or moves the staged one to an absent target; a failure changes nothing, and comes from a fault, a missing end, or a target that holds the staging directory |
| `Publication.Disk.PublishOriginalPaths` | src/restore.rs:336-351 | After any number of steps exactly the first roots are exchanged, none of which holds staging; without faults it stops only at a root that cannot be exchanged |
| `Publication.ExchangeOne` | src/restore.rs:336-351 | One more exchange extends the exchanged prefix by one root |
| `Publication.PublicationReplacesTheSelection` | src/restore.rs:289-351 | At every path: the selected subtrees equal the extracted ones, every other existing node is unchanged, and what was displaced is in staging |
| `Publication.ExistingTargetAccepted` | src/restore.rs:398-403 | An existing target is accepted iff it is a directory |
| `Publication.ReplacingAFileIsRefused` | src/restore.rs:399-403 | For example, an existing file cannot be replaced |
| `Merge.CompatibleIsPathwise` | src/restore.rs:1059-1109 | Two trees can be merged iff no common path is a directory on one side only |
| `Merge.OverlayLabel` | src/restore.rs:1059-1109 | The overlay shows the source where the source has a node and the destination elsewhere |
| `Merge.PartialConserves` | src/restore.rs:1059-1109 | Part-way, every destination node is its old or its source value and every source node is in one of the two trees |
| `Merge.Volumes.RenameEntry` | src/restore.rs:1059-1080 | rename() as POSIX defines it: a directory replaces only an absent entry or an empty directory |
| `Merge.Volumes.MergeChild` | src/restore.rs:1080-1105 | Merging two directories of one name: the overlay and an empty source, or a conserving partial state |
| `Merge.Volumes.MergeIntoDirectory` | src/restore.rs:1059-1109 | Done gives the overlay and empties the source; a conflict is reported only if the trees are incompatible, an I/O error only with a fault; every other state is a conserving partial one |
| `Restore.RevalidateSnapshot` | src/restore.rs:681-692 | Passes iff the name stands for exactly the planned archive id |
| `Restore.PlanUnique` | src/restore.rs:540-639 | The answers of the repository determine the plan |
| `Restore.ExtractAndVerify` | src/restore.rs:185-192 | Delivers the tree iff it matches the plan and the name stood for the planned id before the extraction and after the verification |
| `Restore.Host.PublishDirectory` | src/restore.rs:940-970 | The whole tree, or the old state, or the empty target directory gone |
| `Restore.PartlyPreparedLabel` | src/restore.rs:160-176 | Creating the state and the restore staging directory, completely or in part, changes nothing that existed and adds nothing else |
| `Restore.StaysReady` | src/restore.rs:163-176 | A target found ready before the staging directory is created is still ready afterwards |
| `Restore.ReadyTargetHoldsNothing` | src/restore.rs:761-781 | A permitted target is ready iff its parent is a real directory, possibly brought by the state directory, and it is absent or a directory without entries |
| `Restore.NothingIsLost` | src/restore.rs:940-970 | Publishing at the target, or removing it, leaves everything else that existed as it was, and nothing existed below it |
| `Restore.Host.RestoreNormalized` | src/restore.rs:157-195 | All or nothing for normalized paths; without faults it fails only if a condition fails |
| `Restore.Host.Restore` | src/restore.rs:150-195 | From operator input: success publishes exactly the verified tree of the planned archive at a target that was absent or a directory without entries, under repository changes at any step; whatever the outcome, every path that existed, except for the target itself, stays as it was; a failure leaves the target too, except that its empty directory may be gone, and adds at most the state and staging directories; without faults it succeeds whenever all conditions hold |
| `Restore.RestoreChangesOnlyTheTarget` | src/restore.rs:150-195 | At every path after a success: the extracted tree at and below the target, everything else that existed unchanged, and nothing new but the state and staging directories |
| `DestructiveRestore.RootsHaveBothEnds` | src/restore.rs:972-1000 | The verified tree holds a node at every publication root whose place is anchored, and both parent directories exist |
| `DestructiveRestore.StagedAvoidsProtectedPaths` | src/restore.rs:264-268 | A verified tree holds nothing at or below a protected path |
| `DestructiveRestore.RestoreOriginal` | src/restore.rs:249-360 | The roots belong to the file system with the state directory in place. Without faults it refuses only if no plan for the canonical cover of the inputs meets all conditions, having created at most the state and staging directories; otherwise exactly the first roots are exchanged, and it stops early only with a fault or at a root that holds staging; without faults it completes iff no selected path shares a missing ancestor with staging once the state directory exists |
| `DestructiveRestore.RootsHoldStagingIff` | src/restore.rs:376-417 | Some root holds the staging directory iff some selected path shares a missing ancestor with it |
| `DestructiveRestore.OriginalRestoreReplacesExactlyTheSelection` | src/restore.rs:249-360 | End to end at every path of a completed run, from the file system at its beginning: the selection equals the extracted tree, everything else that existed is unchanged, what is new comes from the extracted tree or is the state or staging directory, displaced nodes are in staging |
| `DestructiveRestore.ProtectedPathsSurviveOriginalRestore` | src/restore.rs:264-268 | After any number of exchanges everything at or below a protected path is as it was at the beginning, except that the state and staging directories exist |
| `DestructiveRestore.RestoreOverwrite` | src/restore.rs:197-247 | Merges only if the inputs are accepted, confirmed, planned and verified, into the file system with the state and staging directories in place; without faults it fails to start only if one of these fails, and is done iff the trees are compatible |
| `DestructiveRestore.ProtectedPathsSurviveMerge` | src/restore.rs:694-736 | However far the merge got, nothing at or below a protected path has changed |
| `DestructiveRestore.OverwriteShowsTheOverlay` | src/restore.rs:1059-1109 | At every path a finished merge shows the staged node if there is one and the previous one otherwise |
| `LikePatterns.EscapeIsPerCharacter` | src/index.rs:989-994 | The three successive replacements equal one escape per character |
| `LikePatterns.LikeWildcards` | src/index.rs:226-239 | What the wildcards of LIKE and the escape stand for |
| `LikePatterns.UnfoldedTests` | src/index.rs:278-305 | Without folding, the prefix and substring tests are those of plain strings |
| `LikePatterns.EscapedPrefixPattern` | src/index.rs:226-239 | The escaped prefix pattern matches exactly what starts with the prefix and a slash, up to the fold |
| `LikePatterns.EscapedContainsPattern` | src/index.rs:295-304 | The escaped query between percent signs matches exactly what contains the query, up to the fold |
| `LikePatterns.CachedListingMeaning` | src/index.rs:226-239 | A cached listing shows the prefix itself and what starts with it and a slash, up to the fold |
| `LikePatterns.CachedListingOfDirectory` | src/index.rs:226-239 | A trailing slash of the prefix changes nothing below it |
| `LikePatterns.CachedListingAgreesIff` | src/borg.rs:972-977 | Cached and live listing agree on every path iff no character of the prefix or the slash has a variant under the fold |
| `LikePatterns.CachedListingFoldsCase` | src/index.rs:226-239 | With SQLite's fold: iff the prefix has no ASCII letter |
| `LikePatterns.CachedListingShowsVariant` | src/index.rs:226-239 | For example, listing etc shows ETC/hosts |
| `IndexTables.InsertKeepsPostings` | src/index.rs:701-703 | The insert trigger keeps the postings equal to the trigrams of the stored paths |
| `IndexTables.DeleteKeepsPostings` | src/index.rs:704-706 | So does the delete trigger |
| `IndexTables.UpdateKeepsPostings` | src/index.rs:707-710 | So does the update trigger |
| `IndexTables.DeleteArchives` | src/index.rs:100-113 | Deleting archives deletes exactly their files, firing the trigger for each, and keeps the postings exact |
| `IndexTables.InsertItemShows` | src/index.rs:810-835 | Storing an item adds it to the view of its archive and keeps all tables consistent |
| `IndexRefresh.Index.MarkRefreshStarted` | src/index.rs:518-573 | The first transaction: not complete, generation kept, emptied and reset when the repository changed |
| `IndexRefresh.NewArchiveHoldsListing` | src/index.rs:810-835 | An archive that was read has one stored item for each listed one, with its path, kind and link target, and its size up to the largest signed 64-bit integer |
| `IndexRefresh.Index.UpdateArchives` | src/index.rs:88-126 | The second transaction: exactly the live names, unchanged ids kept, all others read exactly as listed; the counts are those of the names added and removed; succeeds on readable listings |
| `IndexRefresh.Index.Refresh` | src/index.rs:82-153 | Every refresh is one step of the abstract machine; a successful one has read every new snapshot exactly as listed (NewArchiveHoldsListing) and counts what it added and removed; it succeeds in a world without faults while the generation fits a signed 64-bit integer |
| `IndexRefresh.Index.ManyRefreshes` | src/index.rs:82-153 | Every run of the real tables is a history of the abstract machine |
| `IndexRefresh.CommittedIsFullRebuild` | src/index.rs:82-153 | After a commit the index equals a full rebuild of the live repository |
| `IndexRefresh.IndexAlwaysFaithful` | src/index.rs:82-153 | For every history of refreshes that succeed, fail or crash, with repositories changing, each stored archive is that archive of the repository named in the metadata |
| `IndexRefresh.CompleteIsLastLiveList` | src/index.rs:592-606 | Complete implies that the index equals a full rebuild of the live list of the last commit |
| `IndexRefresh.GenerationCountsCommits` | src/index.rs:127-130 | The generation counts the commits since the repository last changed |
| `IndexRefresh.FailureKeepsArchives` | src/index.rs:518-573 | A failed refresh changes no archive of the same repository and empties the index of another one |
| `IndexRefresh.SuccessIsComplete` | src/index.rs:592-622 | A successful refresh is complete and matches the repository |
| `IndexRefresh.FlagMeansComplete` | src/index.rs:592-606 | On an index that only refreshes have written, the completeness check agrees with its stored flag |
| `IndexRefresh.CompleteNamesARepository` | src/index.rs:592-622 | A complete index names a valid repository, with a generation and a time |
| `Search.PhraseRoundTrip` | src/index.rs:281 | Quoting passes every query through the full-text syntax unchanged |
| `Search.PhraseSearchIsSubstringScan` | src/index.rs:278-293 | For at least three characters the trigram phrase lookup selects exactly the paths that contain the query, up to the fold |
| `Search.FirstHits` | src/index.rs:282-304 | The first 1000 rows in order out of a set of rows |
| `Search.SearchInSnapshot` | src/index.rs:278-305 | Returns only matching rows of the snapshot, newest archive first and then by path, and leaves out a matching row only when 1000 rows not after it are returned |
| `Estimate.EstimatedBackupSeconds` | src/index.rs:446-480 | Fails iff a row does not parse, never by overflow; unknown below three plausible lengths, else their median |
| `Estimate.MedianSplitsTheSample` | src/index.rs:468-479 | At least half of the sample is no larger and at least half no smaller than the median |
| `Estimate.MedianIsTheMiddle` | src/index.rs:468-479 | It is the floored mean of the two elements at the middle positions in order, which are one for an odd count |
| `Estimate.RankIsUnique` | src/index.rs:468-479 | The element at a position is determined by how many are smaller and how many no larger |
| `Estimate.PlausibleMeans` | src/index.rs:459-464 | Plausible is at least one second and less than a week and a second; the length is the whole seconds that fit |
| `Estimate.UnknownIff` | src/index.rs:466-468 | The estimate is unknown iff at most two rows are plausible |
| `Estimate.RowsAreFinishedBackups` | src/index.rs:448-452 | The rows of the query are finished successful backups |
| `Estimate.EstimateWellDefined` | src/index.rs:446-480 | Unless two successes finished at the same time, the estimate depends on the set of jobs alone |

## Left out

- Processes, signals, timeouts, passphrase pipes and JSON: only success, failure and crash remain.
- The TUI, progress reports, notifications, the setup wizard, command-line dispatch, packaging and shell scripts.
- The local lock: one operation at a time. Profiles with different state directories have locks of their own and could also overlap; runs of one host are modelled one after another.
- The checks for root and a terminal, and the dry-run output; the typed confirmation is a parameter.
- File ownership, modes, times, descriptors and UTF-8 checks, beyond one number per directory.
- Devices, except in `add_source_if_uncovered`: same-filesystem checks, and the fallback staging at the root of another filesystem.
- The names of temporary directories and their removal when an operation ends.
- Publication.Disk.PublishOriginalPaths: `live` is the file system without what the staging directory holds, and `staged` is that part; the one way they can meet, a root that holds the staging directory, is refused as the kernel does.
- DestructiveRestore.RestoreOriginal: the temporary directory inside staging, and the fallback staging, which refuses overlapping roots itself (src/restore.rs:449-455).
- DestructiveRestore.RestoreOverwrite: the same two trees; that the merge never reaches the staging directory follows from the lemma about protected paths.
- Merge.Volumes.MergeIntoDirectory: the destination descriptor is a path in the live tree that no other process changes meanwhile.
- Publication.EnsureNoSymlinkComponents: what lies behind a link is an arbitrary answer, since it is only ever looked at to be refused.
- Planning.ValidateLiveSelection: scanning progress reports.
- Restore.Host.Restore: that the target's parent is a real directory is asked together with the rest of the target check, once the state directory exists.
- FileTree.CreateDirectories: the new directories hold nothing; the lock file that is then opened, and if need be created, in the state directory is not part of the tree.
- Quiesce.DockerManager.WriteJournal: the rename is taken to be durable. The program syncs the file but not its directory (src/jobs.rs:1540-1552), so a power loss soon after a stop can lose the journal.
- Quiesce.DockerManager.RecoverUnfinished: `Path::exists` reads a failing stat as an absent file; in the model that question is answered truthfully, and only reading the journal can fail.
- Quiesce.DockerManager.StageOnline: the first copies of running containers are only said to have been made; their dumps are stated in the staging model.
- Quiesce.DockerManager.Backup: the audit is one moment, although the program asks about containers one after another; the inventory file, the repository phase after creation, pruning and checking are not modelled.
- Containers.SnapshotIsQuiet: containers that are not selected, which no backup stops, do not count as users of a source, and services count as users of service paths only.
- Quiesce.DockerManager.PrepareSnapshot: the quiet-copy guarantees need a host on which no outside party starts workloads during the run, or a run without trouble.
- Staging.StagingArea.Prepare: the retries of one copy, stopping and starting workloads between the copies, and that the copy after a stop happens at all, are stated in the quiesce model; paths are not looked up through links, which cleaning has removed.
- Staging.StagingArea.DumpPostgres: the content of a dump is arbitrary.
- Staging.StagingArea.CopyPath: what a read finds is a function of the path and the number of the read; rsync's own work is its documented contract; when the kind of a source changes between two copies of one run, only the last one is described.
- ArchiveRequest.BuildRequest: paths are component lists, so the UTF-8 and absolute-path errors of exclusions do not arise; the archive name and the remaining request fields are not modelled.
- IndexRefresh.CommittedIsFullRebuild: assumes that while a refresh finds the same repository at its beginning and its end, the files it listed under a snapshot name are those of the listed id.
- IndexRefresh.Index.UpdateArchives: of an archive and its files only name, id, start, path, kind, size and link target are stored.
- Search.SearchInSnapshot: rows with equal start and path come in row order; trimming the query and the choice of the latest snapshot are left out.
- Estimate.EstimatedBackupSeconds: time texts are ordered as strings, as SQLite does, and parsed by an uninterpreted function.
- The schema migration, the job table and its other queries, directory listings and status freshness of the index.
- `Config::validate` apart from the pairwise non-overlap of the state, cache, index, restore staging and Docker staging paths.
- Borg, SQLite and rsync are not part of this model beyond the contracts named above.
