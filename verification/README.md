# A verified model of the sveltos-agent core

sveltos-agent runs in a managed Kubernetes cluster. It evaluates Classifiers, HealthChecks, EventSources and
Reloaders, writes reports about them, sends those reports to a management cluster and watches the resource kinds the
sources name. This project models the parts of the agent that keep state of their own or take part in a protocol, and
proves what they guarantee over every input, every run and every interleaving.

`dafny verify dfyconfig.toml` checks the whole project.

## How it is organised

| file | component | main results |
|---|---|---|
| `ReloaderIndex.dfy`, `ReloaderRuns.dfy` | the three in-memory maps of the reloader index | the in-place loop has a closed form; the index equals a recomputation from the current specs; what it holds after failed evaluations; exact conditions, from every state, for the inverse maps and for the lookup that finds no entry |
| `WorkQueues.dfy` | the queues of names awaiting evaluation | no request is lost, no name is evaluated twice in a round |
| `JobKeys.dfy` (`Text.dfy`) | the reloader queue and its text keys | the key round trip, exactly when it holds; failed jobs are never retried |
| `VolumeChanges.dfy` | from a changed ConfigMap or Secret to the report | which workloads an update lists for reloading; for Secrets, exactly when they are the right ones |
| `RebuildFlag.dfy` | the flag and the builder of the watch list | no rebuild request is lost; a quiet builder means the named kinds are watched |
| `WatchSet.dfy` | the sorted list of kinds and the watchers | the list is canonical; coverage; one informer per kind; which watchers the closing walk closes and when it panics |
| `GvkIndices.dfy` | the controllers' maps from kind to sources, and the lists of kinds | what each index contains after any history |
| `EventReports.dfy` | concurrent writers of one EventReport | no lost update; a successful call stores its event once plus once per lost status write |
| `ReportLifecycle.dfy` | source, report, worker and finalizers | no orphan report, and for EventReports exactly which step makes one; the finalizer protocol, and exactly when a deletion can go undelivered |
| `ManagementCopies.dfy` | the copies in the management cluster | copies agree after every send; for EventReports, exactly when, and when Processed is true of them |
| `CloudEvents.dfy` | JetStream deliveries | an acknowledgement means delivery, over the calls and conflicts of `EventReports` |
| `CollectedResources.dfy` | the references and the text an evaluation writes to an EventReport | unique decoding, exactly when it holds; documents pair with references |
| `Classification.dfy` | the verdict on a Classifier | the verdict, error cases included; accepted versions are convex; when the order of selectors matters |
| `Prelude.dfy` | shared values and maps of sets | |

State that the agent changes in place is a class (`Index`, `JobQueue`, `ReloaderQueue`, `WatchManager`, `GvkIndex`)
whose methods are proved against functions on values; a loop in the agent is a loop here. Concurrent protocols are step
systems: a `Step` datatype, a total `Next` in which an impossible step changes nothing, and `Exec` over an arbitrary
sequence of steps, so that a lemma about `Exec` speaks about every interleaving. What the system records about the past
(times, writers, phases, what an attempt saw) is proved to be what the sequence of steps says, and the guarantees are
stated on the steps. Every API call that may fail, every
listing and every script verdict is a parameter, with `None` or an error constructor for failure. Go iterates maps in
random order; here such loops pick any remaining member, so what is proved holds for every order.

## Where the code differs from what one would expect

The model follows the code. Each of these has a lemma.

- The reloader loop takes the difference between old and new workloads against a half-built set, so a pass can look up
  a workload that an earlier pass or an earlier failed evaluation removed (`ReloaderRuns.LookupMissesExactly` says when,
  for every state). A missing entry is read as the empty set.
- A Reloader whose spec becomes empty, or one whose evaluation fails half way, leaves the two maps no longer inverse;
  `ReloaderRuns.InverseLeftExactly` gives the exact condition from every state, and so also when a later evaluation
  makes them agree again. Safety holds nevertheless (`ReloaderRuns.EveryRunIsSafe`).
- Re-queueing a failed reloader job puts a second `Reloader:` before its key, and a key with three parts is skipped
  (`JobKeys.SecondPrefixIsSkipped`, `JobKeys.FailedJobsAreLost`).
- A changed Secret is queued as a ConfigMap, so a workload that mounts it is reported only if it also mounts the
  ConfigMap of that name (`VolumeChanges.SecretReportsRightlyExactly`, `VolumeChanges.SecretChangeMissed`).
- The recorded list of watched kinds has length 0 and `copy` never lengthens it, so it stays empty, every list counts
  as changed and no watcher is ever closed (`WatchSet.ApplyRecordsNothing`, `RebuildFlag.WatchersOnlyGrow`). Were the
  list recorded, dropping any kind but the last one would make the agent index past its end, as the list is shortened
  while it is walked (`WatchSet.WalkExactly`, `WatchSet.RecordingWouldClose`).
- The watch kind of a Reloader's workload has the group in the place of the version
  (`GvkIndices.ReloaderKindsWatchedExactly`), and the Reloader controller never asks for a rebuild
  (`RebuildFlag.ReloaderChangesAreNotSeen`).
- The Classifier, HealthCheck and EventSource indices only add (`GvkIndices.AddingIsExactExactly`).
- A conflict on the status write makes a CloudEvent handler append its event again: delivery is exactly once if and
  only if there was none (`EventReports.StoredOncePlusConflicts`, `EventReports.StatusConflictAppendsTwice`).
- A comment says that a HealthCheckReport is created with a finalizer; the code creates it without one and the report
  controller adds it later. A report without it, or one delivered between the phase reset and the deletion mark, can go
  although its deletion was not delivered; no other can (`ReportLifecycle.GoesUndeliveredExactly`,
  `ReportLifecycle.MarkIsReached`).
- A CloudEvent handler that read the live EventSource can create the report after the deletion was reconciled and
  cleaned up after; nothing then looks at that report again (`ReportLifecycle.OrphanMadeExactly`,
  `ReportLifecycle.OrphanIsReached`).
- Updating the management copy of an EventReport copies the matching resources only, and marks the local report
  Processed all the same (`ManagementCopies.EventCopyAgreesExactly`, `ManagementCopies.LaterCloudEventsStayLocal`,
  `ManagementCopies.ProcessedMeansDeliveredExactly`).
- A version constraint that cannot be built is logged and then used as a nil pointer
  (`Classification.IsVersionAMatch` says exactly when).

## Model

| member | source | states |
|---|---|---|
| ReloaderIndex.GetVolumes | pkg/evaluation/reloader_evaluation.go:482-506 | a reference is listed if and only if it is a v1 ConfigMap of the workload's namespace that some volume names, or a v1 Secret of that namespace that a volume without a ConfigMap names |
| ReloaderIndex.VolumeRefs | pkg/evaluation/reloader_evaluation.go:482-506 | the same for the function that specifies it |
| ReloaderIndex.ReadableCount | pkg/evaluation/reloader_evaluation.go:379-397 | the entries processed before the first workload whose kind is unknown or that cannot be read |
| ReloaderIndex.Index.constructor | pkg/evaluation/reloader_evaluation.go:63-67 | the maps start empty and valid |
| ReloaderIndex.Index.CleanVolumeMap | pkg/evaluation/reloader_evaluation.go:592-600 | the workload leaves every volume, the sets this empties are dropped, nothing else changes |
| ReloaderIndex.Index.CleanReloaderMap | pkg/evaluation/reloader_evaluation.go:560-563 | exactly the Reloader's entry goes |
| ReloaderIndex.Index.CleanResourceMap | pkg/evaluation/reloader_evaluation.go:570-586 | the Reloader leaves every workload, workloads it alone referenced leave every volume, safety is kept |
| ReloaderIndex.Index.UpdateVolumeMap | pkg/evaluation/reloader_evaluation.go:443-480 | it succeeds if and only if the kind is Deployment, StatefulSet or DaemonSet and the workload could be read; then the workload joins exactly the ConfigMaps and Secrets its volumes use; otherwise nothing changes |
| ReloaderIndex.Index.EraseReferrer | pkg/evaluation/reloader_evaluation.go:406-419 | one stale workload loses the Reloader and, if it was the only one, its volumes; found tells whether an entry existed |
| ReloaderIndex.Index.EraseStale | pkg/evaluation/reloader_evaluation.go:404-419 | the same for all stale workloads, whatever the order |
| ReloaderIndex.Index.TrackEntry | pkg/evaluation/reloader_evaluation.go:379-420 | one pass of the loop takes the closed form for n entries to that for n + 1 |
| ReloaderIndex.Index.TrackEntries | pkg/evaluation/reloader_evaluation.go:377-421 | the loop ends in the closed form for the entries read, and in a known state where it fails |
| ReloaderIndex.Index.TrackSpec | pkg/evaluation/reloader_evaluation.go:373-424 | the three maps after evaluating a live Reloader equal the closed form After |
| ReloaderIndex.Index.Evaluate | pkg/evaluation/reloader_evaluation.go:352-424 | every evaluation, successful or not, of a live, deleted or unreadable Reloader gives After and keeps the maps equal to the replay of the history; ok and missed are characterised |
| ReloaderIndex.Index.UpdateReport | pkg/evaluation/reloader_evaluation.go:178-273 | the report keeps what it lists and gains exactly the workloads mounting the volume, all of them referenced by a Reloader; without any it is left alone; it fails exactly when the report cannot be read or created, updated, or given its status |
| ReloaderIndex.ListWorkloads | pkg/evaluation/reloader_evaluation.go:196-204 | every workload of the set is listed once |
| ReloaderIndex.OneEntry | pkg/evaluation/reloader_evaluation.go:379-420 | adding, mounting and erasing against the half-built set is one step of the closed form, so early erasures are undone by later passes |
| ReloaderIndex.OneEntryMounters | pkg/evaluation/reloader_evaluation.go:399-419 | the same, for the workloads of one volume |
| ReloaderIndex.ErasedAlso | pkg/evaluation/reloader_evaluation.go:406-419 | erasing set by set equals erasing one workload after the other |
| ReloaderIndex.ProcessedIsSafe | pkg/evaluation/reloader_evaluation.go:379-420 | after any number of passes no set is empty and every workload under a volume is referenced |
| ReloaderIndex.ProcessedUnique | pkg/evaluation/reloader_evaluation.go:379-420 | lookups determine the maps, so there is one state per number of passes |
| ReloaderIndex.AfterIsSafe | pkg/evaluation/reloader_evaluation.go:352-424 | every evaluation, failed ones included, keeps the index safe |
| ReloaderIndex.MissesAtPass | pkg/evaluation/reloader_evaluation.go:406-412 | a pass meets a missing entry exactly when some stale workload had lost all its Reloaders before |
| ReloaderRuns.EveryRunIsSafe | pkg/evaluation/reloader_evaluation.go:352-424 | on every run no set of resourceMap or volumeMap is empty and every workload under a volume is a key of resourceMap |
| ReloaderRuns.InverseLeftExactly | pkg/evaluation/reloader_evaluation.go:352-424 | from every safe state, an evaluation leaves the two maps in agreement about its Reloader if and only if a condition on the old maps, the spec and the reads holds, and changes nothing about other Reloaders |
| ReloaderRuns.InverseKeptExactly | pkg/evaluation/reloader_evaluation.go:352-424 | from inverse maps an evaluation leads to inverse maps if and only if that condition holds |
| ReloaderRuns.OrderlyRunsStayInverse | pkg/evaluation/reloader_evaluation.go:358-424 | over every run of successful evaluations with non-empty specs and of deletions the two maps are inverse, and a workload's Reloaders are those whose current spec names it |
| ReloaderRuns.ReloadersAreTracked | pkg/evaluation/reloader_evaluation.go:358-424 | on every run reloaderMap holds the last successfully evaluated spec of each existing Reloader |
| ReloaderRuns.DeletionForgets | pkg/evaluation/reloader_evaluation.go:358-371 | a deletion removes the Reloader everywhere, drops the volumes of workloads nobody references any more and of no others |
| ReloaderRuns.VolumesLieBetween | pkg/evaluation/reloader_evaluation.go:352-464 | with changing mounts, a workload's volumes lie between those of its last read and all those read since it was first tracked |
| ReloaderRuns.ConstantReads | pkg/evaluation/reloader_evaluation.go:443-464 | with constant mounts the two bounds coincide for tracked workloads |
| ReloaderRuns.IndexIsRecomputation | pkg/evaluation/reloader_evaluation.go:352-464 | volumeMap of every volume is exactly the workloads that some tracked Reloader names and that mount it |
| ReloaderRuns.OrderDoesNotMatter | pkg/evaluation/reloader_evaluation.go:352-464 | two runs that track the same specs end in the same three maps, whatever their order |
| ReloaderRuns.VolumesExactly | pkg/evaluation/reloader_evaluation.go:352-464 | on every run, failed evaluations and emptied specs included, a workload is under a volume if and only if it mounts it and was read at a time since when it was always referenced and never dropped |
| ReloaderRuns.SpecsAreTracked | pkg/evaluation/reloader_evaluation.go:352-424 | what is tracked for a Reloader is, by name, the spec of its last evaluation in which every kind was known and every workload readable |
| ReloaderRuns.TrackedExactly | pkg/evaluation/reloader_evaluation.go:426-441 | a workload is tracked if and only if some Reloader's current spec has an entry with its kind, namespace and name |
| ReloaderRuns.IndexIsNamedMounters | pkg/evaluation/reloader_evaluation.go:352-464 | the workloads of a volume are exactly those that mount it and that some Reloader's current spec names |
| ReloaderRuns.WorkloadsAreEntries | pkg/evaluation/reloader_evaluation.go:196-204 | on every run the entry written to a report for a workload gives the workload back |
| ReloaderRuns.LookupMissesExactly | pkg/evaluation/reloader_evaluation.go:399-412 | in every state, one of the first m passes looks up a workload without an entry if and only if the entry of a tracked workload other than the first of the spec was missing from the start, or m is at least 2 and a tracked workload besides the first two has no other referrer |
| ReloaderRuns.ShrinkingMisses | pkg/evaluation/reloader_evaluation.go:399-412 | a run after which shrinking the spec from three workloads to two meets the missing entry |
| ReloaderRuns.FailureMakesNextMiss | pkg/evaluation/reloader_evaluation.go:394-412 | a run with a half-failed evaluation after which even a spec with one entry does |
| WorkQueues.JobQueue.Enqueue | pkg/evaluation/manager.go:205-241 | the name joins the queue and no other changes |
| WorkQueues.JobQueue.Drain | pkg/evaluation/classifier_evaluation.go:68-80 | the snapshot lists every queued name once, in any order, and the queue is empty |
| WorkQueues.JobQueue.Round | pkg/evaluation/classifier_evaluation.go:56-105 | without concurrent requests every queued name is evaluated once and exactly the failures are queued again |
| WorkQueues.StepKeepsName | pkg/evaluation/healthcheck_evaluation.go:56-105 | every step keeps the invariant of each name |
| WorkQueues.NoLostRequest | pkg/evaluation/healthcheck_evaluation.go:56-105 | in every interleaving, for a name last requested at step q: an evaluation begun after q has ended without an error, or the name is queued, in the snapshot or failed, or an evaluation begun after q is under way |
| WorkQueues.TimesOfSteps | pkg/evaluation/healthcheck_evaluation.go:56-105 | the times recorded for requests and successful evaluations are those of the steps |
| WorkQueues.QuietMeansServed | pkg/evaluation/eventsource_evaluation.go:59-108 | when nothing is left to do, every request was followed by a Begin of that name whose End was without error |
| WorkQueues.OnlyRequested | pkg/evaluation/eventsource_evaluation.go:59-108 | what waits or is evaluated was requested |
| WorkQueues.RoundKeepsFailures | pkg/evaluation/classifier_evaluation.go:56-105 | the steps of an undisturbed round leave exactly the failed names queued, as JobQueue.Round does |
| WorkQueues.OncePerRound | pkg/evaluation/eventsource_evaluation.go:59-108 | between two evaluations of a name a new round starts |
| JobKeys.ReloaderRoundTrip | pkg/evaluation/manager.go:272-282 | a Reloader key is dispatched back to its Reloader if and only if the name has neither ':' nor '/' |
| JobKeys.NamespacedRoundTrip | pkg/evaluation/reloader_evaluation.go:141-155 | splitting at '/' gives namespace and name back if and only if neither contains '/' |
| JobKeys.VolumeRoundTrip | pkg/evaluation/manager.go:285-308 | the same round trip for ConfigMap and Secret keys |
| JobKeys.RoundTrip | pkg/evaluation/reloader_evaluation.go:102-155 | both kinds of job |
| JobKeys.KeysAreDistinct | pkg/evaluation/manager.go:272-308 | well-named jobs with the same key are the same job |
| JobKeys.DispatchedExactly | pkg/evaluation/reloader_evaluation.go:102-155 | for any key: skipped if and only if it does not have exactly one ':'; a Reloader if and only if no '/' follows it; malformed if and only if more than one does |
| JobKeys.SecondPrefixIsSkipped | pkg/evaluation/reloader_evaluation.go:102-128 | a dispatched key that gets the prefix again has at least three parts and is skipped |
| JobKeys.FailedJobsAreLost | pkg/evaluation/reloader_evaluation.go:102-132 | whatever fails, everything queued again is skipped and two rounds leave nothing of the queue |
| JobKeys.UnchangedKeysWouldBeRetried | pkg/evaluation/reloader_evaluation.go:102-132 | queueing the keys unchanged would keep exactly the failed jobs and dispatch them as before |
| JobKeys.ReloaderQueue.EvaluateReloader | pkg/evaluation/manager.go:272-282 | exactly the Reloader's key joins |
| JobKeys.ReloaderQueue.EvaluateConfigMap | pkg/evaluation/manager.go:285-295 | exactly the ConfigMap's key joins |
| JobKeys.ReloaderQueue.EvaluateSecret | pkg/evaluation/manager.go:298-308 | exactly the Secret's key joins |
| JobKeys.ReloaderQueue.ConfigMapUpdated | controllers/reloader_predicates.go:38-77 | the ConfigMap's key is queued if and only if there was no old object or its data or binary data differ, and no Reloader is reconciled |
| JobKeys.ReloaderQueue.SecretUpdated | controllers/reloader_predicates.go:86-125 | under the same condition on data and string data the key of the ConfigMap of that name is queued |
| JobKeys.ReloaderQueue.EvaluateKey | pkg/evaluation/reloader_evaluation.go:102-130 | an error is returned exactly for malformed names and failing evaluations, never for skipped keys |
| JobKeys.ReloaderQueue.Round | pkg/evaluation/reloader_evaluation.go:70-136 | a round leaves in the queue exactly the failed keys behind one more prefix |
| VolumeChanges.MountedResourceIsEvaluated | pkg/evaluation/reloader_evaluation.go:102-155 | the two ways a key is taken apart give the same volume |
| VolumeChanges.EvaluateMountedResource | pkg/evaluation/reloader_evaluation.go:141-173 | the report gains exactly the workloads the index holds for the volume; the failures of parsing, report and sending are told apart from success exactly |
| VolumeChanges.UpdateReportsExactly | controllers/reloader_predicates.go:38-125 | over every orderly run with unchanging mounts an update lists a workload for reloading if and only if data changed, a current spec names the workload, and it mounts the ConfigMap of that namespace and name |
| VolumeChanges.SecretReportsRightlyExactly | controllers/reloader_predicates.go:86-125 | a changed Secret is reported for exactly the named workloads that mount it if and only if these are the ones that mount the ConfigMap of that name |
| VolumeChanges.ConfigMapChangeReported | controllers/reloader_predicates.go:51-60 | runs in which a Deployment, a StatefulSet or a DaemonSet that mounts a ConfigMap is listed when it changes |
| VolumeChanges.SecretChangeMissed | controllers/reloader_predicates.go:99-110 | runs after which a changed Secret is mounted by a tracked workload and nothing is reported |
| RebuildFlag.StepKeepsFlag | pkg/evaluation/watchers.go:46-86 | every step of requests, changes and builder keeps the flag invariant |
| RebuildFlag.StepKeepsWatches | pkg/evaluation/watchers.go:65-79 | every step keeps the recorded list empty, all watchers open, one informer per kind and the applied list covered |
| RebuildFlag.RequestsOfSteps | pkg/evaluation/watchers.go:46-86 | the requests, the changes since the last one and what each kind of source names are those of the steps |
| RebuildFlag.ListsOfSteps | pkg/evaluation/watchers.go:46-122 | the lists of the builder, and those last applied, were read after the step that cleared the flag |
| RebuildFlag.NoLostRebuild | pkg/evaluation/watchers.go:46-86 | whenever the flag is down and the builder idle, the last list applied or found unchanged is what the four kinds of source named after the step of the last request |
| RebuildFlag.QuietMeansWatched | pkg/evaluation/watchers.go:46-122 | then Secrets, and every kind named by a sort of source unchanged since the last request, have a watcher or are noted as not installed |
| RebuildFlag.CollectedIsBuilt | pkg/evaluation/watchers.go:88-122 | what the builder applies is what buildList returns for the same listings |
| RebuildFlag.RebuildsUndisturbed | pkg/evaluation/watchers.go:46-86 | a requested rebuild that nothing disturbs ends with the flag down and the builder idle, having applied what the sources name; if discovery fails or a watcher cannot be started, with the flag up again |
| RebuildFlag.WatchersOnlyGrow | pkg/evaluation/watchers.go:65-79 | on every run the recorded list is empty, no watcher was ever closed, closing never panics and no second informer is started |
| RebuildFlag.ReloaderChangesAreNotSeen | controllers/reloader_controller.go:122-170 | over every continuation of a quiet state the builder stays quiet if and only if nothing but Reloaders is reconciled, and then the watchers stay what they are, up to the one on Secrets |
| RebuildFlag.ReloaderKindsStayUnwatched | controllers/reloader_controller.go:147-170 | over every such continuation an unwatched kind stays unwatched |
| WatchSet.StringOrder | pkg/evaluation/watchers.go:281-304 | the order of strings is a strict total order |
| WatchSet.StringLessExactly | pkg/evaluation/watchers.go:289-301 | it is the order of dictionaries: a proper prefix first, otherwise the first character that differs decides |
| WatchSet.GvkOrder | pkg/evaluation/watchers.go:289-301 | the comparison of kinds is a strict total order, by group, then version, then kind |
| WatchSet.AscendingIsUnique | pkg/evaluation/watchers.go:281-304 | a set of kinds has one ascending list |
| WatchSet.ListsAreCanonical | pkg/evaluation/watchers.go:66-67 | comparing two built lists is comparing the two sets |
| WatchSet.SortSlice | pkg/evaluation/watchers.go:289-301 | a permutation in which no element is less than an earlier one |
| WatchSet.BuildSortedList | pkg/evaluation/watchers.go:281-304 | the map's kinds, each once, strictly ascending |
| WatchSet.UpdateGrows | pkg/evaluation/watchers.go:306-345 | watchers, unknown kinds and informers only grow, watchers by wanted installed kinds and unknown kinds by wanted ones that are not installed, with one informer per kind |
| WatchSet.UpdateCovers | pkg/evaluation/watchers.go:306-345 | after a successful update every wanted kind has a watcher if installed and is unknown otherwise |
| WatchSet.UpdateSucceedsExactly | pkg/evaluation/watchers.go:306-345 | it succeeds if and only if every wanted installed kind has a watcher or can get one |
| WatchSet.Copied | pkg/evaluation/watchers.go:76 | copying overwrites from the start as far as both slices go and never changes the length |
| WatchSet.WatchManager.constructor | pkg/evaluation/manager.go:125-135 | no watchers, and a recorded list of length 0 |
| WatchSet.WatchManager.StartWatcher | pkg/evaluation/watchers.go:421-441 | an informer is started exactly for a kind that has no watcher, and only if it can be built |
| WatchSet.ShortWalkPanics | pkg/evaluation/watchers.go:330-342 | a walk with fewer kinds left than positions to visit panics |
| WatchSet.WalkExactly | pkg/evaluation/watchers.go:330-342 | the walk closes nothing if and only if every recorded kind is wanted or the first that is not has no watcher; it panics unless that first one is the last of the list and has a watcher; what is left and closed otherwise |
| WatchSet.ClosedAreStale | pkg/evaluation/watchers.go:330-342 | only recorded kinds that are not wanted and have a watcher are closed |
| WatchSet.ApplyRecordsNothing | pkg/evaluation/watchers.go:64-79 | with nothing recorded, applying a list records nothing, closes nothing, does not panic, keeps all watchers and covers the list; failed discovery changes nothing |
| WatchSet.RecordingWouldClose | pkg/evaluation/watchers.go:306-345 | with recorded kinds that have watchers, an update panics if and only if it drops one that is not the last, and closes the last one if it drops just that |
| WatchSet.WatchManager.CancelStale | pkg/evaluation/watchers.go:330-342 | the loop is the walk: what stays recorded, which watchers are closed in which order, and whether it panics |
| WatchSet.WatchManager.UpdateWatchers | pkg/evaluation/watchers.go:306-345 | starting the missing watchers and closing the stale ones gives the state and outcome of UpdatedFor; nothing changes when discovery fails |
| WatchSet.WatchManager.Apply | pkg/evaluation/watchers.go:64-79 | comparing, updating and copying gives AppliedTo, the function the rebuild flag's builder is defined by |
| GvkIndices.GvkIndex.constructor | controllers/healthcheck_controller.go:191-222 | an empty index says what an empty history says |
| GvkIndices.GvkIndex.Insert | controllers/healthcheck_controller.go:202-222 | the source joins exactly the listed kinds |
| GvkIndices.GvkIndex.Erase | controllers/reloader_controller.go:240-248 | the source leaves exactly the kinds that are not kept |
| GvkIndices.GvkIndex.UpdateMaps | controllers/reloader_controller.go:225-257 | the Reloader index lists a source under exactly the kinds of its last reconciled spec; the adding index under those of all specs since its last deletion |
| GvkIndices.GvkIndex.UpdateReloader | controllers/reloader_controller.go:225-257 | a Reloader is under exactly the apps/v1 kinds of the workloads it names, and other Reloaders are where they were |
| GvkIndices.GvkIndex.CleanMaps | controllers/eventsource_controller.go:198-207 | a source whose deletion was reconciled is under no kind |
| GvkIndices.GvkIndex.React | controllers/healthcheck_controller.go:226-243 | exactly the indexed sources are queued: every source whose last reconciled spec names the kind, and none whose deletion was reconciled |
| GvkIndices.AddingFindsAllLive | controllers/classifier_controller.go:197-250 | an index that only adds contains the exact one and nothing of deleted sources |
| GvkIndices.AddingIsExactExactly | controllers/eventsource_controller.go:209-229 | reconciling a spec makes the adding index exact for the source if and only if the spec still names every kind named before |
| GvkIndices.BuildListFor | pkg/evaluation/watchers.go:124-279 | exactly the kinds that undeleted instances name; none for an API that does not exist; an error otherwise |
| GvkIndices.BuildList | pkg/evaluation/watchers.go:88-122 | every kind an undeleted source of any sort names, Secrets, and nothing else; it fails exactly when a listing fails |
| GvkIndices.ReloaderKindsWatchedExactly | pkg/evaluation/watchers.go:88-279 | for every built list the kind a Reloader is indexed under is in it if and only if a Classifier, HealthCheck or EventSource names it, and the kind Reloaders ask for if and only if any source names it |
| EventReports.StepKeepsInv | pkg/evaluation/eventsource_evaluation.go:169-240 | every API call and every foreign write keeps the invariant of the report and of all calls |
| EventReports.NoLostUpdate | pkg/evaluation/eventsource_evaluation.go:169-240 | in every interleaving the report's CloudEvents are exactly those its successful writes appended, in order, and its resources those of the last successful resource write |
| EventReports.ReportIsItsSteps | pkg/evaluation/eventsource_evaluation.go:169-240 | in every interleaving the report's CloudEvents are those of the writing steps since it was created, in order, its resources those of the last evaluation written, its phase the last one written: waiting if that was a call's status write |
| EventReports.WaitingUntilTouched | pkg/evaluation/eventsource_evaluation.go:230-240 | after a call returned without error the report waits for delivery until another actor writes its status |
| EventReports.CallsOfSteps | pkg/evaluation/eventsource_evaluation.go:169-198 | the calls are those the steps started, with their payloads, and there is a report exactly if a call created it and it was not removed since |
| EventReports.ConflictIsRetried | pkg/evaluation/eventsource_evaluation.go:175-197 | a call that lost a race starts again and, left alone, stores its event and succeeds |
| EventReports.OtherRacesAreLost | pkg/evaluation/eventsource_evaluation.go:175-197 | a call that finds a report where it saw none, or none where it saw one, returns an error |
| EventReports.FirstCallSucceeds | pkg/evaluation/eventsource_evaluation.go:169-198 | undisturbed, the first call creates the report with its event, waiting for delivery, and succeeds |
| EventReports.SuccessMeansPresent | pkg/evaluation/eventsource_evaluation.go:169-240 | a call that returns without error has its event in the report for as long as that report lives |
| EventReports.StepOnlyAppends | pkg/evaluation/eventsource_evaluation.go:201-227 | no step shortens or rewrites the CloudEvents, and a new report has a new uid |
| EventReports.EventsOnlyGrow | pkg/evaluation/eventsource_evaluation.go:201-227 | between any two moments of one report's life its CloudEvents only grow at the end |
| EventReports.StoredOncePlusConflicts | pkg/evaluation/eventsource_evaluation.go:169-240 | in every run a successful call has stored its event, in the report that lives, once plus once per status write it lost: exactly once if and only if it lost none |
| EventReports.FailedCallStores | pkg/evaluation/eventsource_evaluation.go:169-240 | a failed call has stored it as often as it lost status writes, or once more |
| EventReports.StatusConflictAppendsTwice | pkg/evaluation/eventsource_evaluation.go:175-196 | a run in which one successful call leaves its event in the report twice |
| ReportLifecycle.CleanCallLeavesNone | pkg/evaluation/healthcheck_evaluation.go:213-244 | cleaning succeeds only when no unmarked report is left |
| ReportLifecycle.StepKeepsLate | controllers/eventsource_controller.go:120-182 | every step keeps: once a deletion was reconciled, a worker that still acts for the live source has the name queued |
| ReportLifecycle.OrphanMadeExactly | pkg/evaluation/nats_evaluation.go:395-445 | a step leaves an unmarked report of a deleted source unknown to the worker if and only if it is the creation of that report by a CloudEvent handler that saw the source alive, after the cleaning, with the name not pending |
| ReportLifecycle.NoOrphanWithoutLateCreation | pkg/evaluation/eventsource_evaluation.go:112-272 | in every interleaving without such a creation there is no orphan, for Classifiers, HealthChecks and EventSources |
| ReportLifecycle.NoOrphanReport | pkg/evaluation/healthcheck_evaluation.go:56-148 | for Classifiers and HealthChecks, in every interleaving, once the source's deletion was reconciled, an unmarked report is still queued, drained, in flight or failed, even if a late evaluation wrote it again |
| ReportLifecycle.OrphanIsReached | pkg/evaluation/nats_evaluation.go:395-445 | a run that ends with the report of an EventSource that no longer exists, and nobody to clean it |
| ReportLifecycle.StepKeepsPhase | controllers/healthcheckreport_controller.go:45-88 | every step keeps the order between phase writes, reset and deletion mark |
| ReportLifecycle.ReleasedOnlyWhenProcessed | controllers/healthcheckreport_controller.go:67-81 | a marked HealthCheckReport with a finalizer disappears only with phase Processed written after the reset made for that deletion, and after the mark too unless it was Processed when marked |
| ReportLifecycle.SourceReleasedOnlyAfterReport | controllers/healthcheck_controller.go:120-149 | in every run a HealthCheck with a finalizer disappears only when its report is absent or was Processed after the reset made for its deletion, and its name is then queued once more |
| ReportLifecycle.SourceReleasedExactly | controllers/eventsource_controller.go:120-150 | reconciling a deletion lets the source go if and only if it is a Classifier, or its report was readable and absent, or marked and Processed; the name is queued either way |
| ReportLifecycle.ReconciledOfSteps | controllers/classifier_controller.go:127-155 | a deletion counts as reconciled exactly if that is the last thing the steps did to the source |
| ReportLifecycle.EvaluatesUndisturbed | pkg/evaluation/healthcheck_evaluation.go:109-211 | the calls of an undisturbed evaluation: the report is written and waits; it is sent exactly if reports are to be sent; it ends as Processed exactly if the copy existed and it is no Classifier's |
| ReportLifecycle.RaceIsLost | pkg/evaluation/eventsource_evaluation.go:175-197 | a write that lost against a newer version is made again from the read on for an EventSource, and fails the evaluation otherwise |
| ReportLifecycle.AbsentReportFails | pkg/evaluation/healthcheck_evaluation.go:151-244 | a write, send, reset or deletion of a report that is no longer there fails the evaluation |
| ReportLifecycle.CleansUndisturbed | pkg/evaluation/healthcheck_evaluation.go:213-244 | an undisturbed cleaning leaves the report gone, or marked and waiting, according to its finalizer |
| ReportLifecycle.GoesUndeliveredExactly | pkg/evaluation/healthcheck_evaluation.go:229-243 | some continuation loses the marked report without any delivery since the mark if and only if, when marked, it had no finalizer or was Processed |
| ReportLifecycle.ProcessedAfterMarkExactly | pkg/evaluation/healthcheck_evaluation.go:229-243 | in every run, for as long as the marked report is there, its last Processed is later than the mark if and only if something was delivered since |
| ReportLifecycle.MarkIsReached | pkg/evaluation/healthcheck_evaluation.go:213-244 | runs from the start lead to the mark with and without a finalizer, with and without a delivery since the reset |
| ManagementCopies.LocalIsLastEvaluated | pkg/evaluation/healthcheck_evaluation.go:151-198 | the local report carries the result of the last evaluation since it was cleaned |
| ManagementCopies.CopyAgrees | pkg/evaluation/healthcheck_evaluation.go:385-445 | over every run the copy names this cluster and source and carries what had been evaluated before the last successful send, on create and update |
| ManagementCopies.SendAgreesExactly | pkg/evaluation/classifier_evaluation.go:554-607 | whoever wrote the copy before, a send makes it agree if and only if it creates it or the copy names this source and this cluster's namespace and name |
| ManagementCopies.SendMakesAgree | pkg/evaluation/classifier_evaluation.go:554-607 | right after a successful send the copy equals the local report with this cluster's identity |
| ManagementCopies.EventCopyAgreesExactly | pkg/evaluation/eventsource_evaluation.go:603-663 | a send makes the EventReport copy agree if and only if it creates it or the fields it does not write agree already |
| ManagementCopies.LaterCloudEventsStayLocal | pkg/evaluation/eventsource_evaluation.go:642-662 | however often a report is sent, the copy keeps the CloudEvents and resources it was created with |
| ManagementCopies.ProcessedMeansDeliveredExactly | pkg/evaluation/eventsource_evaluation.go:628-662 | every send but the creating one marks the report Processed, and that is true of its CloudEvents if and only if they are those the copy was created with |
| CloudEvents.AnyMatchExactly | pkg/evaluation/nats_evaluation.go:447-475 | a criteria matches if and only if each of its four expressions is empty or matches the attribute of the same name |
| CloudEvents.OneExpression | pkg/evaluation/nats_evaluation.go:447-475 | with one expression the verdict is that of the regular expression on that attribute; an expression that does not compile matches nothing |
| CloudEvents.ProcessCriteria | pkg/evaluation/nats_evaluation.go:419-444 | one createEventReport call if and only if some criteria selects the message, and its error is passed on |
| CloudEvents.VisitKeepsAttempt | pkg/evaluation/nats_evaluation.go:395-445 | coming to one EventSource, which may start a call of createEventReport, keeps the attempt's invariant |
| CloudEvents.FinishKeepsAttempt | pkg/evaluation/nats_evaluation.go:423-439 | so does the return of that call, with or without error |
| CloudEvents.StepKeepsInv | pkg/evaluation/nats_evaluation.go:371-445 | every step of deliveries, sources, registrations and of any writer of any report keeps all attempts' invariants |
| CloudEvents.AttemptsOfSteps | pkg/evaluation/nats_evaluation.go:371-445 | what an attempt records of its message, snapshot and visits is what happened at the steps |
| CloudEvents.VisitsAreSent | pkg/evaluation/nats_evaluation.go:423-439 | a visit with a call is done only after the call returned and sending succeeded |
| CloudEvents.AckMeansDelivered | pkg/evaluation/nats_evaluation.go:235-263 | in every run a message delivered at step d is acknowledged only after every EventSource registered then was visited; a createEventReport call was made exactly for those live then with a criteria selecting the message; it succeeded and the report was sent, and that report, while it lives, holds the event, stored by that call once plus once per status write it lost |
| CloudEvents.OneVisitPerSource | pkg/evaluation/nats_evaluation.go:371-393 | one attempt comes to an EventSource at most once |
| CloudEvents.DeliveryIsAcked | pkg/evaluation/nats_evaluation.go:235-263 | undisturbed, a message that an EventSource selects is stored in its report and acknowledged |
| CloudEvents.OneCreatePerSource | pkg/evaluation/nats_evaluation.go:371-445 | one attempt calls createEventReport at most once per EventSource |
| CollectedResources.MarshalSlice | pkg/evaluation/eventsource_evaluation.go:585-599 | the documents in order, each followed by the separator; an error exactly when one cannot be marshalled |
| CollectedResources.GetEventMatchingResources | pkg/evaluation/eventsource_evaluation.go:275-305 | one reference per fetched resource, in order, never nil; all resources or none are collected |
| CollectedResources.EvaluatedPayload | pkg/evaluation/eventsource_evaluation.go:130-151 | what is written to the report: every reference, and a text whose pieces are the documents of those references in order if and only if every document is plain; an error exactly when a collected resource cannot be marshalled |
| CollectedResources.PlainExactly | pkg/evaluation/eventsource_evaluation.go:585-599 | a document is plain if and only if it has no "---" inside and does not end with '-' |
| CollectedResources.DecodableExactly | pkg/evaluation/eventsource_evaluation.go:585-599 | splitting the text gives back the documents and one empty piece if and only if every document is plain |
| Classification.IsVersionAMatch | pkg/evaluation/classifier_evaluation.go:163-217 | true if and only if every constraint holds, false exactly when the first one that does not hold is well formed, a call on a nil constraint exactly when it is malformed, an error exactly when the version cannot be read |
| Classification.ComparisonsExactly | pkg/evaluation/classifier_evaluation.go:187-206 | the versions each of the six comparisons accepts, component by component |
| Classification.ComparisonLaws | pkg/evaluation/classifier_evaluation.go:187-206 | ">" and "<=" are complementary, so are "<" and ">=", and "=" and "!="; "=" is ">=" and "<=" together; bounds stay met in their direction |
| Classification.BelowIsLexicographic | pkg/evaluation/classifier_evaluation.go:187-206 | precedence decides at the first differing component and is a strict total order |
| Classification.Check | pkg/evaluation/classifier_evaluation.go:187-211 | the comparison of a constraint holds exactly as Holds says |
| Classification.AcceptedVersionsAreConvex | pkg/evaluation/classifier_evaluation.go:187-214 | between two accepted versions a version is accepted if and only if no "!=" constraint names it |
| Classification.ChosenExactly | pkg/evaluation/classifier_evaluation.go:352-363 | a resource is selected as often as it is listed if its script says so, and not at all otherwise |
| Classification.ChosenInOrder | pkg/evaluation/classifier_evaluation.go:352-363 | selection keeps the order of the list |
| Classification.ConcatenatedInOrder | pkg/evaluation/classifier_evaluation.go:256 | what the selectors found is put together in their order |
| Classification.GetResourcesForSelector | pkg/evaluation/classifier_evaluation.go:340-366 | the listed resources that the script accepts, in order; an error exactly when the listing or a script fails; nothing for an API that does not exist |
| Classification.FirstMiss | pkg/evaluation/classifier_evaluation.go:240-257 | every selector before the result finds a resource, the one at it does not |
| Classification.AreResourcesAMatch | pkg/evaluation/classifier_evaluation.go:225-265 | without a constraint true; without a script the first selector that finds nothing decides between error and false; with one its verdict on all resources in selector order |
| Classification.Classify | pkg/evaluation/classifier_evaluation.go:128-140 | Match is the resource verdict if every version constraint holds; otherwise the first constraint that does not hold decides, and no resource is looked at; no verdict without a version |
| Classification.MatchesExactly | pkg/evaluation/classifier_evaluation.go:219-265 | without a script the verdict is true if and only if every selector finds a resource |
| Classification.OrderDoesNotMatter | pkg/evaluation/classifier_evaluation.go:240-257 | a match never depends on the order of the selectors, and no verdict does unless one selector fails and another is empty |
| Classification.OrderDecides | pkg/evaluation/classifier_evaluation.go:240-257 | where one fails and another is empty, either verdict is given by some order |

## Left out

- Lua scripts, JSON conversion, regular expressions and the parsing of versions are parameters: a function or an `Option`.
- Classification.IsVersionAMatch: constraints with partial versions ("1.2"), wildcards or pre-release parts are not modelled, because what they mean is decided by the version library, which is not part of this model.
- Kubernetes clients, discovery, REST mapping, informers, kubeconfig files, NATS connections and TLS options: input and output only.
- Sleeping, requeue delays, stale informer caches and restarts of the process; the safety results do not need them. Liveness (that every request is served in the end) is not stated.
- The library's set type is not part of this model: finite sets stand for it, and what it does on a nil set is not modelled; a missing `resourceMap` entry counts as the empty set.
- Report names and labels: a report is identified with its source's name.
- The step systems of `EventReports`, `ReportLifecycle`, `CloudEvents`, `RebuildFlag` and the concurrent part of `WorkQueues` work on values, so the aliasing of Go objects within one call is not captured; reads of the API server are linearizable and one reconcile is one step.
- Adding and removing finalizers has its intended effect; how `controllers/utils.go` builds the patch is not modelled.
- ReportLifecycle.ReleasedOnlyWhenProcessed: is stated for HealthCheckReports; a CloudEvent handler may clean up an EventReport at the same time as the worker, and delete by name a report that was created after its reset.
- Sending and deleting ReloaderReports, and the reports' status in the management cluster.
- Health scripts, event selection scripts and the aggregated selection of EventSources: their loops have the shape of the selector loops in `Classification`.
- The Classifier controller's index of Classifiers by Kubernetes version, and its removal of a deleted Classifier from the index inline instead of in a method of its own.
- Go compares strings byte by byte; `WatchSet.Less` compares character by character, which agrees for the names Kubernetes allows.
- NATS core subscriptions: only JetStream has acknowledgements.
- Data races of the Go memory model, such as starting the Secret watcher without a lock: such a step is atomic here.
- ReportLifecycle.Next: Deliver writes Processed on any existing report, so it covers the management cluster's writes without modelling what it reads.
- Node controller, command line, logging, RBAC manifests and samples.
