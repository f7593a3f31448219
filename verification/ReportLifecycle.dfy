/**
 * The life of one Classifier, HealthCheck or EventSource and of its report: the source controller, the report
 * controller, the evaluation worker with its queue, for an EventSource the CloudEvent handlers, and the management
 * cluster, interleaved in any order. Reads and writes of worker and handlers are separate steps; a reconcile is one.
 */
module ReportLifecycle {
  import opened Prelude

  datatype Kind = Classifier | HealthCheck | EventSource

  datatype Source = Absent | Live(finalizer: bool) | Terminating

  /**
   * A deletion mark: the version of the phase reset made for it, the version it was made at, and whether the phase
   * had been written to Processed again by then.
   */
  datatype Mark = Mark(reset: nat, at: nat, early: bool)

  /** The stored report. waitingAt and processedAt are the versions at which those phases were last written. */
  datatype Report = Report(
    version: nat, phase: Option<Phase>, waitingAt: nat, processedAt: nat,
    finalizer: bool, deleting: Option<Mark>)

  /** Where the worker stands in evaluating this name, or a handler in processing a CloudEvent for it. */
  datatype Evaluation =
    | ReadingSource
    | ReadingReport
    | Writing(found: Option<nat>)
    | MarkingWaiting(seen: nat)
    | Sending
    | MarkingProcessed(seen: nat)
    | Cleaning
    | Resetting(seen: nat)
    | Deleting(reset: nat)

  /** The API server's view: the report and the revision counter that versions come from. */
  datatype Store = Store(report: Option<Report>, revision: nat)

  /** The worker's view of this name: in the queue, in the drained snapshot, in hand, in the failed list. */
  datatype Worker = Worker(queued: bool, drained: bool, running: Option<Evaluation>, failed: bool)

  /** handlers holds every handler started so far, None once it has returned; only EventSources have any. */
  datatype System = System(
    kind: Kind, sends: bool, source: Source, reconciled: bool, store: Store, worker: Worker,
    handlers: seq<Option<Evaluation>>)

  /**
   * created: sending created the management copy. answered: the caller learns how its API call ended; otherwise it
   * returns an error although the call may have been stored, as the worker does in Unanswered.
   */
  datatype Step =
    | CreateSource
    | DeleteSource
    | ReconcileNormal
    | ReconcileDelete(readable: bool)
    | Request
    | Drain
    | Take
    | Advance(created: bool)
    | Unanswered(created: bool)
    | Fail
    | Requeue
    | ReconcileReport
    | Deliver
    | Handle
    | HandlerAdvance(h: nat, created: bool, answered: bool)
    | HandlerStop(h: nat)

  function Initial(kind: Kind, sends: bool): System {
    System(kind, sends, Absent, false, Store(None, 0), Worker(false, false, None, false), [])
  }

  // ----- calls on the store -----

  /** The next version of report r is stored. */
  function Put(store: Store, r: Report): Store {
    Store(Some(r.(version := store.revision + 1)), store.revision + 1)
  }

  function PutPhase(store: Store, r: Report, phase: Phase): Store {
    var v := store.revision + 1;
    Put(store, if phase.Processed? then r.(phase := Some(phase), processedAt := v) else r.(phase := Some(phase), waitingAt := v))
  }

  /** A marked report disappears once nothing holds it. */
  function PutOrRemove(store: Store, r: Report): Store {
    if r.deleting.Some? && !r.finalizer then store.(report := None) else Put(store, r)
  }

  predicate Matches(store: Store, seen: nat) {
    store.report.Some? && store.report.value.version == seen
  }

  /** The source controller may let the HealthCheck go. */
  predicate CanRemoveFinalizer(store: Store) {
    store.report.None? || (store.report.value.deleting.Some? && store.report.value.phase == Some(Processed))
  }

  /** How one API call of the worker ends: another call follows, or the evaluation returns. */
  datatype Outcome = Then(next: Evaluation) | Succeeded | Errored

  predicate ForLive(ev: Evaluation) {
    ev.ReadingReport? || ev.Writing? || ev.MarkingWaiting? || ev.Sending? || ev.MarkingProcessed?
  }

  /** A write that lost against a newer version: createEventReport starts again, the others return the error. */
  function Conflict(kind: Kind, store: Store): Outcome {
    if kind.EventSource? && store.report.Some? then Then(ReadingReport) else Errored
  }

  /** The next call on behalf of a live source. */
  function ReportCall(kind: Kind, sends: bool, store: Store, ev: Evaluation, created: bool): (Store, Outcome)
    requires ForLive(ev)
  {
    match ev
    case ReadingReport => (store, Then(Writing(if store.report.Some? then Some(store.report.value.version) else None)))
    case Writing(found) =>
      if found.None? && store.report.None? then
        (Put(store, Report(0, None, 0, 0, false, None)), Then(MarkingWaiting(store.revision + 1)))
      else if found.Some? && Matches(store, found.value) then
        (Put(store, store.report.value), Then(MarkingWaiting(store.revision + 1)))
      else (store, if found.Some? then Conflict(kind, store) else Errored)
    case MarkingWaiting(seen) =>
      if Matches(store, seen) then
        (PutPhase(store, store.report.value, WaitingForDelivery), if sends then Then(Sending) else Succeeded)
      else (store, Conflict(kind, store))
    case Sending =>
      (store, if store.report.None? then Errored
      else if created || kind.Classifier? then Succeeded
      else Then(MarkingProcessed(store.report.value.version)))
    case MarkingProcessed(seen) =>
      if Matches(store, seen) then (PutPhase(store, store.report.value, Processed), Succeeded) else (store, Errored)
  }

  /** The next call in cleaning up after a source that is gone. */
  function CleanCall(kind: Kind, store: Store, ev: Evaluation): (Store, Outcome)
    requires ev.Cleaning? || ev.Resetting? || ev.Deleting?
  {
    match ev
    case Cleaning =>
      (store, if store.report.None? then Succeeded
      else if kind.Classifier? then Then(Deleting(0))
      else if store.report.value.deleting.Some? then Succeeded
      else Then(Resetting(store.report.value.version)))
    case Resetting(seen) =>
      if Matches(store, seen) then
        (PutPhase(store, store.report.value, WaitingForDelivery), Then(Deleting(store.revision + 1)))
      else (store, Errored)
    case Deleting(reset) =>
      if store.report.None? then (store, Errored)
      else
        var r := store.report.value;
        var mark := Mark(reset, store.revision + 1, r.phase == Some(Processed));
        (PutOrRemove(store, if r.deleting.Some? then r else r.(deleting := Some(mark))), Succeeded)
  }

  function WorkerCall(s: System, ev: Evaluation, created: bool): (Store, Outcome) {
    if ForLive(ev) then ReportCall(s.kind, s.sends, s.store, ev, created)
    else if ev.ReadingSource? then (s.store, Then(if s.source.Live? then ReadingReport else Cleaning))
    else CleanCall(s.kind, s.store, ev)
  }

  /** One reconcile of the report: it gains its finalizer while it lives, and loses it once marked and Processed. */
  function ReportReconciled(store: Store): Store {
    if store.report.None? then store
    else
      var r := store.report.value;
      if r.deleting.None? then (if r.finalizer then store else Put(store, r.(finalizer := true)))
      else if r.phase == Some(Processed) && r.finalizer then PutOrRemove(store, r.(finalizer := false))
      else store
  }

  // ----- steps -----

  function AfterCall(w: Worker, outcome: Outcome): Worker {
    match outcome
    case Then(next) => w.(running := Some(next))
    case Succeeded => w.(running := None)
    case Errored => w.(running := None, failed := true)
  }

  predicate Handling(s: System, h: nat) {
    h < |s.handlers| && s.handlers[h].Some?
  }

  /** The effect of one step; a step that is not possible leaves the system alone. */
  function Next(s: System, step: Step): (s': System)
    ensures s'.kind == s.kind
  {
    var w := s.worker;
    match step
    case CreateSource => if s.source.Absent? then s.(source := Live(false), reconciled := false) else s
    case DeleteSource =>
      if s.source.Live? then s.(source := if s.source.finalizer then Terminating else Absent, reconciled := false) else s
    case ReconcileNormal => if s.source.Live? then s.(source := Live(true), worker := w.(queued := true)) else s
    case ReconcileDelete(readable) =>
      if s.source.Terminating? then
        var gone := s.kind.Classifier? || (readable && CanRemoveFinalizer(s.store));
        s.(source := if gone then Absent else Terminating, reconciled := true, worker := w.(queued := true))
      else s
    case Request => s.(worker := w.(queued := true))
    case Drain =>
      if !w.drained && w.running.None? && !w.failed then s.(worker := w.(queued := false, drained := w.queued)) else s
    case Take =>
      if w.drained && w.running.None? then s.(worker := w.(drained := false, running := Some(ReadingSource))) else s
    case Advance(created) =>
      if w.running.None? then s
      else
        var (store, outcome) := WorkerCall(s, w.running.value, created);
        s.(store := store, worker := AfterCall(w, outcome))
    case Unanswered(created) =>
      if w.running.None? then s
      else s.(store := WorkerCall(s, w.running.value, created).0, worker := AfterCall(w, Errored))
    case Fail => if w.running.Some? then s.(worker := AfterCall(w, Errored)) else s
    case Requeue => if w.failed && w.running.None? then s.(worker := w.(failed := false, queued := true)) else s
    case ReconcileReport => if !s.kind.Classifier? then s.(store := ReportReconciled(s.store)) else s
    case Deliver =>
      if s.store.report.Some? then s.(store := PutPhase(s.store, s.store.report.value, Processed)) else s
    case Handle => if s.kind.EventSource? then s.(handlers := s.handlers + [Some(ReadingSource)]) else s
    case HandlerAdvance(h, created, answered) =>
      if !Handling(s, h) then s
      else
        var (store, outcome) := WorkerCall(s, s.handlers[h].value, created);
        s.(store := store, handlers := s.handlers[h := if answered && outcome.Then? then Some(outcome.next) else None])
    case HandlerStop(h) => if Handling(s, h) then s.(handlers := s.handlers[h := None]) else s
  }

  function Exec(kind: Kind, sends: bool, steps: seq<Step>): (s: System)
    ensures s.kind == kind
  {
    if steps == [] then Initial(kind, sends)
    else Next(Exec(kind, sends, steps[..|steps| - 1]), steps[|steps| - 1])
  }

  // ----- no report outlives its source unnoticed -----

  predicate Pending(w: Worker) {
    w.queued || w.drained || w.running.Some? || w.failed
  }

  predicate Unmarked(store: Store) {
    store.report.Some? && store.report.value.deleting.None?
  }

  /** The source is gone for good, its report is not, and nobody is going to look. */
  predicate Orphan(s: System) {
    s.reconciled && Unmarked(s.store) && !Pending(s.worker)
  }

  /** A worker that still acts for a live source that has been deleted will have to come back. */
  ghost predicate LateInv(s: System) {
    && (s.reconciled ==> !s.source.Live? && (s.worker.running.Some? && ForLive(s.worker.running.value) ==> s.worker.queued))
    && (!s.kind.EventSource? ==> s.handlers == [])
  }

  /** Cleaning up succeeds only when no unmarked report is left. */
  lemma CleanCallLeavesNone(kind: Kind, store: Store, ev: Evaluation)
    requires ev.Cleaning? || ev.Resetting? || ev.Deleting?
    ensures var (store', outcome) := CleanCall(kind, store, ev);
            && (outcome.Succeeded? ==> !Unmarked(store'))
            && (outcome.Then? ==> outcome.next.Resetting? || outcome.next.Deleting?)
  {}

  lemma ReportCallGoesOn(kind: Kind, sends: bool, store: Store, ev: Evaluation, created: bool)
    requires ForLive(ev)
    ensures var (_, outcome) := ReportCall(kind, sends, store, ev, created);
            outcome.Then? ==> ForLive(outcome.next)
  {}

  lemma StepKeepsLate(s: System, step: Step)
    requires LateInv(s)
    ensures LateInv(Next(s, step))
  {
    if step.Advance? && s.worker.running.Some? && ForLive(s.worker.running.value) {
      ReportCallGoesOn(s.kind, s.sends, s.store, s.worker.running.value, step.created);
    }
  }

  lemma {:induction false} LateAlwaysHolds(kind: Kind, sends: bool, steps: seq<Step>)
    ensures LateInv(Exec(kind, sends, steps))
  {
    if steps != [] {
      LateAlwaysHolds(kind, sends, steps[..|steps| - 1]);
      StepKeepsLate(Exec(kind, sends, steps[..|steps| - 1]), steps[|steps| - 1]);
    }
  }

  /**
   * A CloudEvent handler that saw the source alive creates its report after the deletion was reconciled and cleaned up
   * after, when the name is neither queued nor in the worker's hands.
   */
  predicate CreatesLate(s: System, step: Step) {
    && step.HandlerAdvance? && Handling(s, step.h) && s.handlers[step.h] == Some(Writing(None))
    && s.reconciled && s.store.report.None? && !Pending(s.worker)
  }

  /** What a call of worker or handler does to an unmarked report. */
  lemma CallCreatesExactly(s: System, ev: Evaluation, created: bool)
    ensures var (store, _) := WorkerCall(s, ev, created);
            Unmarked(store) ==> Unmarked(s.store) || (s.store.report.None? && ev == Writing(None))
    ensures ev == Writing(None) && s.store.report.None? ==> Unmarked(WorkerCall(s, ev, created).0)
  {}

  /** A step makes an orphan if and only if it is such a late creation. */
  lemma OrphanMadeExactly(s: System, step: Step)
    requires LateInv(s) && !Orphan(s)
    ensures Orphan(Next(s, step)) <==> CreatesLate(s, step)
  {
    if step.HandlerAdvance? && Handling(s, step.h) {
      CallCreatesExactly(s, s.handlers[step.h].value, step.created);
    } else if (step.Advance? || step.Unanswered?) && s.worker.running.Some? {
      var ev := s.worker.running.value;
      CallCreatesExactly(s, ev, step.created);
      if ev.Cleaning? || ev.Resetting? || ev.Deleting? {
        CleanCallLeavesNone(s.kind, s.store, ev);
      }
    }
  }

  /** Some step of the run creates the report late. */
  ghost predicate LateCreation(kind: Kind, sends: bool, steps: seq<Step>) {
    exists k | 0 <= k < |steps| :: CreatesLate(Exec(kind, sends, steps[..k]), steps[k])
  }

  /**
   * In every interleaving without a late creation, once the deletion of the source has been reconciled, an unmarked
   * report is still known to the worker: queued, drained, being evaluated or in the failed list. An evaluation that
   * read the live source before it was deleted may write the report again, but then the name is queued.
   */
  lemma {:induction false} NoOrphanWithoutLateCreation(kind: Kind, sends: bool, steps: seq<Step>)
    requires !LateCreation(kind, sends, steps)
    ensures !Orphan(Exec(kind, sends, steps))
  {
    if steps != [] {
      var before := steps[..|steps| - 1];
      assert !LateCreation(kind, sends, before) by {
        assert forall k | 0 <= k < |before| :: before[..k] == steps[..k] && before[k] == steps[k];
      }
      NoOrphanWithoutLateCreation(kind, sends, before);
      LateAlwaysHolds(kind, sends, before);
      OrphanMadeExactly(Exec(kind, sends, before), steps[|steps| - 1]);
    }
  }

  /** Only EventSources have handlers, so for Classifiers and HealthChecks this holds in every interleaving. */
  lemma NoOrphanReport(kind: Kind, sends: bool, steps: seq<Step>)
    requires !kind.EventSource?
    ensures var s := Exec(kind, sends, steps); s.reconciled && Unmarked(s.store) ==> Pending(s.worker)
  {
    forall k | 0 <= k < |steps| ensures !CreatesLate(Exec(kind, sends, steps[..k]), steps[k]) {
      LateAlwaysHolds(kind, sends, steps[..k]);
    }
    NoOrphanWithoutLateCreation(kind, sends, steps);
  }

  // ----- the finalizer protocol -----

  ghost predicate StoreInv(kind: Kind, store: Store) {
    store.report.Some? ==>
      var r := store.report.value;
      && r.waitingAt <= store.revision && r.processedAt <= store.revision
      && (r.phase == Some(Processed) ==> r.processedAt > r.waitingAt)
      && (r.deleting.Some? ==>
            var mark := r.deleting.value;
            && mark.reset <= r.waitingAt && mark.at <= store.revision && (kind.HealthCheck? ==> mark.reset > 0)
            && (r.phase == Some(Processed) ==> mark.early || r.processedAt > mark.at))
  }

  /** The worker is about to delete the report, and it has reset the phase for that. */
  ghost predicate ResetInv(kind: Kind, store: Store, ev: Evaluation) {
    ev.Deleting? ==>
      && (kind.HealthCheck? ==> ev.reset > 0)
      && (store.report.Some? ==> ev.reset <= store.report.value.waitingAt)
  }

  /** A handler may clean up at the same time as the worker, so that this is claimed where there are none. */
  ghost predicate PhaseInv(s: System) {
    && s.handlers == []
    && StoreInv(s.kind, s.store) && (s.worker.running.Some? ==> ResetInv(s.kind, s.store, s.worker.running.value))
  }

  lemma CallKeepsPhase(s: System, ev: Evaluation, created: bool)
    requires StoreInv(s.kind, s.store) && ResetInv(s.kind, s.store, ev)
    ensures var (store, outcome) := WorkerCall(s, ev, created);
            StoreInv(s.kind, store) && (outcome.Then? ==> ResetInv(s.kind, store, outcome.next))
  {}

  lemma StepKeepsPhase(s: System, step: Step)
    requires PhaseInv(s) && !s.kind.EventSource?
    ensures PhaseInv(Next(s, step))
  {
    if (step.Advance? || step.Unanswered?) && s.worker.running.Some? {
      CallKeepsPhase(s, s.worker.running.value, step.created);
    }
  }

  lemma {:induction false} PhaseAlwaysHolds(kind: Kind, sends: bool, steps: seq<Step>)
    requires !kind.EventSource?
    ensures PhaseInv(Exec(kind, sends, steps))
  {
    if steps != [] {
      PhaseAlwaysHolds(kind, sends, steps[..|steps| - 1]);
      StepKeepsPhase(Exec(kind, sends, steps[..|steps| - 1]), steps[|steps| - 1]);
    }
  }

  /** The worker never makes a report disappear that holds its finalizer. */
  lemma WorkerCannotRemove(s: System, ev: Evaluation, created: bool)
    requires s.store.report.Some? && s.store.report.value.finalizer
    ensures var (store, _) := WorkerCall(s, ev, created); store.report.Some?
  {}

  /**
   * The marked report was released as the protocol intends: Processed was written after the reset made for its
   * deletion, and after the mark unless it had been written already when the mark was made.
   */
  ghost predicate DeliveredFor(r: Report) {
    && r.deleting.Some? && r.phase == Some(Processed)
    && r.processedAt > r.deleting.value.reset > 0
    && (r.processedAt > r.deleting.value.at || r.deleting.value.early)
  }

  /** A HealthCheckReport that is marked and holds its finalizer disappears only when it was delivered for the deletion. */
  lemma ReleasedOnlyWhenProcessed(sends: bool, steps: seq<Step>, step: Step)
    requires var s := Exec(HealthCheck, sends, steps);
             && s.store.report.Some? && s.store.report.value.deleting.Some? && s.store.report.value.finalizer
             && Next(s, step).store.report.None?
    ensures DeliveredFor(Exec(HealthCheck, sends, steps).store.report.value)
  {
    PhaseAlwaysHolds(HealthCheck, sends, steps);
    var s := Exec(HealthCheck, sends, steps);
    if (step.Advance? || step.Unanswered?) && s.worker.running.Some? {
      WorkerCannotRemove(s, s.worker.running.value, step.created);
    }
  }

  /**
   * The HealthCheck itself disappears only without a finalizer, or when its report is absent or was delivered for its
   * deletion; and then the name is queued once more, so that a report written late is cleaned as well.
   */
  lemma SourceReleasedOnlyAfterReport(sends: bool, steps: seq<Step>, step: Step)
    requires var s := Exec(HealthCheck, sends, steps);
             s.source != Absent && Next(s, step).source == Absent
    ensures var s := Exec(HealthCheck, sends, steps);
            || s.source == Live(false)
            || (&& s.source == Terminating && Next(s, step).worker.queued
                && (s.store.report.None? || DeliveredFor(s.store.report.value)))
  {
    PhaseAlwaysHolds(HealthCheck, sends, steps);
  }

  /**
   * For every kind: reconciling the deletion lets the source go if and only if it is a Classifier, or its report could
   * be read and is absent or marked and Processed; either way the name is queued and the deletion counts as reconciled.
   */
  lemma SourceReleasedExactly(s: System, readable: bool)
    requires s.source == Terminating
    ensures var s', report := Next(s, ReconcileDelete(readable)), s.store.report;
            && s'.worker.queued && s'.reconciled && s'.store == s.store
            && (s'.source == Absent <==>
                  || s.kind == Classifier
                  || (readable && (report == None || (report.value.deleting != None && report.value.phase == Some(Processed)))))
            && (s'.source == Absent || s'.source == Terminating)
  {}

  /** The last thing that happened to the source is that its deletion was reconciled. */
  ghost predicate DeletionReconciled(kind: Kind, sends: bool, steps: seq<Step>) {
    steps != [] &&
    var before, step := steps[..|steps| - 1], steps[|steps| - 1];
    var source := Exec(kind, sends, before).source;
    if step.ReconcileDelete? && source.Terminating? then true
    else if (step.CreateSource? && source.Absent?) || (step.DeleteSource? && source.Live?) then false
    else DeletionReconciled(kind, sends, before)
  }

  lemma StepOnReconciled(s: System, step: Step)
    ensures Next(s, step).reconciled ==
            if step.ReconcileDelete? && s.source.Terminating? then true
            else if (step.CreateSource? && s.source.Absent?) || (step.DeleteSource? && s.source.Live?) then false
            else s.reconciled
  {}

  lemma {:induction false} ReconciledOfSteps(kind: Kind, sends: bool, steps: seq<Step>)
    ensures Exec(kind, sends, steps).reconciled <==> DeletionReconciled(kind, sends, steps)
  {
    if steps != [] {
      ReconciledOfSteps(kind, sends, steps[..|steps| - 1]);
      StepOnReconciled(Exec(kind, sends, steps[..|steps| - 1]), steps[|steps| - 1]);
    }
  }

  // ----- evaluations and cleanings that nothing disturbs -----

  /** The states of the system between API calls of the worker that nothing comes in between. */
  ghost predicate IsChain(chain: seq<System>, created: bool) {
    chain != [] && forall i | 0 < i < |chain| :: chain[i] == Next(chain[i - 1], Advance(created))
  }

  function Running(s: System, ev: Evaluation): System {
    s.(worker := s.worker.(running := Some(ev)))
  }

  function Finished(s: System): System {
    s.(worker := s.worker.(running := None))
  }

  lemma ReadsSource(s: System, created: bool)
    requires s.worker.running == Some(ReadingSource)
    ensures Next(s, Advance(created)) == Running(s, if s.source.Live? then ReadingReport else Cleaning)
  {}

  lemma ReadsReport(s: System, created: bool)
    requires s.worker.running == Some(ReadingReport)
    ensures Next(s, Advance(created)) ==
            Running(s, Writing(if s.store.report.Some? then Some(s.store.report.value.version) else None))
  {}

  /** The report that was read is written, or one is created. */
  lemma WritesReport(s: System, created: bool)
    requires s.worker.running == Some(Writing(if s.store.report.Some? then Some(s.store.report.value.version) else None))
    ensures var store := Put(s.store, if s.store.report.Some? then s.store.report.value else Report(0, None, 0, 0, false, None));
            Next(s, Advance(created)) == Running(s, MarkingWaiting(store.revision)).(store := store)
  {}

  lemma MarksWaiting(s: System, created: bool)
    requires s.store.report.Some? && s.worker.running == Some(MarkingWaiting(s.store.report.value.version))
    ensures Next(s, Advance(created)) ==
            (if s.sends then Running(s, Sending) else Finished(s)).(
            store := PutPhase(s.store, s.store.report.value, WaitingForDelivery))
  {}

  lemma SendsReport(s: System, created: bool)
    requires s.store.report.Some? && s.worker.running == Some(Sending)
    ensures Next(s, Advance(created)) ==
            if s.kind == Classifier || created then Finished(s) else Running(s, MarkingProcessed(s.store.report.value.version))
  {}

  lemma MarksProcessedOnce(s: System, created: bool)
    requires s.store.report.Some? && s.worker.running == Some(MarkingProcessed(s.store.report.value.version))
    ensures Next(s, Advance(created)) == Finished(s).(store := PutPhase(s.store, s.store.report.value, Processed))
  {}

  /** The report as the evaluation of a live source leaves it, and the phase it has then. */
  ghost predicate WrittenAs(s: System, s': System, phase: Phase) {
    && s'.store.report.Some? && s'.store.report.value.phase == Some(phase)
    && s'.store.report.value.finalizer == (s.store.report.Some? && s.store.report.value.finalizer)
    && s'.store.report.value.deleting == (if s.store.report.Some? then s.store.report.value.deleting else None)
    && s'.worker == s.worker.(running := None) && s'.source == s.source && s'.handlers == s.handlers
  }

  /**
   * The evaluation of a live source writes the report and marks it as waiting. If reports are to be sent it goes on to
   * send it; that ends it for a Classifier or if the management copy was created, and otherwise the report is marked
   * as processed.
   */
  lemma EvaluatesUndisturbed(s: System, created: bool) returns (chain: seq<System>)
    requires s.source.Live? && s.worker.running == Some(ReadingSource)
    ensures IsChain(chain, created) && chain[0] == s
    ensures !s.sends ==> |chain| == 5 && WrittenAs(s, chain[4], WaitingForDelivery)
    ensures s.sends ==> |chain| > 5 && chain[4].worker.running == Some(Sending)
    ensures s.sends && (s.kind == Classifier || created) ==> |chain| == 6 && WrittenAs(s, chain[5], WaitingForDelivery)
    ensures s.sends && s.kind != Classifier && !created ==> |chain| == 7 && WrittenAs(s, chain[6], Processed)
  {
    chain := WritesUndisturbed(s, created);
    if s.sends {
      chain := SendsUndisturbed(chain, created);
    }
  }

  lemma ChainOneMore(chain: seq<System>, created: bool, s: System)
    requires IsChain(chain, created) && s == Next(chain[|chain| - 1], Advance(created))
    ensures IsChain(chain + [s], created)
  {}

  /** The first two calls only read. */
  lemma ReadsUndisturbed(s: System, created: bool) returns (chain: seq<System>)
    requires s.source.Live? && s.worker.running == Some(ReadingSource)
    ensures IsChain(chain, created) && |chain| == 3 && chain[0] == s
    ensures chain[2] == Running(s, Writing(if s.store.report.Some? then Some(s.store.report.value.version) else None))
  {
    ReadsSource(s, created);
    var s1 := Running(s, ReadingReport);
    ReadsReport(s1, created);
    chain := [s, s1, Next(s1, Advance(created))];
  }

  /** The next two write the report and mark it as waiting. */
  lemma WritesUndisturbed(s: System, created: bool) returns (chain: seq<System>)
    requires s.source.Live? && s.worker.running == Some(ReadingSource)
    ensures IsChain(chain, created) && |chain| == 5 && chain[0] == s
    ensures WrittenAs(s, Finished(chain[4]), WaitingForDelivery) && chain[4].kind == s.kind
    ensures chain[4].worker == s.worker.(running := if s.sends then Some(Sending) else None)
  {
    chain := ReadsUndisturbed(s, created);
    var s2 := chain[2];
    var store := Put(s2.store, if s2.store.report.Some? then s2.store.report.value else Report(0, None, 0, 0, false, None));
    var s3 := Running(s2, MarkingWaiting(store.revision)).(store := store);
    WritesReport(s2, created);
    ChainOneMore(chain, created, s3);
    chain := chain + [s3];
    MarksWaiting(s3, created);
    var s4 := (if s.sends then Running(s3, Sending) else Finished(s3)).(store := PutPhase(store, store.report.value, WaitingForDelivery));
    ChainOneMore(chain, created, s4);
    chain := chain + [s4];
  }

  /** Sending, and marking as processed unless sending created the management copy or is for a Classifier. */
  lemma SendsUndisturbed(chain: seq<System>, created: bool) returns (longer: seq<System>)
    requires IsChain(chain, created)
    requires var s := chain[|chain| - 1]; s.store.report.Some? && s.worker.running == Some(Sending)
    ensures IsChain(longer, created) && chain < longer
    ensures var s, last := chain[|chain| - 1], longer[|longer| - 1];
            if s.kind == Classifier || created then |longer| == |chain| + 1 && last == Finished(s)
            else |longer| == |chain| + 2 && last == Finished(s).(store := PutPhase(s.store, s.store.report.value, Processed))
  {
    var s := chain[|chain| - 1];
    SendsReport(s, created);
    var sent := if s.kind == Classifier || created then Finished(s) else Running(s, MarkingProcessed(s.store.report.value.version));
    ChainOneMore(chain, created, sent);
    longer := chain + [sent];
    if s.kind != Classifier && !created {
      MarksProcessedOnce(sent, created);
      var last := Finished(s).(store := PutPhase(s.store, s.store.report.value, Processed));
      ChainOneMore(longer, created, last);
      longer := longer + [last];
    }
  }

  /**
   * A write that lost against a newer version of the report: for an EventSource it is made again from the read on, and
   * otherwise the evaluation fails and its name with it.
   */
  lemma RaceIsLost(s: System, created: bool)
    requires s.store.report.Some? && s.worker.running.Some?
    requires var ev := s.worker.running.value;
             || (ev.Writing? && ev.found.Some? && ev.found.value != s.store.report.value.version)
             || (ev.MarkingWaiting? && ev.seen != s.store.report.value.version)
    ensures Next(s, Advance(created)) ==
            if s.kind == EventSource then Running(s, ReadingReport)
            else s.(worker := s.worker.(running := None, failed := true))
  {}

  /** A call on a report that is no longer there fails the evaluation; only a creation, and a look, do not need it. */
  lemma AbsentReportFails(s: System, created: bool)
    requires s.store.report.None? && s.worker.running.Some?
    requires var ev := s.worker.running.value;
             || (ev.Writing? && ev.found.Some?) || ev.MarkingWaiting? || ev.Sending? || ev.MarkingProcessed?
             || ev.Resetting? || ev.Deleting?
    ensures Next(s, Advance(created)) == s.(worker := s.worker.(running := None, failed := true))
  {}

  lemma CleansReport(s: System, created: bool)
    requires s.worker.running == Some(Cleaning)
    ensures Next(s, Advance(created)) ==
            if s.store.report.None? then Finished(s)
            else if s.kind == Classifier then Running(s, Deleting(0))
            else if s.store.report.value.deleting.Some? then Finished(s)
            else Running(s, Resetting(s.store.report.value.version))
  {}

  lemma ResetsReport(s: System, created: bool)
    requires s.store.report.Some? && s.worker.running == Some(Resetting(s.store.report.value.version))
    ensures Next(s, Advance(created)) ==
            Running(s, Deleting(s.store.revision + 1)).(store := PutPhase(s.store, s.store.report.value, WaitingForDelivery))
  {}

  /** The report is gone, or it is marked and, but for a Classifier, waits for delivery of its deletion. */
  ghost predicate Cleaned(s: System, s': System) {
    && s'.worker == s.worker.(running := None) && s'.source == s.source
    && (s.store.report.None? || !s.store.report.value.finalizer ==> s'.store.report.None? || s'.store == s.store)
    && (s.store.report.Some? && s.store.report.value.finalizer ==> s'.store.report.Some?)
    && (s'.store.report.Some? ==> s'.store.report.value.deleting.Some?)
    && (Unmarked(s.store) && s'.store.report.Some? && s.kind != Classifier ==> s'.store.report.value.phase == Some(WaitingForDelivery))
  }

  /** Up to the mark, an unmarked report of a HealthCheck or EventSource is reset. */
  lemma ResetsUndisturbed(s: System, created: bool) returns (chain: seq<System>)
    requires !s.source.Live? && s.worker.running == Some(ReadingSource) && Unmarked(s.store) && s.kind != Classifier
    ensures IsChain(chain, created) && |chain| == 4 && chain[0] == s
    ensures chain[3] ==
            Running(s, Deleting(s.store.revision + 1)).(store := PutPhase(s.store, s.store.report.value, WaitingForDelivery))
  {
    ReadsSource(s, created);
    var s1, s2 := Running(s, Cleaning), Running(s, Resetting(s.store.report.value.version));
    CleansReport(s1, created);
    ResetsReport(s2, created);
    chain := [s, s1, s2, Next(s2, Advance(created))];
  }

  /** Cleaning up after a source that is gone: nothing is left to do, or the report is reset, marked and perhaps gone. */
  lemma CleansUndisturbed(s: System, created: bool) returns (chain: seq<System>)
    requires !s.source.Live? && s.worker.running == Some(ReadingSource)
    ensures IsChain(chain, created) && chain[0] == s && Cleaned(s, chain[|chain| - 1])
  {
    if Unmarked(s.store) && s.kind != Classifier {
      chain := ResetsUndisturbed(s, created);
      chain := DeletesUndisturbed(chain, created);
    } else {
      chain := LooksUndisturbed(s, created);
      if s.store.report.Some? && s.kind == Classifier {
        chain := DeletesUndisturbed(chain, created);
      }
    }
  }

  /** Where nothing has to be reset: there is nothing to do, or the report is to be deleted at once. */
  lemma LooksUndisturbed(s: System, created: bool) returns (chain: seq<System>)
    requires !s.source.Live? && s.worker.running == Some(ReadingSource) && (Unmarked(s.store) ==> s.kind == Classifier)
    ensures IsChain(chain, created) && |chain| == 3 && chain[0] == s
    ensures chain[2] == if s.store.report.Some? && s.kind == Classifier then Running(s, Deleting(0)) else Finished(s)
  {
    ReadsSource(s, created);
    var s1 := Running(s, Cleaning);
    CleansReport(s1, created);
    chain := [s, s1, Next(s1, Advance(created))];
  }

  /** The mark, which a report without finalizer does not outlive. */
  lemma DeletesUndisturbed(chain: seq<System>, created: bool) returns (longer: seq<System>)
    requires IsChain(chain, created)
    requires var s := chain[|chain| - 1];
             s.store.report.Some? && s.worker.running.Some? && s.worker.running.value.Deleting?
    ensures IsChain(longer, created) && chain < longer
    ensures var s, last := chain[|chain| - 1], longer[|longer| - 1];
            && last == Finished(s).(store := last.store)
            && (last.store.report.None? <==> !s.store.report.value.finalizer)
            && (last.store.report.Some? ==>
                  last.store.report.value.deleting.Some? && last.store.report.value.phase == s.store.report.value.phase)
  {
    var s := chain[|chain| - 1];
    var last := Next(s, Advance(created));
    ChainOneMore(chain, created, last);
    longer := chain + [last];
  }

  // ----- when a report goes although its deletion was not delivered -----

  /** The evaluation whose next API call the step makes. */
  function Caller(s: System, step: Step): Option<Evaluation> {
    if step.Advance? || step.Unanswered? then s.worker.running
    else if step.HandlerAdvance? && Handling(s, step.h) then s.handlers[step.h]
    else None
  }

  predicate MarksProcessed(store: Store, ev: Evaluation) {
    ev.MarkingProcessed? && Matches(store, ev.seen)
  }

  /** The step stores Processed in the report. */
  predicate Delivers(s: System, step: Step) {
    && s.store.report.Some?
    && (step.Deliver? || (Caller(s, step).Some? && MarksProcessed(s.store, Caller(s, step).value)))
  }

  ghost function ExecFrom(s: System, steps: seq<Step>): System
    decreases steps
  {
    if steps == [] then s else ExecFrom(Next(s, steps[0]), steps[1..])
  }

  /** Nothing is delivered while the steps are taken from s. */
  ghost predicate NoDelivery(s: System, steps: seq<Step>)
    decreases steps
  {
    steps == [] || (!Delivers(s, steps[0]) && NoDelivery(Next(s, steps[0]), steps[1..]))
  }

  /** A marked report that waits for delivery and holds its finalizer. */
  predicate Held(store: Store) {
    && store.report.Some? && store.report.value.deleting.Some? && store.report.value.finalizer
    && store.report.value.phase != Some(Processed)
  }

  lemma HeldThroughCall(s: System, ev: Evaluation, created: bool)
    requires Held(s.store) && !MarksProcessed(s.store, ev)
    ensures Held(WorkerCall(s, ev, created).0)
  {}

  lemma HeldUntilDelivered(s: System, step: Step)
    requires Held(s.store) && !Delivers(s, step)
    ensures Held(Next(s, step).store)
  {
    if Caller(s, step).Some? {
      HeldThroughCall(s, Caller(s, step).value, step.created);
    }
  }

  lemma {:induction false} HeldWithoutDelivery(s: System, steps: seq<Step>)
    requires Held(s.store) && NoDelivery(s, steps)
    ensures Held(ExecFrom(s, steps).store)
    decreases steps
  {
    if steps != [] {
      HeldUntilDelivered(s, steps[0]);
      HeldWithoutDelivery(Next(s, steps[0]), steps[1..]);
    }
  }

  /** After its mark the report can go without any delivery. */
  ghost predicate GoesUndelivered(s: System) {
    exists steps :: NoDelivery(s, steps) && ExecFrom(s, steps).store.report.None?
  }

  /**
   * Whenever the worker is about to mark a HealthCheckReport or EventReport: some run from the mark on loses the report without a
   * delivery of the deletion if and only if the report has no finalizer yet, or was delivered between the reset and
   * the mark. If it can go like that, one reconcile of the report is enough.
   */
  lemma GoesUndeliveredExactly(s: System, created: bool)
    requires !s.kind.Classifier? && Unmarked(s.store)
    requires s.worker.running.Some? && s.worker.running.value.Deleting?
    ensures var r, marked := s.store.report.value, Next(s, Advance(created));
            && (GoesUndelivered(marked) <==> !r.finalizer || r.phase == Some(Processed))
            && (GoesUndelivered(marked) <==> Next(marked, ReconcileReport).store.report.None?)
  {
    var r, marked := s.store.report.value, Next(s, Advance(created));
    if !r.finalizer || r.phase == Some(Processed) {
      var steps := [ReconcileReport];
      assert steps[1..] == [];
      assert NoDelivery(Next(marked, ReconcileReport), steps[1..]);
      assert NoDelivery(marked, steps);
      assert ExecFrom(marked, steps) == ExecFrom(Next(marked, ReconcileReport), steps[1..]) == Next(marked, ReconcileReport);
    } else {
      assert Held(marked.store);
      forall steps | NoDelivery(marked, steps) ensures ExecFrom(marked, steps).store.report.Some? {
        HeldWithoutDelivery(marked, steps);
      }
    }
  }

  /** As long as the report marked at version at is there, its last Processed is later exactly if delivered. */
  ghost predicate SinceMark(store: Store, at: nat, delivered: bool) {
    && at <= store.revision
    && (store.report.Some? && store.report.value.deleting.Some? && store.report.value.deleting.value.at == at ==>
          (store.report.value.processedAt > at <==> delivered))
  }

  lemma CallSinceMark(s: System, ev: Evaluation, created: bool, at: nat, delivered: bool)
    requires SinceMark(s.store, at, delivered)
    ensures SinceMark(WorkerCall(s, ev, created).0, at, delivered || MarksProcessed(s.store, ev))
  {}

  lemma StepSinceMark(s: System, step: Step, at: nat, delivered: bool)
    requires SinceMark(s.store, at, delivered)
    ensures SinceMark(Next(s, step).store, at, delivered || Delivers(s, step))
  {
    if Caller(s, step).Some? {
      CallSinceMark(s, Caller(s, step).value, step.created, at, delivered);
    }
  }

  lemma {:induction false} RunSinceMark(s: System, steps: seq<Step>, at: nat, delivered: bool)
    requires SinceMark(s.store, at, delivered)
    ensures SinceMark(ExecFrom(s, steps).store, at, delivered || !NoDelivery(s, steps))
    decreases steps
  {
    if steps != [] {
      StepSinceMark(s, steps[0], at, delivered);
      RunSinceMark(Next(s, steps[0]), steps[1..], at, delivered || Delivers(s, steps[0]));
    }
  }

  /**
   * In every run, from the mark of a HealthCheckReport on and for as long as that report is there: its last Processed
   * is later than the mark if and only if something was delivered since the mark.
   */
  lemma ProcessedAfterMarkExactly(sends: bool, before: seq<Step>, created: bool, later: seq<Step>)
    requires var s := Exec(HealthCheck, sends, before);
             Unmarked(s.store) && s.worker.running.Some? && s.worker.running.value.Deleting?
    ensures var marked := Next(Exec(HealthCheck, sends, before), Advance(created));
            var now := ExecFrom(marked, later).store;
            (&& marked.store.report.Some? && now.report.Some?
             && now.report.value.deleting == marked.store.report.value.deleting) ==>
              && now.report.value.deleting.Some?
              && (now.report.value.processedAt > now.report.value.deleting.value.at <==> !NoDelivery(marked, later))
  {
    PhaseAlwaysHolds(HealthCheck, sends, before);
    var marked := Next(Exec(HealthCheck, sends, before), Advance(created));
    if marked.store.report.Some? {
      RunSinceMark(marked, later, marked.store.report.value.deleting.value.at, false);
    }
  }

  // ----- such states are reached -----

  lemma ExecOneMore(kind: Kind, sends: bool, steps: seq<Step>, step: Step)
    ensures Exec(kind, sends, steps + [step]) == Next(Exec(kind, sends, steps), step)
  {
    assert (steps + [step])[..|steps|] == steps;
  }

  /** The worker takes up a queued name. */
  lemma TakenUp(kind: Kind, steps: seq<Step>) returns (more: seq<Step>)
    requires Exec(kind, false, steps).worker == Worker(true, false, None, false)
    ensures Exec(kind, false, more) ==
            Exec(kind, false, steps).(worker := Worker(false, false, Some(ReadingSource), false))
  {
    ExecOneMore(kind, false, steps, Drain);
    ExecOneMore(kind, false, steps + [Drain], Take);
    more := steps + [Drain] + [Take];
  }

  /** A chain of calls continues a run. */
  lemma {:induction false} Advanced(kind: Kind, sends: bool, steps: seq<Step>, chain: seq<System>) returns (more: seq<Step>)
    requires IsChain(chain, false) && chain[0] == Exec(kind, sends, steps)
    ensures Exec(kind, sends, more) == chain[|chain| - 1]
    decreases |chain|
  {
    if |chain| == 1 {
      more := steps;
    } else {
      var init := chain[..|chain| - 1];
      var most := Advanced(kind, sends, steps, init);
      ExecOneMore(kind, sends, most, Advance(false));
      more := most + [Advance(false)];
    }
  }

  /** A HealthCheck was created and is being evaluated for the first time. */
  lemma BeingEvaluated() returns (steps: seq<Step>)
    ensures Exec(HealthCheck, false, steps) ==
            System(HealthCheck, false, Live(true), false, Store(None, 0), Worker(false, false, Some(ReadingSource), false), [])
  {
    ExecOneMore(HealthCheck, false, [], CreateSource);
    ExecOneMore(HealthCheck, false, [] + [CreateSource], ReconcileNormal);
    steps := TakenUp(HealthCheck, [] + [CreateSource] + [ReconcileNormal]);
  }

  /** It was evaluated, and its report may have got its finalizer. */
  lemma EvaluatedOnce(finalizer: bool) returns (steps: seq<Step>)
    ensures var s := Exec(HealthCheck, false, steps);
            && s.source == Live(true) && s.worker == Worker(false, false, None, false)
            && Unmarked(s.store) && s.store.report.value.finalizer == finalizer
  {
    steps := BeingEvaluated();
    var chain := EvaluatesUndisturbed(Exec(HealthCheck, false, steps), false);
    steps := Advanced(HealthCheck, false, steps, chain);
    if finalizer {
      ExecOneMore(HealthCheck, false, steps, ReconcileReport);
      steps := steps + [ReconcileReport];
    }
  }

  /** It was deleted, and its report is being cleaned. */
  lemma BeingCleaned(finalizer: bool) returns (steps: seq<Step>)
    ensures var s := Exec(HealthCheck, false, steps);
            && s.source == Terminating && s.worker == Worker(false, false, Some(ReadingSource), false)
            && Unmarked(s.store) && s.store.report.value.finalizer == finalizer
  {
    steps := EvaluatedOnce(finalizer);
    ExecOneMore(HealthCheck, false, steps, DeleteSource);
    ExecOneMore(HealthCheck, false, steps + [DeleteSource], ReconcileDelete(false));
    steps := TakenUp(HealthCheck, steps + [DeleteSource] + [ReconcileDelete(false)]);
  }

  /**
   * Both ways a report can go undelivered happen: a run leads to the mark of a report with or without a finalizer, and
   * with or without a delivery since the reset.
   */
  lemma MarkIsReached(finalizer: bool, early: bool) returns (steps: seq<Step>)
    ensures var s := Exec(HealthCheck, false, steps);
            && Unmarked(s.store) && s.worker.running.Some? && s.worker.running.value.Deleting?
            && s.store.report.value.finalizer == finalizer && (s.store.report.value.phase == Some(Processed) <==> early)
    ensures GoesUndelivered(Next(Exec(HealthCheck, false, steps), Advance(false))) <==> !finalizer || early
  {
    steps := BeingCleaned(finalizer);
    var chain := ResetsUndisturbed(Exec(HealthCheck, false, steps), false);
    steps := Advanced(HealthCheck, false, steps, chain);
    if early {
      ExecOneMore(HealthCheck, false, steps, Deliver);
      steps := steps + [Deliver];
    }
    GoesUndeliveredExactly(Exec(HealthCheck, false, steps), false);
  }

  // ----- an orphan is reached -----

  /** A handler has seen the EventSource alive and no report; then the source was deleted and let go. */
  lemma HandlerIsLate() returns (steps: seq<Step>)
    ensures Exec(EventSource, false, steps) ==
            System(EventSource, false, Absent, true, Store(None, 0), Worker(true, false, None, false), [Some(Writing(None))])
  {
    ExecOneMore(EventSource, false, [], CreateSource);
    steps := [] + [CreateSource];
    ExecOneMore(EventSource, false, steps, ReconcileNormal);
    steps := steps + [ReconcileNormal];
    ExecOneMore(EventSource, false, steps, Handle);
    steps := steps + [Handle];
    ExecOneMore(EventSource, false, steps, HandlerAdvance(0, false, true));
    steps := steps + [HandlerAdvance(0, false, true)];
    ExecOneMore(EventSource, false, steps, HandlerAdvance(0, false, true));
    steps := steps + [HandlerAdvance(0, false, true)];
    ExecOneMore(EventSource, false, steps, DeleteSource);
    steps := steps + [DeleteSource];
    ExecOneMore(EventSource, false, steps, ReconcileDelete(true));
    steps := steps + [ReconcileDelete(true)];
  }

  /** The worker finds nothing to clean, and the handler creates the report of an EventSource that no longer exists. */
  lemma OrphanIsReached() returns (steps: seq<Step>)
    ensures var s := Exec(EventSource, false, steps); Orphan(s) && s.source == Absent
  {
    steps := HandlerIsLate();
    steps := TakenUp(EventSource, steps);
    ExecOneMore(EventSource, false, steps, Advance(false));
    steps := steps + [Advance(false)];
    ExecOneMore(EventSource, false, steps, Advance(false));
    steps := steps + [Advance(false)];
    ExecOneMore(EventSource, false, steps, HandlerAdvance(0, false, true));
    steps := steps + [HandlerAdvance(0, false, true)];
  }
}
