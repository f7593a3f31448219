/**
 * Writers of one EventReport under optimistic concurrency: the resource evaluator and any number of CloudEvent
 * handlers run createEventReport at the same time, while controllers, the management cluster and deletion act on
 * the same object. Every API call is one step; a run is any interleaving of steps.
 */
module EventReports {
  import opened Prelude

  type Doc = string

  /** The stored object; uid tells apart reports of the same name that lived one after the other. */
  datatype Report = Report(
    uid: nat, version: nat,
    matching: seq<Ref>, resources: Option<Doc>, cloudEvents: seq<Doc>,
    phase: Option<Phase>, deleting: bool)

  /** What a call writes: the evaluator's result, or one CloudEvent. */
  datatype Payload = Evaluated(matching: seq<Ref>, resources: Option<Doc>) | CloudEvent(event: Doc)

  datatype Progress =
    | Reading
    | Creating
    | Updating(seen: Report)
    | Marking(seen: Report)
    | Returned(ok: bool, uid: nat)

  datatype Call = Call(payload: Payload, at: Progress)

  /**
   * revision is the store's counter. writers lists, for the report that lives now, the calls that added its
   * CloudEvents, in order; written is the last evaluator result stored in it.
   */
  datatype System = System(
    report: Option<Report>, revision: nat, calls: seq<Call>,
    writers: seq<nat>, written: (seq<Ref>, Option<Doc>))

  /** answered: the caller learns that its write was stored; otherwise it returns an error although it was. */
  datatype Step =
    | Start(payload: Payload)
    | Read(i: nat)
    | Create(i: nat, answered: bool)
    | Update(i: nat, answered: bool)
    | MarkWaiting(i: nat, answered: bool)
    | GiveUp(i: nat)
    | Touch(phase: Option<Phase>, deleting: bool)
    | Remove

  const INITIAL := System(None, 0, [], [], ([], None))

  function Applied(r: Report, payload: Payload, version: nat): Report {
    match payload
    case Evaluated(matching, resources) => r.(matching := matching, resources := resources, version := version)
    case CloudEvent(event) => r.(cloudEvents := r.cloudEvents + [event], version := version)
  }

  function Moved(s: System, i: nat, at: Progress): System
    requires i < |s.calls|
  {
    s.(calls := s.calls[i := s.calls[i].(at := at)])
  }

  /** s with call i's payload stored as report r, which call i goes on to mark if it gets the answer. */
  function Stored(s: System, i: nat, r: Report, created: bool, answered: bool): System
    requires i < |s.calls|
  {
    var payload := s.calls[i].payload;
    var writers := if created then [] else s.writers;
    var written := if created then ([], None) else s.written;
    Moved(s, i, if answered then Marking(r) else Returned(false, 0)).(
    report := Some(r), revision := r.version,
    writers := if payload.CloudEvent? then writers + [i] else writers,
    written := if payload.Evaluated? then (payload.matching, payload.resources) else written)
  }

  /** The effect of one step; a step that is not possible leaves the system alone. */
  function Next(s: System, step: Step): System {
    match step
    case Start(payload) => s.(calls := s.calls + [Call(payload, Reading)])
    case Read(i) =>
      if i < |s.calls| && s.calls[i].at.Reading? then
        Moved(s, i, if s.report.None? then Creating else Updating(s.report.value))
      else s
    case Create(i, answered) =>
      if i < |s.calls| && s.calls[i].at.Creating? then
        if s.report.Some? then Moved(s, i, Returned(false, 0))
        else
          var v := s.revision + 1;
          Stored(s, i, Applied(Report(v, v, [], None, [], None, false), s.calls[i].payload, v), true, answered)
      else s
    case Update(i, answered) =>
      if i < |s.calls| && s.calls[i].at.Updating? then
        var seen := s.calls[i].at.seen;
        if s.report.None? then Moved(s, i, Returned(false, 0))
        else if s.report.value.version != seen.version then Moved(s, i, Reading)
        else Stored(s, i, Applied(seen, s.calls[i].payload, s.revision + 1), false, answered)
      else s
    case MarkWaiting(i, answered) =>
      if i < |s.calls| && s.calls[i].at.Marking? then
        var seen := s.calls[i].at.seen;
        if s.report.None? then Moved(s, i, Returned(false, 0))
        else if s.report.value.version != seen.version then Moved(s, i, Reading)
        else
          Moved(s, i, if answered then Returned(true, seen.uid) else Returned(false, 0)).(
          report := Some(s.report.value.(phase := Some(WaitingForDelivery), version := s.revision + 1)),
          revision := s.revision + 1)
      else s
    case GiveUp(i) =>
      if i < |s.calls| && !s.calls[i].at.Returned? then Moved(s, i, Returned(false, 0)) else s
    case Touch(phase, deleting) =>
      if s.report.Some? then
        s.(report := Some(s.report.value.(phase := phase, deleting := deleting, version := s.revision + 1)),
        revision := s.revision + 1)
      else s
    case Remove => s.(report := None)
  }

  function Exec(steps: seq<Step>): System {
    if steps == [] then INITIAL else Next(Exec(steps[..|steps| - 1]), steps[|steps| - 1])
  }

  lemma ExecOneMore(steps: seq<Step>, step: Step)
    ensures Exec(steps + [step]) == Next(Exec(steps), step)
  {
    assert (steps + [step])[..|steps|] == steps;
  }

  // ----- what every step keeps -----

  /** The stored report is exactly what the recorded writes add up to. */
  ghost predicate AddsUp(s: System) {
    s.report.Some? ==>
      var r := s.report.value;
      && r.uid <= r.version <= s.revision
      && (r.matching, r.resources) == s.written
      && |r.cloudEvents| == |s.writers|
      && forall k | 0 <= k < |s.writers| ::
           s.writers[k] < |s.calls| && s.calls[s.writers[k]].payload == CloudEvent(r.cloudEvents[k])
  }

  /** What a call read or wrote is still what is stored, unless the version moved on. */
  ghost predicate SeenIsCurrent(s: System, seen: Report) {
    && seen.uid <= seen.version <= s.revision
    && (s.report.Some? && s.report.value.version == seen.version ==> s.report.value == seen)
  }

  /** While the report with this uid lives, it holds the CloudEvent of call i. */
  ghost predicate Holds(s: System, i: nat, uid: nat)
    requires i < |s.calls|
  {
    uid <= s.revision && (s.calls[i].payload.CloudEvent? && s.report.Some? && s.report.value.uid == uid ==> i in s.writers)
  }

  ghost predicate CallInv(s: System, i: nat)
    requires i < |s.calls|
  {
    match s.calls[i].at
    case Updating(seen) => SeenIsCurrent(s, seen)
    case Marking(seen) => SeenIsCurrent(s, seen) && Holds(s, i, seen.uid)
    case Returned(true, uid) => Holds(s, i, uid)
    case _ => true
  }

  ghost predicate Inv(s: System) {
    AddsUp(s) && forall i | 0 <= i < |s.calls| :: CallInv(s, i)
  }

  lemma StepAddsUp(s: System, step: Step)
    requires Inv(s)
    ensures AddsUp(Next(s, step))
  {
    if step.Update? && step.i < |s.calls| && s.calls[step.i].at.Updating? {
      assert CallInv(s, step.i);
      var s' := Next(s, step);
      if s.report.Some? && s.report.value == s.calls[step.i].at.seen {
        assert s'.report.value == Applied(s.report.value, s.calls[step.i].payload, s.revision + 1);
      }
    }
  }

  /** A step leaves the report alone, removes it, or stores a new version: a longer one, or a report with a new uid. */
  ghost predicate Advances(s: System, s': System) {
    && s.revision <= s'.revision
    && (s'.report.Some? ==>
          || (s'.report == s.report && s'.writers == s.writers)
          || (&& s.revision < s'.report.value.version <= s'.revision
              && if s.report.Some? then s'.report.value.uid == s.report.value.uid && s.writers <= s'.writers
                 else s'.report.value.uid > s.revision))
  }

  lemma StepAdvances(s: System, step: Step)
    requires Inv(s)
    ensures Advances(s, Next(s, step))
  {
    if step.Update? && step.i < |s.calls| {
      assert CallInv(s, step.i);
    }
  }

  lemma OtherCallKept(s: System, s': System, i: nat)
    requires Advances(s, s') && i < |s.calls| && i < |s'.calls| && s'.calls[i] == s.calls[i] && CallInv(s, i)
    ensures CallInv(s', i)
  {}

  lemma OwnCallKept(s: System, step: Step, i: nat)
    requires Inv(s) && i < |s.calls| && Next(s, step).calls[i] != s.calls[i]
    ensures CallInv(Next(s, step), i)
  {
    assert CallInv(s, i);
  }

  lemma StepKeepsCall(s: System, step: Step, i: nat)
    requires Inv(s) && i < |Next(s, step).calls|
    ensures CallInv(Next(s, step), i)
  {
    if i < |s.calls| {
      if Next(s, step).calls[i] == s.calls[i] {
        StepAdvances(s, step);
        OtherCallKept(s, Next(s, step), i);
      } else {
        OwnCallKept(s, step, i);
      }
    }
  }

  lemma StepKeepsInv(s: System, step: Step)
    requires Inv(s)
    ensures Inv(Next(s, step))
  {
    StepAddsUp(s, step);
    forall i | 0 <= i < |Next(s, step).calls| ensures CallInv(Next(s, step), i) {
      StepKeepsCall(s, step, i);
    }
  }

  lemma {:induction false} ExecKeepsInv(steps: seq<Step>)
    ensures Inv(Exec(steps))
  {
    if steps != [] {
      ExecKeepsInv(steps[..|steps| - 1]);
      StepKeepsInv(Exec(steps[..|steps| - 1]), steps[|steps| - 1]);
    }
  }

  /** A call keeps its payload, and what it returned. */
  lemma CallsPersist(s: System, step: Step, i: nat)
    requires i < |s.calls|
    ensures i < |Next(s, step).calls| && Next(s, step).calls[i].payload == s.calls[i].payload
    ensures s.calls[i].at.Returned? ==> Next(s, step).calls[i] == s.calls[i]
  {}

  // ----- the guarantees -----

  /** In every interleaving the stored report is the sum of the successful writes: none is lost, none invented. */
  lemma NoLostUpdate(steps: seq<Step>)
    ensures var s := Exec(steps);
            s.report.Some? ==>
              && (s.report.value.matching, s.report.value.resources) == s.written
              && |s.report.value.cloudEvents| == |s.writers|
              && forall k | 0 <= k < |s.writers| ::
                   s.writers[k] < |s.calls| && s.calls[s.writers[k]].payload == CloudEvent(s.report.value.cloudEvents[k])
  {
    ExecKeepsInv(steps);
  }

  /** A handler that returns without error has its event in the report, for as long as that report lives. */
  lemma SuccessMeansPresent(steps: seq<Step>, i: nat)
    requires var s := Exec(steps);
             && i < |s.calls| && s.calls[i].payload.CloudEvent? && s.calls[i].at.Returned? && s.calls[i].at.ok
             && s.report.Some? && s.report.value.uid == s.calls[i].at.uid
    ensures Exec(steps).calls[i].payload.event in Exec(steps).report.value.cloudEvents
  {
    ExecKeepsInv(steps);
    var s := Exec(steps);
    assert CallInv(s, i);
    var k :| 0 <= k < |s.writers| && s.writers[k] == i;
    assert s.report.value.cloudEvents[k] == s.calls[i].payload.event;
  }

  /** One step never shortens or rewrites the list of CloudEvents, and a new report has a new uid. */
  lemma StepOnlyAppends(s: System, step: Step)
    requires Inv(s)
    ensures var s' := Next(s, step);
            s'.report.Some? ==>
              if s.report.Some? && s.report.value.uid == s'.report.value.uid
              then s.report.value.cloudEvents <= s'.report.value.cloudEvents
              else s.report.None? && s'.report.value.uid > s.revision
    ensures Next(s, step).revision >= s.revision
  {
    if step.Update? && step.i < |s.calls| {
      assert CallInv(s, step.i);
    }
  }

  /** Between any two moments of a report's life its CloudEvents only grow at the end. */
  lemma {:induction false} EventsOnlyGrow(steps: seq<Step>, later: seq<Step>)
    requires var s, s' := Exec(steps), Exec(steps + later);
             s.report.Some? && s'.report.Some? && s.report.value.uid == s'.report.value.uid
    ensures Exec(steps).report.value.cloudEvents <= Exec(steps + later).report.value.cloudEvents
    decreases |later|
  {
    if later == [] {
      assert steps + later == steps;
    } else {
      var init := later[..|later| - 1];
      assert (steps + later)[..|steps + later| - 1] == steps + init;
      ExecKeepsInv(steps);
      ExecKeepsInv(steps + init);
      RevisionGrows(steps, init);
      StepOnlyAppends(Exec(steps + init), later[|later| - 1]);
      EventsOnlyGrow(steps, init);
    }
  }

  lemma {:induction false} RevisionGrows(steps: seq<Step>, later: seq<Step>)
    ensures Exec(steps).revision <= Exec(steps + later).revision
    decreases |later|
  {
    if later == [] {
      assert steps + later == steps;
    } else {
      var init := later[..|later| - 1];
      assert (steps + later)[..|steps + later| - 1] == steps + init;
      RevisionGrows(steps, init);
      ExecKeepsInv(steps + init);
      StepOnlyAppends(Exec(steps + init), later[|later| - 1]);
    }
  }

  // ----- the report, told by the steps -----

  /** The step stores the payload of its call in the report. */
  ghost predicate Writes(s: System, step: Step) {
    match step
    case Create(i, _) => i < |s.calls| && s.calls[i].at.Creating? && s.report.None?
    case Update(i, _) =>
      i < |s.calls| && s.calls[i].at.Updating? && s.report.Some? && s.report.value.version == s.calls[i].at.seen.version
    case _ => false
  }

  /** The step is the status write of a call, made before anyone else changed the report. */
  ghost predicate Marks(s: System, step: Step) {
    && step.MarkWaiting? && step.i < |s.calls| && s.calls[step.i].at.Marking?
    && s.report.Some? && s.report.value.version == s.calls[step.i].at.seen.version
  }

  /** The events stored in the report that lives after the steps, in the order of the steps that stored them. */
  ghost function EventsStored(steps: seq<Step>): seq<Doc> {
    if steps == [] then []
    else
      var before, step := steps[..|steps| - 1], steps[|steps| - 1];
      var s := Exec(before);
      var events := if s.report.None? then [] else EventsStored(before);
      if Writes(s, step) && s.calls[step.i].payload.CloudEvent? then events + [s.calls[step.i].payload.event] else events
  }

  /** What the last evaluation stored in it found; nothing if there was none. */
  ghost function LastEvaluated(steps: seq<Step>): (seq<Ref>, Option<Doc>) {
    if steps == [] then ([], None)
    else
      var before, step := steps[..|steps| - 1], steps[|steps| - 1];
      var s := Exec(before);
      if Writes(s, step) && s.calls[step.i].payload.Evaluated? then
        (s.calls[step.i].payload.matching, s.calls[step.i].payload.resources)
      else if s.report.None? then ([], None)
      else LastEvaluated(before)
  }

  /** The phase last written to it, by a call or by another actor; none if there was no such write. */
  ghost function LastPhase(steps: seq<Step>): Option<Phase> {
    if steps == [] then None
    else
      var before, step := steps[..|steps| - 1], steps[|steps| - 1];
      var s := Exec(before);
      if s.report.None? then None
      else if Marks(s, step) then Some(WaitingForDelivery)
      else if step.Touch? then step.phase
      else LastPhase(before)
  }

  /** Whether it was last marked for deletion. */
  ghost function LastMarked(steps: seq<Step>): bool {
    if steps == [] then false
    else
      var before, step := steps[..|steps| - 1], steps[|steps| - 1];
      Exec(before).report.Some? && if step.Touch? then step.deleting else LastMarked(before)
  }

  /** A call has created the report, and it was not removed since. */
  ghost predicate ReportLives(steps: seq<Step>) {
    steps != [] &&
    var before, step := steps[..|steps| - 1], steps[|steps| - 1];
    step != Remove && (ReportLives(before) || (step.Create? && Writes(Exec(before), step)))
  }

  /** The payloads of the calls made so far. */
  function Started(steps: seq<Step>): seq<Payload> {
    if steps == [] then []
    else
      var step := steps[|steps| - 1];
      Started(steps[..|steps| - 1]) + if step.Start? then [step.payload] else []
  }

  /** The calls of the system are those the steps started, and there is a report exactly if the steps say so. */
  lemma {:induction false} CallsOfSteps(steps: seq<Step>)
    ensures var s := Exec(steps);
            && |s.calls| == |Started(steps)|
            && (forall i | 0 <= i < |s.calls| :: s.calls[i].payload == Started(steps)[i])
            && (s.report.Some? <==> ReportLives(steps))
  {
    if steps != [] {
      CallsOfSteps(steps[..|steps| - 1]);
      StepOnCalls(Exec(steps[..|steps| - 1]), steps[|steps| - 1]);
    }
  }

  lemma StepOnCalls(s: System, step: Step)
    ensures var s' := Next(s, step);
            && |s'.calls| == |s.calls| + (if step.Start? then 1 else 0)
            && (forall i | 0 <= i < |s.calls| :: s'.calls[i].payload == s.calls[i].payload)
            && (step.Start? ==> s'.calls[|s.calls|] == Call(step.payload, Reading))
            && (s'.report.Some? <==> step != Remove && (s.report.Some? || (step.Create? && Writes(s, step))))
  {}

  /** In every interleaving the stored report is what these steps say. */
  lemma {:induction false} ReportIsItsSteps(steps: seq<Step>)
    ensures var s := Exec(steps);
            s.report.Some? ==>
              && s.report.value.cloudEvents == EventsStored(steps)
              && (s.report.value.matching, s.report.value.resources) == LastEvaluated(steps)
              && s.report.value.phase == LastPhase(steps) && s.report.value.deleting == LastMarked(steps)
  {
    if steps != [] {
      var before, step := steps[..|steps| - 1], steps[|steps| - 1];
      ReportIsItsSteps(before);
      ExecKeepsInv(before);
      StepOnReport(Exec(before), step);
    }
  }

  /** What one step does to the content and the phase of the report. */
  lemma StepOnReport(s: System, step: Step)
    requires Inv(s)
    ensures var s' := Next(s, step);
            s'.report.Some? ==>
              var r := if s.report.Some? then s.report.value else Report(0, 0, [], None, [], None, false);
              var r' := s'.report.value;
              && (s.report.Some? || Writes(s, step))
              && r'.cloudEvents == r.cloudEvents +
                 (if Writes(s, step) && s.calls[step.i].payload.CloudEvent? then [s.calls[step.i].payload.event] else [])
              && (r'.matching, r'.resources) ==
                 (if Writes(s, step) && s.calls[step.i].payload.Evaluated?
                  then (s.calls[step.i].payload.matching, s.calls[step.i].payload.resources) else (r.matching, r.resources))
              && r'.phase == (if Marks(s, step) then Some(WaitingForDelivery)
                             else if s.report.Some? && step.Touch? then step.phase else r.phase)
              && r'.deleting == if s.report.Some? && step.Touch? then step.deleting else r.deleting
  {
    if step.Update? && step.i < |s.calls| {
      assert CallInv(s, step.i);
    }
  }

  /** A call that returns without error leaves the report waiting for delivery, until someone else writes its status. */
  lemma {:induction false} WaitingUntilTouched(steps: seq<Step>, later: seq<Step>)
    requires steps != []
    requires var s, step := Exec(steps[..|steps| - 1]), steps[|steps| - 1];
             step.MarkWaiting? && step.answered && Marks(s, step)
    requires forall step <- later :: !step.Touch?
    ensures Exec(steps).calls[steps[|steps| - 1].i].at.Returned? && Exec(steps).calls[steps[|steps| - 1].i].at.ok
    ensures var s, s' := Exec(steps), Exec(steps + later);
            s'.report.Some? && s'.report.value.uid == s.report.value.uid ==> s'.report.value.phase == Some(WaitingForDelivery)
    decreases |later|
  {
    if later == [] {
      assert steps + later == steps;
    } else {
      var init, step := later[..|later| - 1], later[|later| - 1];
      assert step in later;
      assert (steps + later)[..|steps + later| - 1] == steps + init;
      WaitingUntilTouched(steps, init);
      ExecKeepsInv(steps);
      ExecKeepsInv(steps + init);
      StepOnReport(Exec(steps + init), step);
      RevisionGrows(steps, init);
      StepOnlyAppends(Exec(steps + init), step);
    }
  }

  /**
   * A lost race is not the end of a call: whenever a call is about to write and the report has changed meanwhile,
   * it starts again and, left alone, stores its event and returns without error.
   */
  lemma ConflictIsRetried(s: System, i: nat)
    requires Inv(s) && i < |s.calls| && s.report.Some? && s.calls[i].payload.CloudEvent?
    requires s.calls[i].at.Updating? || s.calls[i].at.Marking?
    requires s.calls[i].at.seen.version != s.report.value.version
    ensures var again := Next(s, if s.calls[i].at.Updating? then Update(i, true) else MarkWaiting(i, true));
            var s' := Next(Next(Next(again, Read(i)), Update(i, true)), MarkWaiting(i, true));
            && s'.calls[i].at == Returned(true, s.report.value.uid)
            && s'.report.Some? && s'.report.value.cloudEvents == s.report.value.cloudEvents + [s.calls[i].payload.event]
  {
    var again := Next(s, if s.calls[i].at.Updating? then Update(i, true) else MarkWaiting(i, true));
    assert again == Moved(s, i, Reading);
    var s1 := Next(again, Read(i));
    assert s1.calls[i].at == Updating(s.report.value) && s1.report == s.report;
  }

  /** But a call that finds a report where it saw none, or none where it saw one, returns an error. */
  lemma OtherRacesAreLost(s: System, i: nat, answered: bool)
    requires i < |s.calls|
    ensures s.calls[i].at.Creating? && s.report.Some? ==> Next(s, Create(i, answered)) == Moved(s, i, Returned(false, 0))
    ensures s.calls[i].at.Updating? && s.report.None? ==> Next(s, Update(i, answered)) == Moved(s, i, Returned(false, 0))
    ensures s.calls[i].at.Marking? && s.report.None? ==> Next(s, MarkWaiting(i, answered)) == Moved(s, i, Returned(false, 0))
  {}

  // ----- how often an event is stored -----

  /** Call i loses the race on the status write of the report it has just stored its payload in. */
  ghost predicate StatusConflict(s: System, step: Step, i: nat, uid: nat) {
    && step.MarkWaiting? && step.i == i && i < |s.calls| && s.calls[i].at.Marking? && s.report.Some?
    && s.report.value.version != s.calls[i].at.seen.version
    && s.report.value.uid == s.calls[i].at.seen.uid == uid
  }

  /** How often that happens to call i on the report with this uid. */
  ghost function Conflicts(steps: seq<Step>, i: nat, uid: nat): nat {
    if steps == [] then 0
    else
      var before := steps[..|steps| - 1];
      Conflicts(before, i, uid) + if StatusConflict(Exec(before), steps[|steps| - 1], i, uid) then 1 else 0
  }

  /** Call i has stored its payload in the report with this uid and has not come back to it since. */
  predicate HasStored(call: Call, uid: nat) {
    match call.at
    case Marking(seen) => seen.uid == uid
    case Returned(true, u) => u == uid
    case _ => false
  }

  function Occurrences(writers: seq<nat>, i: nat): nat {
    multiset(writers)[i]
  }

  /** Call i is recorded once per conflict, and once more if it has stored its payload; a failed call, perhaps. */
  ghost predicate Counted(s: System, i: nat, uid: nat, conflicts: nat) {
    && (uid > s.revision || i >= |s.calls| ==> conflicts == 0)
    && (i < |s.calls| && s.calls[i].payload.CloudEvent? && s.report.Some? && s.report.value.uid == uid ==>
          if s.calls[i].at.Returned? && !s.calls[i].at.ok then conflicts <= Occurrences(s.writers, i) <= conflicts + 1
          else Occurrences(s.writers, i) == conflicts + if HasStored(s.calls[i], uid) then 1 else 0)
  }

  lemma OccurrencesAppend(writers: seq<nat>, j: nat, i: nat)
    ensures Occurrences(writers + [j], i) == Occurrences(writers, i) + if i == j then 1 else 0
  {}

  lemma NoOccurrences(writers: seq<nat>, i: nat)
    requires i !in writers
    ensures Occurrences(writers, i) == 0
  {}

  /** What a step does to the writers and to the uid of the report. */
  lemma WritersAfter(s: System, step: Step)
    requires Inv(s)
    ensures var s' := Next(s, step);
            s'.report.Some? ==>
              || (s.report.Some? && s'.report.value.uid == s.report.value.uid && s'.writers == s.writers)
              || (&& (step.Create? || step.Update?) && step.i < |s.calls| && s.calls[step.i].payload.CloudEvent?
                  && s'.writers == (if s.report.Some? then s.writers else []) + [step.i]
                  && (if s.report.Some? then step.Update? && s'.report.value.uid == s.report.value.uid
                      else step.Create? && s'.report.value.uid == s.revision + 1)
                  && s'.calls[step.i].at == if step.answered then Marking(s'.report.value) else Returned(false, 0))
              || (s.report.None? && s'.report.value.uid == s.revision + 1 && s'.writers == [])
  {
    if step.Update? && step.i < |s.calls| {
      assert CallInv(s, step.i);
    }
  }

  /** The own steps of call i, seen from the report with this uid: those that may store its payload... */
  lemma OwnCreateCounts(s: System, i: nat, answered: bool, uid: nat, conflicts: nat)
    requires Inv(s) && Counted(s, i, uid, conflicts) && i < |s.calls|
    ensures Counted(Next(s, Create(i, answered)), i, uid, conflicts)
  {
    WritersAfter(s, Create(i, answered));
    OccurrencesAppend([], i, i);
    assert [] + [i] == [i];
    assert CallInv(s, i);
  }

  lemma OwnUpdateCounts(s: System, i: nat, answered: bool, uid: nat, conflicts: nat)
    requires Inv(s) && Counted(s, i, uid, conflicts) && i < |s.calls|
    ensures Counted(Next(s, Update(i, answered)), i, uid, conflicts)
  {
    WritersAfter(s, Update(i, answered));
    OccurrencesAppend(s.writers, i, i);
    assert CallInv(s, i);
  }

  /** ...and those that may not. */
  lemma OwnMoveCounts(s: System, step: Step, i: nat, uid: nat, conflicts: nat)
    requires Inv(s) && Counted(s, i, uid, conflicts) && i < |s.calls|
    requires (step.Read? || step.MarkWaiting? || step.GiveUp?) && step.i == i
    ensures Counted(Next(s, step), i, uid, conflicts + if StatusConflict(s, step, i, uid) then 1 else 0)
  {
    assert CallInv(s, i);
  }

  /** A step that leaves call i alone, and adds another call to the writers or none. */
  lemma OtherStepCounts(s: System, s': System, i: nat, j: nat, uid: nat, conflicts: nat)
    requires Inv(s) && Counted(s, i, uid, conflicts)
    requires i < |s.calls| && i < |s'.calls| && s'.calls[i] == s.calls[i] && i != j && s.revision <= s'.revision
    requires s'.report.Some? ==>
               var writers := if s.report.Some? then s.writers else [];
               && (s'.writers == writers || s'.writers == writers + [j])
               && s'.report.value.uid == if s.report.Some? then s.report.value.uid else s.revision + 1
    ensures Counted(s', i, uid, conflicts)
  {
    OccurrencesAppend(s.writers, j, i);
    OccurrencesAppend([], j, i);
    assert CallInv(s, i);
  }

  predicate Owns(step: Step, i: nat) {
    (step.Read? || step.Create? || step.Update? || step.MarkWaiting? || step.GiveUp?) && step.i == i
  }

  lemma ForeignStepCounts(s: System, step: Step, i: nat, uid: nat, conflicts: nat)
    requires Inv(s) && Counted(s, i, uid, conflicts) && i < |s.calls| && !Owns(step, i)
    ensures Counted(Next(s, step), i, uid, conflicts)
  {
    WritersAfter(s, step);
    StepAdvances(s, step);
    assert Next(s, step).calls[i] == s.calls[i];
    OtherStepCounts(s, Next(s, step), i, if step.Create? || step.Update? then step.i else i + 1, uid, conflicts);
  }

  lemma LaterCallCounts(s: System, step: Step, i: nat, uid: nat, conflicts: nat)
    requires Inv(s) && Counted(s, i, uid, conflicts) && i >= |s.calls|
    ensures Counted(Next(s, step), i, uid, conflicts)
  {
    if s.report.Some? {
      NoOccurrences(s.writers, i);
    }
  }

  lemma StepCounts(s: System, step: Step, i: nat, uid: nat, conflicts: nat)
    requires Inv(s) && Counted(s, i, uid, conflicts)
    ensures Counted(Next(s, step), i, uid, conflicts + if StatusConflict(s, step, i, uid) then 1 else 0)
  {
    if i >= |s.calls| {
      LaterCallCounts(s, step, i, uid, conflicts);
    } else if !Owns(step, i) {
      ForeignStepCounts(s, step, i, uid, conflicts);
    } else if step.Create? {
      OwnCreateCounts(s, i, step.answered, uid, conflicts);
    } else if step.Update? {
      OwnUpdateCounts(s, i, step.answered, uid, conflicts);
    } else {
      OwnMoveCounts(s, step, i, uid, conflicts);
    }
  }

  lemma {:induction false} RunCounts(steps: seq<Step>, i: nat, uid: nat)
    ensures Counted(Exec(steps), i, uid, Conflicts(steps, i, uid))
  {
    if steps != [] {
      var before := steps[..|steps| - 1];
      ExecKeepsInv(before);
      RunCounts(before, i, uid);
      StepCounts(Exec(before), steps[|steps| - 1], i, uid, Conflicts(before, i, uid));
    }
  }

  /**
   * In every run, a CloudEvent whose call succeeded is stored in the report, while that lives, once and once more for
   * every status write the call lost; so exactly once if and only if it lost none.
   */
  lemma StoredOncePlusConflicts(steps: seq<Step>, i: nat)
    requires var s := Exec(steps);
             && i < |s.calls| && s.calls[i].payload.CloudEvent? && s.calls[i].at.Returned? && s.calls[i].at.ok
             && s.report.Some? && s.report.value.uid == s.calls[i].at.uid
    ensures var s := Exec(steps);
            && Occurrences(s.writers, i) == 1 + Conflicts(steps, i, s.report.value.uid)
            && (Occurrences(s.writers, i) == 1 <==> Conflicts(steps, i, s.report.value.uid) == 0)
  {
    RunCounts(steps, i, Exec(steps).report.value.uid);
  }

  /** A call that failed has stored its event at most once more than it lost status writes. */
  lemma FailedCallStores(steps: seq<Step>, i: nat)
    requires var s := Exec(steps);
             && i < |s.calls| && s.calls[i].payload.CloudEvent? && s.calls[i].at.Returned? && !s.calls[i].at.ok
             && s.report.Some?
    ensures var s := Exec(steps);
            var conflicts := Conflicts(steps, i, s.report.value.uid);
            conflicts <= Occurrences(s.writers, i) <= conflicts + 1
  {
    RunCounts(steps, i, Exec(steps).report.value.uid);
  }

  /** A run with one conflict: the successful call leaves its event in the report twice. */
  lemma StatusConflictAppendsTwice(event: Doc) returns (steps: seq<Step>)
    ensures var s := Exec(steps);
            && |s.calls| == 1 && s.calls[0] == Call(CloudEvent(event), Returned(true, 1))
            && s.report.Some? && s.report.value.cloudEvents == [event, event]
  {
    steps := [Start(CloudEvent(event))];
    ExecOneMore(steps, Read(0));
    steps := steps + [Read(0)];
    ExecOneMore(steps, Create(0, true));
    steps := steps + [Create(0, true)];
    ExecOneMore(steps, Touch(None, false));
    steps := steps + [Touch(None, false)];
    ExecOneMore(steps, MarkWaiting(0, true));
    steps := steps + [MarkWaiting(0, true)];
    ExecOneMore(steps, Read(0));
    steps := steps + [Read(0)];
    ExecOneMore(steps, Update(0, true));
    steps := steps + [Update(0, true)];
    ExecOneMore(steps, MarkWaiting(0, true));
    steps := steps + [MarkWaiting(0, true)];
  }

  /** The steps of the first call for a report, undisturbed. */
  function FirstCall(event: Doc): seq<Step> {
    [Start(CloudEvent(event)), Read(0), Create(0, true), MarkWaiting(0, true)]
  }

  /** It creates the report with its event, waiting for delivery, and succeeds. */
  lemma FirstCallSucceeds(event: Doc)
    ensures var s := Exec(FirstCall(event));
            && s.calls == [Call(CloudEvent(event), Returned(true, 1))]
            && s.report.Some? && s.report.value.cloudEvents == [event] && s.report.value.phase == Some(WaitingForDelivery)
  {
    var start, read, create, mark := Start(CloudEvent(event)), Read(0), Create(0, true), MarkWaiting(0, true);
    ExecOneMore([], start);
    ExecOneMore([] + [start], read);
    ExecOneMore([] + [start] + [read], create);
    ExecOneMore([] + [start] + [read] + [create], mark);
    assert [] + [start] + [read] + [create] + [mark] == FirstCall(event);
  }
}
