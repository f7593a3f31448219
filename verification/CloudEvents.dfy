/**
 * CloudEvents received over JetStream: each delivery of a message is an attempt that goes through a snapshot of the
 * registered EventSources and ends in an acknowledgement or, at the first error, in a negative one, after which the
 * message is delivered again. Attempts run concurrently with each other and with everything else.
 */
module CloudEvents {
  import opened Prelude
  import EventReports

  datatype Message = Message(subject: string, source: string, ceSubject: string, ceType: string, body: string)

  datatype Criteria = Criteria(subject: string, source: string, ceSubject: string, ceType: string)

  /** Go's regexp: None when the expression does not compile. */
  type Regex = (string, string) -> Option<bool>

  predicate StringMatches(regex: Regex, expression: string, text: string) {
    expression == "" || regex(expression, text) == Some(true)
  }

  predicate IsMatch(regex: Regex, message: Message, c: Criteria) {
    && StringMatches(regex, c.subject, message.subject)
    && StringMatches(regex, c.source, message.source)
    && StringMatches(regex, c.ceSubject, message.ceSubject)
    && StringMatches(regex, c.ceType, message.ceType)
  }

  ghost predicate AnyMatch(regex: Regex, message: Message, criteria: seq<Criteria>) {
    exists i | 0 <= i < |criteria| :: IsMatch(regex, message, criteria[i])
  }

  /** A criteria matches if each of its expressions is empty or matches the attribute of the same name. */
  ghost predicate Selected(regex: Regex, message: Message, criteria: seq<Criteria>) {
    exists c <- criteria ::
      && (c.subject == "" || regex(c.subject, message.subject) == Some(true))
      && (c.source == "" || regex(c.source, message.source) == Some(true))
      && (c.ceSubject == "" || regex(c.ceSubject, message.ceSubject) == Some(true))
      && (c.ceType == "" || regex(c.ceType, message.ceType) == Some(true))
  }

  lemma AnyMatchExactly(regex: Regex, message: Message, criteria: seq<Criteria>)
    ensures AnyMatch(regex, message, criteria) <==> Selected(regex, message, criteria)
  {
    if i :| 0 <= i < |criteria| && IsMatch(regex, message, criteria[i]) {
      assert criteria[i] in criteria;
    }
    if Selected(regex, message, criteria) {
      var c :| && c in criteria
               && (c.subject == "" || regex(c.subject, message.subject) == Some(true))
               && (c.source == "" || regex(c.source, message.source) == Some(true))
               && (c.ceSubject == "" || regex(c.ceSubject, message.ceSubject) == Some(true))
               && (c.ceType == "" || regex(c.ceType, message.ceType) == Some(true));
      var i :| 0 <= i < |criteria| && criteria[i] == c;
      assert IsMatch(regex, message, criteria[i]);
    }
  }

  /** With one expression the verdict is that of the regular expression on that attribute; one that does not compile matches nothing. */
  lemma OneExpression(regex: Regex, message: Message, expression: string)
    requires expression != ""
    ensures IsMatch(regex, message, Criteria(expression, "", "", "")) <==> regex(expression, message.subject) == Some(true)
    ensures IsMatch(regex, message, Criteria("", expression, "", "")) <==> regex(expression, message.source) == Some(true)
    ensures IsMatch(regex, message, Criteria("", "", expression, "")) <==> regex(expression, message.ceSubject) == Some(true)
    ensures IsMatch(regex, message, Criteria("", "", "", expression)) <==> regex(expression, message.ceType) == Some(true)
    ensures IsMatch(regex, message, Criteria("", "", "", ""))
    ensures (forall text :: regex(expression, text) == None) ==>
              forall c: Criteria | expression in {c.subject, c.source, c.ceSubject, c.ceType} :: !IsMatch(regex, message, c)
  {}

  /** The loop of processCloudEvent: how often createEventReport is called, when each call would answer createOk. */
  method ProcessCriteria(regex: Regex, message: Message, criteria: seq<Criteria>, createOk: bool)
    returns (calls: nat, ok: bool)
    ensures calls == if AnyMatch(regex, message, criteria) then 1 else 0
    ensures calls == 1 <==> Selected(regex, message, criteria)
    ensures ok <==> (AnyMatch(regex, message, criteria) ==> createOk)
  {
    AnyMatchExactly(regex, message, criteria);
    for i := 0 to |criteria|
      invariant forall j | 0 <= j < i :: !IsMatch(regex, message, criteria[j])
    {
      if IsMatch(regex, message, criteria[i]) {
        return 1, createOk;
      }
    }
    return 0, true;
  }

  // ----- attempts -----

  datatype Source = Source(deleting: bool, criteria: seq<Criteria>)

  /** What an attempt found when it came to an EventSource, and the call of createEventReport it made, if any. */
  datatype Visit = Visit(seen: Option<Source>, call: Option<nat>)

  datatype Status = Running | Acked | Nacked

  /** working is the visit of the first name to do whose call is under way; creates lists all calls made. */
  datatype Attempt = Attempt(
    message: Message, snapshot: seq<string>, todo: seq<string>, visits: map<string, Visit>,
    working: Option<Visit>, creates: seq<string>, status: Status)

  /** logs holds, for each EventSource, all that ever happened to its local report, by whomever. */
  datatype System = System(
    sources: map<string, Source>, registered: set<string>, logs: map<string, seq<EventReports.Step>>, attempts: seq<Attempt>)

  /**
   * ok tells whether the calls of a visit other than createEventReport succeed. Reporting is any step on a local
   * report: of the evaluator, of deletion, of the management cluster, or the next API call of an attempt's own call.
   */
  datatype Step =
    | Deliver(message: Message, order: seq<string>)
    | Visiting(a: nat, ok: bool)
    | Finish(a: nat, sendOk: bool)
    | Settle(a: nat)
    | SetSource(name: string, source: Option<Source>)
    | Register(name: string)
    | Unregister(name: string)
    | Reporting(name: string, step: EventReports.Step)

  const INITIAL := System(map[], {}, map[], [])

  function Log(s: System, name: string): seq<EventReports.Step> {
    if name in s.logs then s.logs[name] else []
  }

  function Logged(s: System, name: string, step: EventReports.Step): System {
    s.(logs := s.logs[name := Log(s, name) + [step]])
  }

  /** The calls of createEventReport for an EventSource, as far as they have come. */
  function Calls(s: System, name: string): seq<EventReports.Call> {
    EventReports.Exec(Log(s, name)).calls
  }

  function SourceNow(s: System, name: string): Option<Source> {
    if name in s.sources then Some(s.sources[name]) else None
  }

  ghost predicate Wants(regex: Regex, message: Message, seen: Option<Source>) {
    seen.Some? && !seen.value.deleting && AnyMatch(regex, message, seen.value.criteria)
  }

  /** The attempt gives up, goes on to a call, or is done with its first name. */
  function Stopped(t: Attempt): Attempt {
    t.(todo := [], working := None, status := Nacked)
  }

  function Calling(t: Attempt, visit: Visit): Attempt
    requires t.todo != []
  {
    t.(working := Some(visit), creates := t.creates + [t.todo[0]])
  }

  function Done(t: Attempt, visit: Visit): Attempt
    requires t.todo != []
  {
    t.(todo := t.todo[1..], visits := t.visits[t.todo[0] := visit], working := None)
  }

  predicate CanVisit(s: System, a: nat) {
    a < |s.attempts| && s.attempts[a].status.Running? && s.attempts[a].todo != [] && s.attempts[a].working.None?
  }

  predicate CanFinish(s: System, a: nat) {
    && a < |s.attempts| && s.attempts[a].status.Running? && s.attempts[a].todo != [] && s.attempts[a].working.Some?
    && s.attempts[a].working.value.call.Some?
    && var i := s.attempts[a].working.value.call.value;
       i < |Calls(s, s.attempts[a].todo[0])| && Calls(s, s.attempts[a].todo[0])[i].at.Returned?
  }

  /** The effect of one step; a step that is not possible leaves the system alone. */
  ghost function Next(regex: Regex, s: System, step: Step): System {
    match step
    case Deliver(message, order) =>
      if Enumerates(order, s.registered) then
        s.(attempts := s.attempts + [Attempt(message, order, order, map[], None, [], Running)])
      else s
    case Visiting(a, ok) =>
      if !CanVisit(s, a) then s
      else
        var t := s.attempts[a];
        var name, seen := t.todo[0], SourceNow(s, t.todo[0]);
        if !ok then s.(attempts := s.attempts[a := Stopped(t)])
        else if Wants(regex, t.message, seen) then
          Logged(s, name, EventReports.Start(EventReports.CloudEvent(t.message.body))).(
          attempts := s.attempts[a := Calling(t, Visit(seen, Some(|Calls(s, name)|)))])
        else s.(attempts := s.attempts[a := Done(t, Visit(seen, None))])
    case Finish(a, sendOk) =>
      if !CanFinish(s, a) then s
      else
        var t := s.attempts[a];
        var returned := Calls(s, t.todo[0])[t.working.value.call.value].at;
        s.(attempts := s.attempts[a := if returned.ok && sendOk then Done(t, t.working.value) else Stopped(t)])
    case Settle(a) =>
      if a < |s.attempts| && s.attempts[a].status.Running? && s.attempts[a].todo == [] then
        s.(attempts := s.attempts[a := s.attempts[a].(status := Acked)])
      else s
    case SetSource(name, source) =>
      s.(sources := if source.Some? then s.sources[name := source.value] else s.sources - {name})
    case Register(name) => s.(registered := s.registered + {name})
    case Unregister(name) => s.(registered := s.registered - {name})
    case Reporting(name, reportStep) => Logged(s, name, reportStep)
  }

  ghost function Exec(regex: Regex, steps: seq<Step>): System {
    if steps == [] then INITIAL else Next(regex, Exec(regex, steps[..|steps| - 1]), steps[|steps| - 1])
  }

  // ----- what every step keeps -----

  /** Call i of EventSource name is about the message; returned: it has returned without error. */
  ghost predicate IsCall(s: System, name: string, i: nat, message: Message, returned: bool) {
    && i < |Calls(s, name)|
    && Calls(s, name)[i].payload == EventReports.CloudEvent(message.body)
    && (returned ==> Calls(s, name)[i].at.Returned? && Calls(s, name)[i].at.ok)
  }

  /** A visit made a call exactly if the EventSource wanted the message. */
  ghost predicate VisitInv(regex: Regex, s: System, message: Message, name: string, v: Visit, returned: bool) {
    && (v.call.Some? <==> Wants(regex, message, v.seen))
    && (v.call.Some? ==> IsCall(s, name, v.call.value, message, returned))
  }

  /** Every name of the snapshot is still to do or was visited, unless the attempt failed. */
  ghost predicate ProgressInv(t: Attempt) {
    && (t.status.Nacked? || forall name <- t.snapshot :: name in t.visits || name in t.todo)
    && (t.status.Acked? ==> t.todo == [])
    && (t.working.Some? ==> t.todo != [])
    && (forall i, j | 0 <= i < j < |t.todo| :: t.todo[i] != t.todo[j])
    && (forall i, j | 0 <= i < j < |t.creates| :: t.creates[i] != t.creates[j])
    && (forall i, j | 0 <= i < |t.creates| && 0 <= j < |t.todo| :: t.creates[i] == t.todo[j] ==> j == 0 && t.working.Some?)
  }

  ghost predicate AttemptInv(regex: Regex, s: System, t: Attempt) {
    && ProgressInv(t)
    && (t.working.Some? && t.todo != [] ==> VisitInv(regex, s, t.message, t.todo[0], t.working.value, false))
    && forall name <- t.visits :: VisitInv(regex, s, t.message, name, t.visits[name], true)
  }

  ghost predicate Inv(regex: Regex, s: System) {
    forall a | 0 <= a < |s.attempts| :: AttemptInv(regex, s, s.attempts[a])
  }

  lemma StopProgress(t: Attempt)
    requires ProgressInv(t)
    ensures ProgressInv(Stopped(t))
  {}

  lemma CallProgress(t: Attempt, visit: Visit)
    requires ProgressInv(t) && t.working.None? && t.todo != []
    ensures ProgressInv(Calling(t, visit))
  {}

  lemma DoneProgress(t: Attempt, visit: Visit)
    requires ProgressInv(t) && t.status.Running? && t.todo != []
    ensures ProgressInv(Done(t, visit))
  {
    assert t.todo == [t.todo[0]] + t.todo[1..];
    assert forall j | 0 <= j < |t.todo| - 1 :: t.todo[1..][j] == t.todo[j + 1];
  }

  /** Whatever is logged next, calls stay what they are, and those that returned stay returned. */
  lemma LoggedKeepsCall(s: System, logged: string, step: EventReports.Step, name: string, i: nat, message: Message, returned: bool)
    requires IsCall(s, name, i, message, returned)
    ensures IsCall(Logged(s, logged, step), name, i, message, returned)
  {
    EventReports.ExecOneMore(Log(s, logged), step);
    if name == logged {
      EventReports.CallsPersist(EventReports.Exec(Log(s, name)), step, i);
    }
  }

  lemma LoggedKeepsVisit(regex: Regex, s: System, logged: string, step: EventReports.Step,
                         message: Message, name: string, v: Visit, returned: bool)
    requires VisitInv(regex, s, message, name, v, returned)
    ensures VisitInv(regex, Logged(s, logged, step), message, name, v, returned)
  {
    if v.call.Some? {
      LoggedKeepsCall(s, logged, step, name, v.call.value, message, returned);
    }
  }

  lemma LoggedKeepsAttempt(regex: Regex, s: System, logged: string, step: EventReports.Step, t: Attempt)
    requires AttemptInv(regex, s, t)
    ensures AttemptInv(regex, Logged(s, logged, step), t)
  {
    if t.working.Some? && t.todo != [] {
      LoggedKeepsVisit(regex, s, logged, step, t.message, t.todo[0], t.working.value, false);
    }
    forall name <- t.visits ensures VisitInv(regex, Logged(s, logged, step), t.message, name, t.visits[name], true) {
      LoggedKeepsVisit(regex, s, logged, step, t.message, name, t.visits[name], true);
    }
  }

  /** The invariant of an attempt speaks about the logs only. */
  lemma SameLogsKeepAttempt(regex: Regex, s: System, s': System, t: Attempt)
    requires AttemptInv(regex, s, t) && s'.logs == s.logs
    ensures AttemptInv(regex, s', t)
  {
    assert forall name :: Log(s', name) == Log(s, name);
  }

  /** The call that an attempt starts is a call about its message. */
  lemma StartedCall(s: System, name: string, message: Message)
    ensures var start := EventReports.Start(EventReports.CloudEvent(message.body));
            IsCall(Logged(s, name, start), name, |Calls(s, name)|, message, false)
  {
    EventReports.ExecOneMore(Log(s, name), EventReports.Start(EventReports.CloudEvent(message.body)));
  }

  lemma VisitKeepsAttempt(regex: Regex, s: System, a: nat, ok: bool)
    requires Inv(regex, s) && CanVisit(s, a)
    ensures var s' := Next(regex, s, Visiting(a, ok)); AttemptInv(regex, s', s'.attempts[a])
  {
    var t, s' := s.attempts[a], Next(regex, s, Visiting(a, ok));
    var name, seen := t.todo[0], SourceNow(s, t.todo[0]);
    StopProgress(t);
    CallProgress(t, Visit(seen, Some(|Calls(s, name)|)));
    DoneProgress(t, Visit(seen, None));
    if ok && Wants(regex, t.message, seen) {
      var start := EventReports.Start(EventReports.CloudEvent(t.message.body));
      LoggedKeepsAttempt(regex, s, name, start, t);
      SameLogsKeepAttempt(regex, Logged(s, name, start), s', t);
      StartedCall(s, name, t.message);
    } else {
      SameLogsKeepAttempt(regex, s, s', t);
    }
  }

  lemma FinishKeepsAttempt(regex: Regex, s: System, a: nat, sendOk: bool)
    requires Inv(regex, s) && CanFinish(s, a)
    ensures var s' := Next(regex, s, Finish(a, sendOk)); AttemptInv(regex, s', s'.attempts[a])
  {
    var t := s.attempts[a];
    StopProgress(t);
    DoneProgress(t, t.working.value);
    SameLogsKeepAttempt(regex, s, Next(regex, s, Finish(a, sendOk)), t);
  }

  /** An attempt that a step does not move keeps its invariant. */
  lemma OtherAttemptKept(regex: Regex, s: System, step: Step, t: Attempt)
    requires AttemptInv(regex, s, t)
    ensures AttemptInv(regex, Next(regex, s, step), t)
  {
    match step
    case Reporting(name, reportStep) =>
      LoggedKeepsAttempt(regex, s, name, reportStep, t);
    case Visiting(a, ok) =>
      if CanVisit(s, a) && ok && Wants(regex, s.attempts[a].message, SourceNow(s, s.attempts[a].todo[0])) {
        var name, start := s.attempts[a].todo[0], EventReports.Start(EventReports.CloudEvent(s.attempts[a].message.body));
        LoggedKeepsAttempt(regex, s, name, start, t);
        SameLogsKeepAttempt(regex, Logged(s, name, start), Next(regex, s, step), t);
      } else {
        SameLogsKeepAttempt(regex, s, Next(regex, s, step), t);
      }
    case _ =>
      SameLogsKeepAttempt(regex, s, Next(regex, s, step), t);
  }

  lemma StepKeepsInv(regex: Regex, s: System, step: Step)
    requires Inv(regex, s)
    ensures Inv(regex, Next(regex, s, step))
  {
    var s' := Next(regex, s, step);
    forall a | 0 <= a < |s'.attempts| ensures AttemptInv(regex, s', s'.attempts[a]) {
      if step.Visiting? && step.a == a && CanVisit(s, a) {
        VisitKeepsAttempt(regex, s, a, step.ok);
      } else if step.Finish? && step.a == a && CanFinish(s, a) {
        FinishKeepsAttempt(regex, s, a, step.sendOk);
      } else if a < |s.attempts| {
        OtherAttemptKept(regex, s, step, s.attempts[a]);
      }
    }
  }

  lemma {:induction false} ExecKeepsInv(regex: Regex, steps: seq<Step>)
    ensures Inv(regex, Exec(regex, steps))
  {
    if steps != [] {
      ExecKeepsInv(regex, steps[..|steps| - 1]);
      StepKeepsInv(regex, Exec(regex, steps[..|steps| - 1]), steps[|steps| - 1]);
    }
  }

  // ----- attempts, told by the steps -----

  /** What the EventSource was last set to. */
  function LastSet(steps: seq<Step>, name: string): Option<Source> {
    if steps == [] then None
    else
      var step := steps[|steps| - 1];
      if step.SetSource? && step.name == name then step.source else LastSet(steps[..|steps| - 1], name)
  }

  /** The EventSource was registered, and not unregistered since. */
  predicate Registered(steps: seq<Step>, name: string) {
    steps != [] &&
    var step := steps[|steps| - 1];
    if step == Register(name) then true
    else if step == Unregister(name) then false
    else Registered(steps[..|steps| - 1], name)
  }

  lemma StepOnSources(regex: Regex, s: System, step: Step, name: string)
    ensures SourceNow(Next(regex, s, step), name) ==
            if step.SetSource? && step.name == name then step.source else SourceNow(s, name)
    ensures name in Next(regex, s, step).registered <==>
            step == Register(name) || (name in s.registered && step != Unregister(name))
  {}

  lemma {:induction false} SourcesOfSteps(regex: Regex, steps: seq<Step>, name: string)
    ensures SourceNow(Exec(regex, steps), name) == LastSet(steps, name)
    ensures name in Exec(regex, steps).registered <==> Registered(steps, name)
  {
    if steps != [] {
      SourcesOfSteps(regex, steps[..|steps| - 1], name);
      StepOnSources(regex, Exec(regex, steps[..|steps| - 1]), steps[|steps| - 1], name);
    }
  }

  /** Step d delivers a message, with all EventSources registered then as its snapshot; that is attempt a. */
  ghost predicate DeliversAt(regex: Regex, steps: seq<Step>, d: nat, a: nat) {
    && d < |steps| && steps[d].Deliver?
    && var s := Exec(regex, steps[..d]); |s.attempts| == a && Enumerates(steps[d].order, s.registered)
  }

  /** At step k attempt a comes to EventSource name, which it can read. */
  ghost predicate VisitsAt(regex: Regex, steps: seq<Step>, k: nat, a: nat, name: string) {
    && k < |steps| && steps[k] == Visiting(a, true)
    && var s := Exec(regex, steps[..k]); CanVisit(s, a) && s.attempts[a].todo[0] == name
  }

  ghost predicate SeenAt(regex: Regex, steps: seq<Step>, k: nat, a: nat, name: string, v: Visit) {
    VisitsAt(regex, steps, k, a, name) && v.seen == LastSet(steps[..k], name)
  }

  /** At step f the call that attempt a made for EventSource name has returned, and sending the report succeeds. */
  ghost predicate SendsAt(regex: Regex, steps: seq<Step>, f: nat, a: nat, name: string) {
    && f < |steps| && steps[f] == Finish(a, true)
    && var s := Exec(regex, steps[..f]); CanFinish(s, a) && s.attempts[a].todo[0] == name
  }

  /** A visit that is done made no call, or its report was sent. */
  ghost predicate SentInv(regex: Regex, steps: seq<Step>, a: nat, t: Attempt) {
    forall name <- t.visits :: t.visits[name].call.Some? ==> exists f: nat :: SendsAt(regex, steps, f, a, name)
  }

  lemma {:induction false} VisitsAreSent(regex: Regex, steps: seq<Step>, a: nat)
    requires a < |Exec(regex, steps).attempts|
    ensures SentInv(regex, steps, a, Exec(regex, steps).attempts[a])
  {
    var before := steps[..|steps| - 1];
    var s := Exec(regex, before);
    if a < |s.attempts| {
      VisitsAreSent(regex, before, a);
      StepOnVisits(regex, s, steps[|steps| - 1], a);
      SentOneMore(regex, steps, a, s.attempts[a], Exec(regex, steps).attempts[a]);
    }
  }

  lemma SentOneMore(regex: Regex, steps: seq<Step>, a: nat, t: Attempt, t': Attempt)
    requires steps != [] && SentInv(regex, steps[..|steps| - 1], a, t)
    requires forall name <- t'.visits ::
               || (name in t.visits && t'.visits[name] == t.visits[name])
               || t'.visits[name].call.None?
               || SendsAt(regex, steps, |steps| - 1, a, name)
    ensures SentInv(regex, steps, a, t')
  {
    var before := steps[..|steps| - 1];
    forall name <- t'.visits | t'.visits[name].call.Some? ensures exists f: nat :: SendsAt(regex, steps, f, a, name) {
      if name in t.visits && t'.visits[name] == t.visits[name] {
        var f: nat :| SendsAt(regex, before, f, a, name);
        assert before[..f] == steps[..f];
        assert SendsAt(regex, steps, f, a, name);
      }
    }
  }

  /** A visit with a call is recorded only when the call has returned and the report was sent. */
  lemma StepOnVisits(regex: Regex, s: System, step: Step, a: nat)
    requires a < |s.attempts|
    ensures var t, t' := s.attempts[a], Next(regex, s, step).attempts[a];
            forall name <- t'.visits ::
              || (name in t.visits && t'.visits[name] == t.visits[name])
              || t'.visits[name].call.None?
              || (step == Finish(a, true) && CanFinish(s, a) && t.todo[0] == name)
  {}

  /** What an attempt records is what happened at the steps. */
  ghost predicate AttemptIsSteps(regex: Regex, steps: seq<Step>, a: nat, t: Attempt) {
    && (exists d: nat :: DeliversAt(regex, steps, d, a) && t.message == steps[d].message && t.snapshot == steps[d].order)
    && (t.working.Some? && t.todo != [] ==> exists k: nat :: SeenAt(regex, steps, k, a, t.todo[0], t.working.value))
    && forall name <- t.visits :: exists k: nat :: SeenAt(regex, steps, k, a, name, t.visits[name])
  }

  lemma SeenBefore(regex: Regex, steps: seq<Step>, k: nat, a: nat, name: string, v: Visit)
    requires steps != [] && SeenAt(regex, steps[..|steps| - 1], k, a, name, v)
    ensures SeenAt(regex, steps, k, a, name, v)
  {
    assert steps[..|steps| - 1][..k] == steps[..k];
  }

  /** A longer run says as much about an attempt that did not change. */
  lemma SameAttemptIsSteps(regex: Regex, steps: seq<Step>, a: nat, t: Attempt)
    requires steps != [] && AttemptIsSteps(regex, steps[..|steps| - 1], a, t)
    ensures AttemptIsSteps(regex, steps, a, t)
  {
    var before := steps[..|steps| - 1];
    var d: nat :| DeliversAt(regex, before, d, a) && t.message == before[d].message && t.snapshot == before[d].order;
    assert before[..d] == steps[..d];
    assert DeliversAt(regex, steps, d, a);
    if t.working.Some? && t.todo != [] {
      var k: nat :| SeenAt(regex, before, k, a, t.todo[0], t.working.value);
      SeenBefore(regex, steps, k, a, t.todo[0], t.working.value);
    }
    forall name <- t.visits ensures exists k: nat :: SeenAt(regex, steps, k, a, name, t.visits[name]) {
      var k: nat :| SeenAt(regex, before, k, a, name, t.visits[name]);
      SeenBefore(regex, steps, k, a, name, t.visits[name]);
    }
  }

  /** What coming to an EventSource does to the attempt: a call is under way, or the EventSource is done with. */
  lemma VisitOnAttempt(regex: Regex, s: System, a: nat)
    requires CanVisit(s, a)
    ensures var t, t' := s.attempts[a], Next(regex, s, Visiting(a, true)).attempts[a];
            var name, seen := t.todo[0], SourceNow(s, t.todo[0]);
            && t'.message == t.message && t'.snapshot == t.snapshot
            && (|| (t'.todo == t.todo && t'.visits == t.visits && t'.working.Some? && t'.working.value.seen == seen)
                || (t'.visits == t.visits[name := Visit(seen, None)] && t'.working.None?))
  {}

  /** An attempt that has changed like this at the last step still is what happened at the steps. */
  lemma ChangedAttemptIsSteps(regex: Regex, steps: seq<Step>, k: nat, a: nat, t: Attempt, t': Attempt, name: string)
    requires AttemptIsSteps(regex, steps, a, t) && t'.message == t.message && t'.snapshot == t.snapshot
    requires VisitsAt(regex, steps, k, a, name)
    requires || (t'.todo == t.todo && t.todo != [] && t.todo[0] == name && t'.visits == t.visits
                 && t'.working.Some? && t'.working.value.seen == LastSet(steps[..k], name))
             || (t'.working.None? && t'.visits == t.visits[name := Visit(LastSet(steps[..k], name), None)])
    ensures AttemptIsSteps(regex, steps, a, t')
  {
    if t'.working.Some? {
      assert SeenAt(regex, steps, k, a, name, t'.working.value);
    } else {
      assert SeenAt(regex, steps, k, a, name, t'.visits[name]);
    }
  }

  lemma VisitIsStep(regex: Regex, steps: seq<Step>, a: nat)
    requires steps != []
    requires var s, step := Exec(regex, steps[..|steps| - 1]), steps[|steps| - 1];
             step == Visiting(a, true) && CanVisit(s, a) && AttemptIsSteps(regex, steps, a, s.attempts[a])
    ensures AttemptIsSteps(regex, steps, a, Exec(regex, steps).attempts[a])
  {
    var before := steps[..|steps| - 1];
    var s := Exec(regex, before);
    var name := s.attempts[a].todo[0];
    SourcesOfSteps(regex, before, name);
    VisitOnAttempt(regex, s, a);
    assert steps[..|before|] == before;
    ChangedAttemptIsSteps(regex, steps, |before|, a, s.attempts[a], Exec(regex, steps).attempts[a], name);
  }

  lemma {:induction false} AttemptsOfSteps(regex: Regex, steps: seq<Step>, a: nat)
    requires a < |Exec(regex, steps).attempts|
    ensures AttemptIsSteps(regex, steps, a, Exec(regex, steps).attempts[a])
  {
    var before, step := steps[..|steps| - 1], steps[|steps| - 1];
    var s := Exec(regex, before);
    if a >= |s.attempts| {
      assert steps[..|before|] == before;
      assert DeliversAt(regex, steps, |before|, a);
    } else {
      AttemptsOfSteps(regex, before, a);
      SameAttemptIsSteps(regex, steps, a, s.attempts[a]);
      if step == Visiting(a, true) && CanVisit(s, a) {
        VisitIsStep(regex, steps, a);
      } else if Exec(regex, steps).attempts[a] != s.attempts[a] {
        ChangedOtherwise(regex, s, step, a);
        OtherwiseIsSteps(regex, steps, a, s.attempts[a], Exec(regex, steps).attempts[a]);
      }
    }
  }

  /** Every other change of an attempt stops it, or ends the visit that was under way. */
  lemma ChangedOtherwise(regex: Regex, s: System, step: Step, a: nat)
    requires a < |s.attempts| && Next(regex, s, step).attempts[a] != s.attempts[a]
    requires !(step == Visiting(a, true) && CanVisit(s, a))
    ensures var t, t' := s.attempts[a], Next(regex, s, step).attempts[a];
            && t'.message == t.message && t'.snapshot == t.snapshot
            && ((t'.working == t.working && t'.todo == t.todo) || t'.working.None?)
            && (t'.visits == t.visits
                || (t.working.Some? && t.todo != [] && t'.visits == t.visits[t.todo[0] := t.working.value]))
  {}

  lemma OtherwiseIsSteps(regex: Regex, steps: seq<Step>, a: nat, t: Attempt, t': Attempt)
    requires AttemptIsSteps(regex, steps, a, t) && t'.message == t.message && t'.snapshot == t.snapshot
    requires (t'.working == t.working && t'.todo == t.todo) || t'.working.None?
    requires || t'.visits == t.visits
             || (t.working.Some? && t.todo != [] && t'.visits == t.visits[t.todo[0] := t.working.value])
    ensures AttemptIsSteps(regex, steps, a, t')
  {}

  // ----- the guarantees -----

  /** The report the event of call i went to still lives. */
  predicate Lives(r: EventReports.System, i: nat)
    requires i < |r.calls| && r.calls[i].at.Returned?
  {
    r.report.Some? && r.report.value.uid == r.calls[i].at.uid
  }

  /**
   * In every run, a message is acknowledged only by an attempt that, after the message was delivered at step d, came to
   * every EventSource registered then. A call of createEventReport was made exactly if the EventSource was live at that
   * step k and one of its criteria selected the message. That call succeeded, the report was sent if reports are, and
   * for as long as the report it wrote to lives, that holds the event, stored by this call once and once more for every
   * status write it lost.
   */
  lemma AckMeansDelivered(regex: Regex, steps: seq<Step>, a: nat, name: string) returns (d: nat, k: nat)
    requires var s := Exec(regex, steps); a < |s.attempts| && s.attempts[a].status.Acked?
    ensures DeliversAt(regex, steps, d, a)
    ensures Registered(steps[..d], name) ==>
              && VisitsAt(regex, steps, k, a, name)
              && name in Exec(regex, steps).attempts[a].visits
              && var s, source, message := Exec(regex, steps), LastSet(steps[..k], name), steps[d].message;
                 var call := s.attempts[a].visits[name].call;
                 && (call.Some? <==>
                       source.Some? && !source.value.deleting && Selected(regex, message, source.value.criteria))
                 && (call.Some? ==>
                   && (exists f: nat :: SendsAt(regex, steps, f, a, name))
                   && var log, i := Log(s, name), call.value;
                      var r := EventReports.Exec(log);
                      && IsCall(s, name, i, message, true)
                      && (Lives(r, i) ==>
                            && message.body in r.report.value.cloudEvents
                            && EventReports.Occurrences(r.writers, i) ==
                               1 + EventReports.Conflicts(log, i, r.report.value.uid)))
  {
    ExecKeepsInv(regex, steps);
    AttemptsOfSteps(regex, steps, a);
    VisitsAreSent(regex, steps, a);
    var s := Exec(regex, steps);
    var t := s.attempts[a];
    assert AttemptInv(regex, s, t);
    d :| DeliversAt(regex, steps, d, a) && t.message == steps[d].message && t.snapshot == steps[d].order;
    SourcesOfSteps(regex, steps[..d], name);
    k := 0;
    if Registered(steps[..d], name) {
      assert name in ToSet(t.snapshot);
      var v := t.visits[name];
      k :| SeenAt(regex, steps, k, a, name, v);
      if v.seen.Some? {
        AnyMatchExactly(regex, t.message, v.seen.value.criteria);
      }
      assert VisitInv(regex, s, t.message, name, v, true);
      if v.call.Some? && Lives(EventReports.Exec(Log(s, name)), v.call.value) {
        EventReports.SuccessMeansPresent(Log(s, name), v.call.value);
        EventReports.StoredOncePlusConflicts(Log(s, name), v.call.value);
      }
    }
  }

  /** An attempt that has come to an EventSource is done with it, or waits for its call. */
  ghost predicate PastVisit(t: Attempt, name: string) {
    forall j | 0 <= j < |t.todo| :: t.todo[j] == name ==> j == 0 && t.working.Some?
  }

  lemma StepKeepsPast(regex: Regex, s: System, step: Step, a: nat, name: string)
    requires Inv(regex, s) && a < |s.attempts|
    requires PastVisit(s.attempts[a], name) || (step == Visiting(a, true) && CanVisit(s, a) && s.attempts[a].todo[0] == name)
    ensures PastVisit(Next(regex, s, step).attempts[a], name)
  {
    var t := s.attempts[a];
    assert AttemptInv(regex, s, t);
    assert t.todo != [] ==> forall j | 0 <= j < |t.todo| - 1 :: t.todo[1..][j] == t.todo[j + 1];
  }

  lemma {:induction false} PastAfterVisit(regex: Regex, steps: seq<Step>, a: nat, name: string, k: nat)
    requires VisitsAt(regex, steps, k, a, name)
    ensures a < |Exec(regex, steps).attempts| && PastVisit(Exec(regex, steps).attempts[a], name)
    decreases |steps|
  {
    var before := steps[..|steps| - 1];
    ExecKeepsInv(regex, before);
    if k == |steps| - 1 {
      assert steps[..k] == before;
    } else {
      assert before[..k] == steps[..k];
      PastAfterVisit(regex, before, a, name, k);
    }
    StepKeepsPast(regex, Exec(regex, before), steps[|steps| - 1], a, name);
  }

  /** One attempt comes to an EventSource, and so calls createEventReport for it, at most once. */
  lemma OneVisitPerSource(regex: Regex, steps: seq<Step>, a: nat, name: string, k: nat, l: nat)
    requires VisitsAt(regex, steps, k, a, name) && VisitsAt(regex, steps, l, a, name)
    ensures k == l
  {
    if k != l {
      var first, second := if k < l then k else l, if k < l then l else k;
      assert steps[..second][..first] == steps[..first];
      PastAfterVisit(regex, steps[..second], a, name, first);
      assert false;
    }
  }

  /** The calls of createEventReport that an attempt has made are for different EventSources. */
  lemma OneCreatePerSource(regex: Regex, steps: seq<Step>, a: nat)
    requires a < |Exec(regex, steps).attempts|
    ensures var creates := Exec(regex, steps).attempts[a].creates;
            forall i, j | 0 <= i < j < |creates| :: creates[i] != creates[j]
  {
    ExecKeepsInv(regex, steps);
    assert AttemptInv(regex, Exec(regex, steps), Exec(regex, steps).attempts[a]);
  }

  // ----- a delivery that nothing disturbs -----

  lemma ExecOneMore(regex: Regex, steps: seq<Step>, step: Step)
    ensures Exec(regex, steps + [step]) == Next(regex, Exec(regex, steps), step)
  {
    assert (steps + [step])[..|steps|] == steps;
  }

  /** A message is delivered to the one EventSource there is. */
  lemma DeliveryIsReached(regex: Regex, name: string, source: Source, message: Message) returns (steps: seq<Step>)
    ensures var s := Exec(regex, steps);
            && s.logs == map[] && SourceNow(s, name) == Some(source)
            && s.attempts == [Attempt(message, [name], [name], map[], None, [], Running)]
  {
    ExecOneMore(regex, [], SetSource(name, Some(source)));
    steps := [] + [SetSource(name, Some(source))];
    ExecOneMore(regex, steps, Register(name));
    steps := steps + [Register(name)];
    assert ToSet([name]) == {name};
    ExecOneMore(regex, steps, Deliver(message, [name]));
    steps := steps + [Deliver(message, [name])];
  }

  /** The attempt comes to it and starts a call. */
  lemma CallIsStarted(regex: Regex, s: System, name: string, source: Source, message: Message)
    requires s.logs == map[] && SourceNow(s, name) == Some(source) && !source.deleting
    requires s.attempts == [Attempt(message, [name], [name], map[], None, [], Running)]
    requires AnyMatch(regex, message, source.criteria)
    ensures var s' := Next(regex, s, Visiting(0, true));
            && Log(s', name) == [EventReports.Start(EventReports.CloudEvent(message.body))]
            && s'.attempts == [Attempt(message, [name], [name], map[], Some(Visit(Some(source), Some(0))), [name], Running)]
  {
    assert Calls(s, name) == [];
    assert Calling(s.attempts[0], Visit(Some(source), Some(0))) ==
      Attempt(message, [name], [name], map[], Some(Visit(Some(source), Some(0))), [name], Running);
  }

  lemma VisitIsReached(regex: Regex, name: string, source: Source, message: Message) returns (steps: seq<Step>)
    requires !source.deleting && Selected(regex, message, source.criteria)
    ensures var s := Exec(regex, steps);
            && Log(s, name) == [EventReports.Start(EventReports.CloudEvent(message.body))]
            && s.attempts == [Attempt(message, [name], [name], map[], Some(Visit(Some(source), Some(0))), [name], Running)]
  {
    AnyMatchExactly(regex, message, source.criteria);
    steps := DeliveryIsReached(regex, name, source, message);
    CallIsStarted(regex, Exec(regex, steps), name, source, message);
    ExecOneMore(regex, steps, Visiting(0, true));
    steps := steps + [Visiting(0, true)];
  }

  /** What is done to a report leaves the attempts alone. */
  lemma {:induction false} ReportingOnly(regex: Regex, steps: seq<Step>, name: string, more: seq<EventReports.Step>)
    returns (longer: seq<Step>)
    ensures Log(Exec(regex, longer), name) == Log(Exec(regex, steps), name) + more
    ensures Exec(regex, longer).attempts == Exec(regex, steps).attempts
    decreases |more|
  {
    if more == [] {
      longer := steps;
    } else {
      var init, last := more[..|more| - 1], more[|more| - 1];
      var most := ReportingOnly(regex, steps, name, init);
      ExecOneMore(regex, most, Reporting(name, last));
      longer := most + [Reporting(name, last)];
      assert more == init + [last];
    }
  }

  /** Undisturbed, a message that an EventSource selects is stored in its report and acknowledged. */
  lemma DeliveryIsAcked(regex: Regex, name: string, source: Source, message: Message) returns (steps: seq<Step>)
    requires !source.deleting && Selected(regex, message, source.criteria)
    ensures var s := Exec(regex, steps);
            && |s.attempts| == 1 && s.attempts[0].status == Acked
            && var report := EventReports.Exec(Log(s, name)).report;
               report.Some? && report.value.cloudEvents == [message.body]
  {
    steps := VisitIsReached(regex, name, source, message);
    var call := EventReports.FirstCall(message.body);
    EventReports.FirstCallSucceeds(message.body);
    steps := ReportingOnly(regex, steps, name, call[1..]);
    assert call == [call[0]] + call[1..];
    var s := Exec(regex, steps);
    assert Log(s, name) == call && CanFinish(s, 0);
    ExecOneMore(regex, steps, Finish(0, true));
    steps := steps + [Finish(0, true)];
    assert Exec(regex, steps).attempts[0].todo == [];
    ExecOneMore(regex, steps, Settle(0));
    steps := steps + [Settle(0)];
  }
}
