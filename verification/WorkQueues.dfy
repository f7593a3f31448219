/**
 * The queues of Classifiers, HealthChecks and EventSources awaiting evaluation. Controllers and watchers add names at
 * any time; one worker drains the queue into a snapshot, evaluates it name by name and queues the failures again.
 */
module WorkQueues {
  import opened Prelude

  // ----- the queue as the manager keeps it -----

  class JobQueue {
    var jobs: map<string, bool>

    constructor ()
      ensures jobs == map[]
    {
      jobs := map[];
    }

    /** EvaluateClassifier, EvaluateHealthCheck, EvaluateEventSource. */
    method Enqueue(name: string)
      modifies this
      ensures jobs.Keys == old(jobs).Keys + {name}
    {
      jobs := jobs[name := true];
    }

    /** Copies the queue, in whatever order the map is iterated, and resets it. */
    method Drain() returns (snapshot: seq<string>)
      modifies this
      ensures Enumerates(snapshot, old(jobs).Keys) && jobs == map[]
    {
      snapshot := [];
      var pending := jobs.Keys;
      while pending != {}
        invariant pending <= jobs.Keys && Enumerates(snapshot, jobs.Keys - pending)
        invariant jobs == old(jobs)
      {
        var name :| name in pending;
        assert name !in ToSet(snapshot);
        assert ToSet(snapshot + [name]) == ToSet(snapshot) + {name};
        snapshot, pending := snapshot + [name], pending - {name};
      }
      assert jobs.Keys - pending == jobs.Keys;
      jobs := map[];
    }

    /** One round without concurrent requests: every queued name is evaluated once, and the failures stay queued. */
    method Round(fails: string -> bool) returns (evaluated: seq<string>)
      modifies this
      ensures Enumerates(evaluated, old(jobs).Keys)
      ensures jobs.Keys == set name | name in old(jobs) && fails(name)
    {
      evaluated := Drain();
      var failed: seq<string> := [];
      for i := 0 to |evaluated|
        invariant jobs == map[]
        invariant forall name :: name in failed <==> name in evaluated[..i] && fails(name)
      {
        assert evaluated[..i + 1] == evaluated[..i] + [evaluated[i]];
        if fails(evaluated[i]) {
          failed := failed + [evaluated[i]];
        }
      }
      for i := 0 to |failed|
        invariant jobs.Keys == ToSet(failed[..i])
      {
        Enqueue(failed[i]);
      }
      assert failed[..|failed|] == failed && evaluated[..|evaluated|] == evaluated;
      assert forall name :: name in evaluated <==> name in ToSet(evaluated);
    }
  }

  // ----- the queue under concurrency -----

  /**
   * clock orders the steps. requested and served hold, for each name, when it was last requested and when the last
   * successful evaluation of it began.
   */
  datatype System = System(
    queue: set<string>, snapshot: seq<string>, inFlight: Option<(string, nat)>, failed: seq<string>,
    clock: nat, requested: map<string, nat>, served: map<string, nat>)

  datatype Step = Request(name: string) | Drain(order: seq<string>) | Begin | End(ok: bool) | Requeue

  const INITIAL := System({}, [], None, [], 0, map[], map[])

  predicate Idle(s: System) {
    s.snapshot == [] && s.inFlight.None? && s.failed == []
  }

  /** The effect of one step; a step that is not possible only lets time pass. */
  ghost function Next(s: System, step: Step): System {
    var t := s.(clock := s.clock + 1);
    match step
    case Request(name) => t.(queue := s.queue + {name}, requested := s.requested[name := s.clock])
    case Drain(order) =>
      if Idle(s) && Enumerates(order, s.queue) then t.(queue := {}, snapshot := order) else t
    case Begin =>
      if s.inFlight.None? && s.snapshot != [] then
        t.(snapshot := s.snapshot[1..], inFlight := Some((s.snapshot[0], s.clock)))
      else t
    case End(ok) =>
      if s.inFlight.None? then t
      else if ok then t.(inFlight := None, served := s.served[s.inFlight.value.0 := s.inFlight.value.1])
      else t.(inFlight := None, failed := s.failed + [s.inFlight.value.0])
    case Requeue =>
      if s.inFlight.None? && s.snapshot == [] && s.failed != [] then
        t.(queue := s.queue + {s.failed[0]}, failed := s.failed[1..])
      else t
  }

  ghost function Exec(steps: seq<Step>): System {
    if steps == [] then INITIAL else Next(Exec(steps[..|steps| - 1]), steps[|steps| - 1])
  }

  /** An evaluation of name that began after its last request has succeeded. */
  ghost predicate Served(s: System, name: string) {
    name in s.requested && name in s.served && s.served[name] > s.requested[name]
  }

  /** name is waiting, or an evaluation begun after its last request is under way. */
  ghost predicate Known(s: System, name: string) {
    || name in s.queue || name in s.snapshot || name in s.failed
    || (s.inFlight.Some? && s.inFlight.value.0 == name && (name in s.requested ==> s.inFlight.value.1 > s.requested[name]))
  }

  ghost predicate NameInv(s: System, name: string) {
    && (name in s.requested ==> s.requested[name] < s.clock && (Served(s, name) || Known(s, name)))
    && (name in s.served ==> s.served[name] < s.clock)
    && (name in s.queue || name in s.snapshot || name in s.failed ==> name in s.requested)
    && (s.inFlight.Some? && s.inFlight.value.0 == name ==>
          name in s.requested && s.inFlight.value.1 < s.clock && (name in s.served ==> s.served[name] < s.inFlight.value.1))
  }

  ghost predicate Inv(s: System) {
    forall name :: NameInv(s, name)
  }

  lemma StepKeepsName(s: System, step: Step, name: string)
    requires NameInv(s, name)
    ensures NameInv(Next(s, step), name)
  {
    match step
    case Drain(order) =>
      assert name in order <==> name in ToSet(order);
    case Begin =>
      assert s.snapshot != [] ==> s.snapshot == [s.snapshot[0]] + s.snapshot[1..];
    case Requeue =>
      assert s.failed != [] ==> s.failed == [s.failed[0]] + s.failed[1..];
    case _ =>
  }

  lemma StepKeepsInv(s: System, step: Step)
    requires Inv(s)
    ensures Inv(Next(s, step))
  {
    forall name ensures NameInv(Next(s, step), name) {
      StepKeepsName(s, step, name);
    }
  }

  lemma {:induction false} ExecKeepsInv(steps: seq<Step>)
    ensures Inv(Exec(steps))
  {
    if steps != [] {
      ExecKeepsInv(steps[..|steps| - 1]);
      StepKeepsInv(Exec(steps[..|steps| - 1]), steps[|steps| - 1]);
    }
  }

  // ----- requests and evaluations, told by the steps alone -----

  /** name was requested at step q, and not since. */
  ghost predicate LastRequest(steps: seq<Step>, name: string, q: nat) {
    q < |steps| && steps[q] == Request(name) && forall j | q < j < |steps| :: steps[j] != Request(name)
  }

  /** Step k begins an evaluation of name. */
  ghost predicate BeginsAt(steps: seq<Step>, name: string, k: nat) {
    && k < |steps| && steps[k].Begin?
    && var s := Exec(steps[..k]);
       s.inFlight.None? && s.snapshot != [] && s.snapshot[0] == name
  }

  /** The evaluation begun at step k ends without an error at step e. */
  ghost predicate SucceedsAt(steps: seq<Step>, k: nat, e: nat) {
    k < e < |steps| && steps[e] == End(true) && forall j | k < j < e :: !steps[j].End?
  }

  /** After step q an evaluation of name began that has ended without an error. */
  ghost predicate EvaluatedSince(steps: seq<Step>, name: string, q: nat) {
    exists k: nat, e: nat :: q < k && BeginsAt(steps, name, k) && SucceedsAt(steps, k, e)
  }

  /** The evaluation of name that began at step k is still under way. */
  ghost predicate UnderWay(steps: seq<Step>, name: string, k: nat) {
    BeginsAt(steps, name, k) && forall j | k < j < |steps| :: !steps[j].End?
  }

  /** The times the system records are those of the steps. */
  ghost predicate TimesAreSteps(steps: seq<Step>, name: string) {
    var s := Exec(steps);
    && s.clock == |steps|
    && (name in s.requested ==> LastRequest(steps, name, s.requested[name]))
    && (name !in s.requested ==> Request(name) !in steps)
    && (s.inFlight.Some? && s.inFlight.value.0 == name ==> UnderWay(steps, name, s.inFlight.value.1))
    && (name in s.served ==> BeginsAt(steps, name, s.served[name]) && exists e: nat :: SucceedsAt(steps, s.served[name], e))
  }

  lemma BeginsAtPrefix(steps: seq<Step>, name: string, k: nat)
    requires steps != [] && BeginsAt(steps[..|steps| - 1], name, k)
    ensures BeginsAt(steps, name, k)
  {
    assert steps[..|steps| - 1][..k] == steps[..k];
  }

  /** An evaluation that has ended stays so. */
  lemma SucceedsAtPrefix(steps: seq<Step>, k: nat, e: nat)
    requires steps != [] && SucceedsAt(steps[..|steps| - 1], k, e)
    ensures SucceedsAt(steps, k, e)
  {}

  lemma {:induction false} TimesOfSteps(steps: seq<Step>, name: string)
    ensures TimesAreSteps(steps, name)
  {
    if steps != [] {
      var before, step := steps[..|steps| - 1], steps[|steps| - 1];
      TimesOfSteps(before, name);
      assert steps == before + [step];
      RequestedOfSteps(before, step, name);
      InFlightOfSteps(before, step, name);
      ServedOfSteps(before, step, name);
    }
  }

  lemma RequestedOfSteps(before: seq<Step>, step: Step, name: string)
    requires TimesAreSteps(before, name)
    ensures var steps := before + [step];
            var s := Exec(steps);
            && s.clock == |steps|
            && (name in s.requested ==> LastRequest(steps, name, s.requested[name]))
            && (name !in s.requested ==> Request(name) !in steps)
  {
    var steps := before + [step];
    assert steps[..|steps| - 1] == before;
    var s, s' := Exec(before), Exec(steps);
    assert s'.requested == if step.Request? then s.requested[step.name := s.clock] else s.requested;
    if name in s.requested && step != Request(name) {
      var q := s.requested[name];
      assert forall j | q < j < |steps| :: steps[j] == if j < |before| then before[j] else step;
    }
  }

  lemma InFlightOfSteps(before: seq<Step>, step: Step, name: string)
    requires TimesAreSteps(before, name)
    ensures var steps := before + [step];
            var inFlight := Exec(steps).inFlight;
            inFlight.Some? && inFlight.value.0 == name ==> UnderWay(steps, name, inFlight.value.1)
  {
    var steps := before + [step];
    assert steps[..|steps| - 1] == before;
    var s, s' := Exec(before), Exec(steps);
    if s'.inFlight.Some? && s'.inFlight.value.0 == name {
      if s.inFlight.Some? {
        BeginsAtPrefix(steps, name, s.inFlight.value.1);
      } else {
        assert steps[..|before|] == before;
      }
    }
  }

  lemma ServedOfSteps(before: seq<Step>, step: Step, name: string)
    requires TimesAreSteps(before, name)
    ensures var steps := before + [step];
            var s := Exec(steps);
            name in s.served ==> BeginsAt(steps, name, s.served[name]) && exists e: nat :: SucceedsAt(steps, s.served[name], e)
  {
    var steps := before + [step];
    assert steps[..|steps| - 1] == before;
    var s, s' := Exec(before), Exec(steps);
    if name in s'.served {
      if step == End(true) && s.inFlight.Some? && s.inFlight.value.0 == name {
        BeginsAtPrefix(steps, name, s.inFlight.value.1);
        assert SucceedsAt(steps, s.inFlight.value.1, |before|);
      } else {
        BeginsAtPrefix(steps, name, s.served[name]);
        var e: nat :| SucceedsAt(before, s.served[name], e);
        SucceedsAtPrefix(steps, s.served[name], e);
      }
    }
  }

  // ----- the guarantees -----

  /** name waits in the queue, in the snapshot or in the failed list. */
  ghost predicate Waits(s: System, name: string) {
    name in s.queue || name in s.snapshot || name in s.failed
  }

  /**
   * In every interleaving, for a name last requested at step q: an evaluation of it that began after q has ended
   * without an error, or it waits in the queue, the snapshot or the failed list, or an evaluation of it begun after q
   * is under way.
   */
  lemma NoLostRequest(steps: seq<Step>, name: string, q: nat)
    requires LastRequest(steps, name, q)
    ensures var s := Exec(steps);
            || EvaluatedSince(steps, name, q) || Waits(s, name)
            || exists k: nat :: q < k && UnderWay(steps, name, k)
  {
    ExecKeepsInv(steps);
    TimesOfSteps(steps, name);
    var s := Exec(steps);
    assert NameInv(s, name);
    assert name in s.requested && s.requested[name] == q;
    if Served(s, name) {
      var e: nat :| SucceedsAt(steps, s.served[name], e);
    }
  }

  /** So when the worker has nothing left to do, every request was followed by a successful evaluation. */
  lemma QuietMeansServed(steps: seq<Step>, name: string, q: nat)
    requires LastRequest(steps, name, q)
    requires var s := Exec(steps); Idle(s) && s.queue == {}
    ensures EvaluatedSince(steps, name, q)
  {
    ExecKeepsInv(steps);
    TimesOfSteps(steps, name);
    var s := Exec(steps);
    assert NameInv(s, name);
    assert name in s.requested && s.requested[name] == q;
    var e: nat :| SucceedsAt(steps, s.served[name], e);
  }

  /** And nothing waits or is evaluated that was never requested. */
  lemma OnlyRequested(steps: seq<Step>, name: string)
    requires Waits(Exec(steps), name) || (Exec(steps).inFlight.Some? && Exec(steps).inFlight.value.0 == name)
    ensures Request(name) in steps
  {
    ExecKeepsInv(steps);
    TimesOfSteps(steps, name);
    assert NameInv(Exec(steps), name);
  }

  // ----- at most one evaluation of a name per round -----

  /** Step d starts a new round: the queue is drained into the snapshot. */
  ghost predicate DrainsAt(steps: seq<Step>, d: nat) {
    && d < |steps| && steps[d].Drain?
    && Idle(Exec(steps[..d])) && Enumerates(steps[d].order, Exec(steps[..d]).queue)
  }

  ghost predicate Distinct(names: seq<string>) {
    forall i, j | 0 <= i < j < |names| :: names[i] != names[j]
  }

  lemma {:induction false} SnapshotIsDistinct(steps: seq<Step>)
    ensures Distinct(Exec(steps).snapshot)
  {
    if steps != [] {
      SnapshotIsDistinct(steps[..|steps| - 1]);
    }
  }

  /** A name whose evaluation began at step k is not in the snapshot again before a new round starts. */
  lemma {:induction false} GoneFromSnapshot(steps: seq<Step>, name: string, k: nat)
    requires BeginsAt(steps, name, k) && forall d: nat | k < d < |steps| :: !DrainsAt(steps, d)
    ensures name !in Exec(steps).snapshot
    decreases |steps|
  {
    var before := steps[..|steps| - 1];
    SnapshotIsDistinct(before);
    if k == |steps| - 1 {
      assert steps[..k] == before;
    } else {
      assert before[..k] == steps[..k];
      forall d: nat | k < d < |before| ensures !DrainsAt(before, d) {
        assert before[..d] == steps[..d];
        assert !DrainsAt(steps, d);
      }
      GoneFromSnapshot(before, name, k);
      assert steps[..|steps| - 1] == before && !DrainsAt(steps, |steps| - 1);
    }
  }

  /** Between two evaluations of a name a new round starts. */
  lemma OncePerRound(steps: seq<Step>, name: string, k: nat, l: nat)
    requires k < l && BeginsAt(steps, name, k) && BeginsAt(steps, name, l)
    ensures exists d: nat :: k < d < l && DrainsAt(steps, d)
  {
    var before := steps[..l];
    assert before[..k] == steps[..k];
    if forall d: nat | k < d < l :: !DrainsAt(steps, d) {
      forall d: nat | k < d < |before| ensures !DrainsAt(before, d) {
        assert before[..d] == steps[..d];
        assert !DrainsAt(steps, d);
      }
      GoneFromSnapshot(before, name, k);
      assert false;
    }
  }

  // ----- one round, undisturbed -----

  ghost function ExecFrom(s: System, steps: seq<Step>): System
    decreases steps
  {
    if steps == [] then s else ExecFrom(Next(s, steps[0]), steps[1..])
  }

  lemma {:induction false} ExecFromAppend(s: System, steps: seq<Step>, more: seq<Step>)
    ensures ExecFrom(s, steps + more) == ExecFrom(ExecFrom(s, steps), more)
    decreases steps
  {
    if steps == [] {
      assert steps + more == more;
    } else {
      assert (steps + more)[1..] == steps[1..] + more;
      ExecFromAppend(Next(s, steps[0]), steps[1..], more);
    }
  }

  /** Every name of the snapshot is evaluated in turn. */
  function Evaluations(order: seq<string>, fails: string -> bool): seq<Step> {
    if order == [] then [] else [Begin, End(!fails(order[0]))] + Evaluations(order[1..], fails)
  }

  function Failures(order: seq<string>, fails: string -> bool): seq<string> {
    if order == [] then [] else (if fails(order[0]) then [order[0]] else []) + Failures(order[1..], fails)
  }

  lemma {:induction false} FailuresExactly(order: seq<string>, fails: string -> bool)
    ensures ToSet(Failures(order, fails)) == set name | name in order && fails(name)
  {
    if order != [] {
      FailuresExactly(order[1..], fails);
      assert order == [order[0]] + order[1..];
      assert forall name :: name in Failures(order[1..], fails) <==> name in ToSet(Failures(order[1..], fails));
    }
  }

  function Requeues(n: nat): seq<Step> {
    seq(n, _ => Requeue)
  }

  lemma OneStep(s: System, step: Step, more: seq<Step>)
    ensures ExecFrom(s, [step] + more) == ExecFrom(Next(s, step), more)
  {
    assert ([step] + more)[1..] == more;
  }

  lemma OneEvaluation(s: System, ok: bool, more: seq<Step>) returns (s': System)
    requires s.inFlight.None? && s.snapshot != []
    ensures ExecFrom(s, [Begin, End(ok)] + more) == ExecFrom(s', more)
    ensures s'.queue == s.queue && s'.snapshot == s.snapshot[1..] && s'.inFlight.None?
    ensures s'.failed == s.failed + if ok then [] else [s.snapshot[0]]
  {
    assert [Begin, End(ok)] + more == [Begin] + ([End(ok)] + more);
    OneStep(s, Begin, [End(ok)] + more);
    OneStep(Next(s, Begin), End(ok), more);
    s' := Next(Next(s, Begin), End(ok));
  }

  lemma {:induction false} EvaluatesAll(s: System, order: seq<string>, fails: string -> bool) returns (s': System)
    requires s.inFlight.None? && s.snapshot == order
    ensures s' == ExecFrom(s, Evaluations(order, fails))
    ensures s'.queue == s.queue && s'.snapshot == [] && s'.inFlight.None?
    ensures s'.failed == s.failed + Failures(order, fails)
    decreases |order|
  {
    if order == [] {
      s' := s;
    } else {
      var ok, rest := !fails(order[0]), order[1..];
      var s1 := OneEvaluation(s, ok, Evaluations(rest, fails));
      s' := EvaluatesAll(s1, rest, fails);
      assert Evaluations(order, fails) == [Begin, End(ok)] + Evaluations(rest, fails);
      var failed := if ok then [] else [order[0]];
      assert s.failed + failed + Failures(rest, fails) == s.failed + (failed + Failures(rest, fails));
    }
  }

  lemma OneRequeue(s: System, more: seq<Step>) returns (s': System)
    requires s.inFlight.None? && s.snapshot == [] && s.failed != []
    ensures ExecFrom(s, [Requeue] + more) == ExecFrom(s', more)
    ensures s'.queue == s.queue + {s.failed[0]} && s'.snapshot == [] && s'.inFlight.None? && s'.failed == s.failed[1..]
  {
    OneStep(s, Requeue, more);
    s' := Next(s, Requeue);
  }

  lemma {:induction false} RequeuesAll(s: System, failed: seq<string>) returns (s': System)
    requires s.inFlight.None? && s.snapshot == [] && s.failed == failed
    ensures s' == ExecFrom(s, Requeues(|failed|))
    ensures Idle(s') && s'.queue == s.queue + ToSet(failed)
    decreases |failed|
  {
    if failed == [] {
      s' := s;
    } else {
      assert Requeues(|failed|) == [Requeue] + Requeues(|failed| - 1);
      var s1 := OneRequeue(s, Requeues(|failed| - 1));
      s' := RequeuesAll(s1, failed[1..]);
      assert failed == [failed[0]] + failed[1..];
      assert ToSet(failed) == {failed[0]} + ToSet(failed[1..]);
    }
  }

  function RoundSteps(order: seq<string>, fails: string -> bool): seq<Step> {
    [Drain(order)] + (Evaluations(order, fails) + Requeues(|Failures(order, fails)|))
  }

  /**
   * The steps of one round that nothing disturbs do what JobQueue.Round does: every queued name is evaluated, and
   * afterwards exactly the names whose evaluation failed are queued.
   */
  lemma RoundKeepsFailures(s: System, order: seq<string>, fails: string -> bool)
    requires Idle(s) && Enumerates(order, s.queue)
    ensures Idle(ExecFrom(s, RoundSteps(order, fails)))
    ensures ExecFrom(s, RoundSteps(order, fails)).queue == set name | name in s.queue && fails(name)
  {
    var evaluations, requeues := Evaluations(order, fails), Requeues(|Failures(order, fails)|);
    OneStep(s, Drain(order), evaluations + requeues);
    var s1 := Next(s, Drain(order));
    ExecFromAppend(s1, evaluations, requeues);
    var s2 := EvaluatesAll(s1, order, fails);
    assert s2.failed == Failures(order, fails);
    var s3 := RequeuesAll(s2, Failures(order, fails));
    FailuresExactly(order, fails);
    forall name ensures name in ToSet(Failures(order, fails)) <==> name in s.queue && fails(name) {
      assert name in order <==> name in ToSet(order);
    }
  }
}
