/**
 * The builder of the watch list. Controllers set a flag when a source was reconciled; the builder loads the flag,
 * clears it, lists the sources kind by kind and updates the watchers, while requests and changes go on.
 */
module RebuildFlag {
  import opened Prelude
  import opened WatchSet
  import GvkIndices

  /** The kinds of sources, in the order buildList reads them. */
  datatype SourceKind = Classifiers | HealthChecks | EventSources | Reloaders

  function Position(kind: SourceKind): nat {
    match kind
    case Classifiers => 0
    case HealthChecks => 1
    case EventSources => 2
    case Reloaders => 3
  }

  /**
   * lists holds what was read so far for this build, since when; it is complete with all four kinds. The builder has
   * crashed once closing watchers panicked.
   */
  datatype Builder = Idle | Loaded | Listing(since: nat, lists: seq<set<Gvk>>) | Failing | Crashed

  /**
   * sources says which resource kinds the undeleted instances of each kind of source name now. changed are the kinds
   * of source that changed since the last request; applied is the last list that was applied or found unchanged.
   */
  datatype System = System(
    flag: bool, builder: Builder, clock: nat, lastRequest: Option<nat>,
    sources: map<SourceKind, set<Gvk>>, changed: set<SourceKind>,
    applied: Option<(nat, seq<set<Gvk>>)>, managed: Managed)

  datatype Step =
    | Change(kind: SourceKind, gvks: set<Gvk>)
    | Reconcile(kind: SourceKind)
    | Load
    | Clear
    | List(ok: bool)
    | Apply(list: seq<Gvk>, installed: Option<set<Gvk>>, available: set<Gvk>)
    | SetAgain
    | StartSecretWatcher(ready: bool)

  ghost predicate AllKinds(sources: map<SourceKind, set<Gvk>>) {
    forall kind :: kind in sources
  }

  ghost predicate Initial(s: System) {
    && !s.flag && s.builder == Idle && s.lastRequest == None && AllKinds(s.sources)
    && (forall kind :: kind in s.changed)
    && s.applied == None && s.managed == NOTHING_MANAGED
  }

  function KindAt(i: nat): SourceKind
    requires i < 4
    ensures Position(KindAt(i)) == i
  {
    if i == 0 then Classifiers else if i == 1 then HealthChecks else if i == 2 then EventSources else Reloaders
  }

  /** What buildList returns once the four lists are read: all of them, and Secrets. */
  function Collected(lists: seq<set<Gvk>>): set<Gvk> {
    {SECRET_GVK} + set gvks, g | gvks in lists && g in gvks :: g
  }

  function Requested(s: System): System {
    s.(flag := true, lastRequest := Some(s.clock), changed := {})
  }

  /** The builder applies the list it has built. */
  function Built(s: System, list: seq<Gvk>, installed: Option<set<Gvk>>, available: set<Gvk>): System
    requires s.builder.Listing?
  {
    var (managed, outcome) := AppliedTo(s.managed, list, installed, available);
    match outcome
    case Applied => s.(managed := managed, builder := Idle, applied := Some((s.builder.since, s.builder.lists)))
    case Failed => s.(managed := managed, builder := Failing)
    case Panicked => s.(managed := managed, builder := Crashed)
  }

  /** The effect of one step; a step that is not possible only lets time pass. */
  ghost function Next(before: System, step: Step): System
    requires AllKinds(before.sources)
  {
    var s := before.(clock := before.clock + 1);
    match step
    case Change(kind, gvks) => s.(sources := s.sources[kind := gvks], changed := s.changed + {kind})
    case Reconcile(kind) => if kind.Reloaders? then s else Requested(s)
    case Load => if s.builder.Idle? && s.flag then s.(builder := Loaded) else s
    case Clear => if s.builder.Loaded? then s.(flag := false, builder := Listing(s.clock, [])) else s
    case List(ok) =>
      if s.builder.Listing? && |s.builder.lists| < 4 then
        if ok then
          var gvks := s.sources[KindAt(|s.builder.lists|)];
          s.(builder := Listing(s.builder.since, s.builder.lists + [gvks]))
        else s.(builder := Failing)
      else s
    case Apply(list, installed, available) =>
      if s.builder.Listing? && |s.builder.lists| == 4
         && Ascending(list) && ToSet(list) == Collected(s.builder.lists) then
        Built(s, list, installed, available)
      else s
    case SetAgain => if s.builder.Failing? then s.(flag := true, builder := Idle) else s
    case StartSecretWatcher(ready) =>
      if SECRET_GVK in s.managed.watches.watchers || ready then
        s.(managed := s.managed.(watches := Wanted(s.managed.watches, SECRET_GVK, {SECRET_GVK})))
      else s
  }

  ghost function Exec(start: System, steps: seq<Step>): (s: System)
    requires AllKinds(start.sources)
    ensures AllKinds(s.sources)
  {
    if steps == [] then start else Next(Exec(start, steps[..|steps| - 1]), steps[|steps| - 1])
  }

  // ----- what every step keeps -----

  /** The lists read so far show the sources as they are, except for kinds changed since the last request. */
  ghost predicate Fresh(s: System, since: nat, lists: seq<set<Gvk>>)
    requires AllKinds(s.sources)
  {
    && |lists| <= 4
    && since <= s.clock && (s.lastRequest.Some? ==> s.lastRequest.value < since)
    && forall i | 0 <= i < |lists| :: KindAt(i) in s.changed || lists[i] == s.sources[KindAt(i)]
  }

  ghost predicate FlagInv(s: System)
    requires AllKinds(s.sources)
  {
    && (s.lastRequest.Some? ==> s.lastRequest.value <= s.clock)
    && (s.builder.Loaded? ==> s.flag)
    && (s.builder.Listing? ==> |s.builder.lists| <= 4 && s.builder.since <= s.clock)
    && (!s.flag && s.builder.Listing? ==> Fresh(s, s.builder.since, s.builder.lists))
    && (!s.flag && s.builder.Idle? ==>
          if s.applied.Some? then |s.applied.value.1| == 4 && Fresh(s, s.applied.value.0, s.applied.value.1)
          else s.lastRequest.None? && forall kind :: kind in s.changed)
  }

  lemma StepKeepsFlag(s: System, step: Step)
    requires AllKinds(s.sources) && FlagInv(s)
    ensures FlagInv(Next(s, step))
  {
    if step.List? && s.builder.Listing? {
      assert forall i | 0 <= i < |s.builder.lists| :: (s.builder.lists + [{}])[i] == s.builder.lists[i];
    }
  }

  /** Nothing is recorded, nothing was closed, the builder is alive, and the last list is covered. */
  ghost predicate WatchInv(s: System) {
    && NothingRecorded(s.managed) && !s.builder.Crashed?
    && (s.applied.Some? ==> Covers(s.managed.watches, Collected(s.applied.value.1)))
  }

  lemma StepKeepsWatches(s: System, step: Step)
    requires AllKinds(s.sources) && WatchInv(s)
    ensures WatchInv(Next(s, step)) && s.managed.watches.watchers <= Next(s, step).managed.watches.watchers
  {
    match step
    case Apply(list, installed, available) =>
      ApplyRecordsNothing(s.managed, list, installed, available);
      assert forall g :: g in list <==> g in ToSet(list);
      assert forall g :: g in s.managed.watches.unknown <==> g in ToSet(s.managed.watches.unknown);
      assert SECRET_GVK in Collected(if s.builder.Listing? then s.builder.lists else []);
    case StartSecretWatcher(_) =>
      WantedKeepsOneEach(s.managed.watches, SECRET_GVK, {SECRET_GVK});
    case _ =>
  }

  lemma {:induction false} AlwaysHolds(start: System, steps: seq<Step>)
    requires Initial(start)
    ensures FlagInv(Exec(start, steps)) && WatchInv(Exec(start, steps))
  {
    if steps != [] {
      AlwaysHolds(start, steps[..|steps| - 1]);
      StepKeepsFlag(Exec(start, steps[..|steps| - 1]), steps[|steps| - 1]);
      StepKeepsWatches(Exec(start, steps[..|steps| - 1]), steps[|steps| - 1]);
    }
  }

  // ----- requests, changes and lists, told by the steps -----

  /** A step that asks for a rebuild. */
  predicate IsRequest(step: Step) {
    step.Reconcile? && !step.kind.Reloaders?
  }

  /** The last request is made at step q. */
  ghost predicate LastRequestAt(steps: seq<Step>, q: nat) {
    q < |steps| && IsRequest(steps[q]) && forall j | q < j < |steps| :: !IsRequest(steps[j])
  }

  ghost predicate ChangedSince(steps: seq<Step>, kind: SourceKind, q: int) {
    exists j | 0 <= j < |steps| && q < j :: steps[j].Change? && steps[j].kind == kind
  }

  /** What the undeleted instances of a kind of source name after the steps. */
  ghost function NamedNow(start: System, steps: seq<Step>, kind: SourceKind): set<Gvk>
    requires AllKinds(start.sources)
  {
    if steps == [] then start.sources[kind]
    else
      var step := steps[|steps| - 1];
      if step.Change? && step.kind == kind then step.gvks else NamedNow(start, steps[..|steps| - 1], kind)
  }

  /** gvks is what the i-th kind of source named at some moment after step c. */
  ghost predicate ReadSince(start: System, steps: seq<Step>, c: nat, i: nat, gvks: set<Gvk>)
    requires AllKinds(start.sources) && i < 4
  {
    exists p: nat :: c < p <= |steps| && gvks == NamedNow(start, steps[..p], KindAt(i))
  }

  /** The lists were read after the step that cleared the flag at the given time. */
  ghost predicate ListsRead(start: System, steps: seq<Step>, since: nat, lists: seq<set<Gvk>>)
    requires AllKinds(start.sources)
  {
    && start.clock < since <= start.clock + |steps| && steps[since - start.clock - 1].Clear? && |lists| <= 4
    && forall i | 0 <= i < |lists| :: ReadSince(start, steps, since - start.clock - 1, i, lists[i])
  }

  lemma ListsStillRead(start: System, steps: seq<Step>, since: nat, lists: seq<set<Gvk>>)
    requires AllKinds(start.sources) && steps != [] && ListsRead(start, steps[..|steps| - 1], since, lists)
    ensures ListsRead(start, steps, since, lists)
  {
    var before, c := steps[..|steps| - 1], since - start.clock - 1;
    forall i | 0 <= i < |lists| ensures ReadSince(start, steps, c, i, lists[i]) {
      var p: nat :| c < p <= |before| && lists[i] == NamedNow(start, before[..p], KindAt(i));
      assert before[..p] == steps[..p];
    }
  }

  /** The system records the requests and changes of the steps. */
  ghost predicate RequestsAreSteps(start: System, steps: seq<Step>)
    requires AllKinds(start.sources)
  {
    var s := Exec(start, steps);
    && s.clock == start.clock + |steps|
    && (forall kind :: s.sources[kind] == NamedNow(start, steps, kind))
    && (s.lastRequest.Some? ==> s.lastRequest.value > start.clock && LastRequestAt(steps, s.lastRequest.value - start.clock - 1))
    && (s.lastRequest.None? ==> forall step <- steps :: !IsRequest(step))
    && (forall kind :: kind in s.changed <==>
                         s.lastRequest.None? || ChangedSince(steps, kind, s.lastRequest.value - start.clock - 1))
  }

  /** And the lists it holds are those read at the steps. */
  ghost predicate ListsAreSteps(start: System, steps: seq<Step>)
    requires AllKinds(start.sources)
  {
    var s := Exec(start, steps);
    && (s.builder.Listing? ==> ListsRead(start, steps, s.builder.since, s.builder.lists))
    && (s.applied.Some? ==> ListsRead(start, steps, s.applied.value.0, s.applied.value.1))
  }

  lemma ChangedOneMore(before: seq<Step>, step: Step, kind: SourceKind, q: int)
    requires q < |before|
    ensures ChangedSince(before + [step], kind, q) <==> ChangedSince(before, kind, q) || (step.Change? && step.kind == kind)
  {
    var steps := before + [step];
    if j :| 0 <= j < |before| && q < j && before[j].Change? && before[j].kind == kind {
      assert steps[j] == before[j];
    }
    if step.Change? && step.kind == kind {
      assert steps[|before|] == step;
    }
  }

  /** What one step does to the recorded requests and changes. */
  lemma StepOnRequests(s: System, step: Step)
    requires AllKinds(s.sources)
    ensures var s' := Next(s, step);
            && s'.clock == s.clock + 1
            && (forall kind :: s'.sources[kind] == if step.Change? && step.kind == kind then step.gvks else s.sources[kind])
            && s'.lastRequest == (if IsRequest(step) then Some(s.clock + 1) else s.lastRequest)
            && s'.changed == if IsRequest(step) then {} else if step.Change? then s.changed + {step.kind} else s.changed
  {}

  lemma {:induction false} RequestsOfSteps(start: System, steps: seq<Step>)
    requires Initial(start)
    ensures RequestsAreSteps(start, steps)
  {
    if steps != [] {
      var before, step := steps[..|steps| - 1], steps[|steps| - 1];
      var s := Exec(start, before);
      RequestsOfSteps(start, before);
      StepOnRequests(s, step);
      assert steps == before + [step];
      if s.lastRequest.Some? && !IsRequest(step) {
        var q := s.lastRequest.value - start.clock - 1;
        forall kind ensures ChangedSince(steps, kind, q) <==> ChangedSince(before, kind, q) || (step.Change? && step.kind == kind) {
          ChangedOneMore(before, step, kind, q);
        }
      }
    }
  }

  /** What one step does to the lists of the builder. */
  lemma StepOnLists(s: System, step: Step)
    requires AllKinds(s.sources)
    ensures var s' := Next(s, step);
            && (s'.builder.Listing? ==>
                  || s'.builder == s.builder
                  || (step.Clear? && s'.builder == Listing(s.clock + 1, []))
                  || (&& s.builder.Listing? && |s.builder.lists| < 4
                      && s'.builder == Listing(s.builder.since, s.builder.lists + [s.sources[KindAt(|s.builder.lists|)]])
                      && !step.Change?))
            && (s'.applied == s.applied
                || (s.builder.Listing? && s'.applied == Some((s.builder.since, s.builder.lists))))
  {}

  lemma {:induction false} ListsOfSteps(start: System, steps: seq<Step>)
    requires Initial(start)
    ensures ListsAreSteps(start, steps)
  {
    if steps != [] {
      var before, step := steps[..|steps| - 1], steps[|steps| - 1];
      var s, s' := Exec(start, before), Exec(start, steps);
      ListsOfSteps(start, before);
      RequestsOfSteps(start, before);
      RequestsOfSteps(start, steps);
      StepOnLists(s, step);
      StepOnRequests(s, step);
      if s.applied.Some? {
        ListsStillRead(start, steps, s.applied.value.0, s.applied.value.1);
      }
      if s.builder.Listing? {
        var lists := s.builder.lists;
        ListsStillRead(start, steps, s.builder.since, lists);
        if s'.builder.Listing? && |lists| < 4 && s'.builder.lists == lists + [s.sources[KindAt(|lists|)]] && !step.Change? {
          assert steps[..|steps|] == steps;
          assert ReadSince(start, steps, s.builder.since - start.clock - 1, |lists|, s.sources[KindAt(|lists|)]);
          assert forall i | 0 <= i < |lists| :: s'.builder.lists[i] == lists[i];
        }
      }
    }
  }

  // ----- the guarantees -----

  ghost predicate Quiet(s: System) {
    !s.flag && s.builder.Idle?
  }

  /**
   * Whenever the flag is down and the builder idle, the last list that was applied or found unchanged consists of what
   * the four kinds of source named after the last request, made at step q.
   */
  lemma NoLostRebuild(start: System, steps: seq<Step>, q: nat)
    requires Initial(start) && Quiet(Exec(start, steps)) && LastRequestAt(steps, q)
    ensures var s := Exec(start, steps);
            && s.applied.Some? && |s.applied.value.1| == 4
            && forall i | 0 <= i < 4 :: ReadSince(start, steps, q, i, s.applied.value.1[i])
  {
    AlwaysHolds(start, steps);
    RequestsOfSteps(start, steps);
    ListsOfSteps(start, steps);
    var s := Exec(start, steps);
    assert s.lastRequest == Some(start.clock + q + 1);
    var since, lists := s.applied.value.0, s.applied.value.1;
    forall i | 0 <= i < 4 ensures ReadSince(start, steps, q, i, lists[i]) {
      var p: nat :| since - start.clock - 1 < p <= |steps| && lists[i] == NamedNow(start, steps[..p], KindAt(i));
    }
  }

  /**
   * Then every resource kind that a source names now has a watcher or is noted as not installed, for every kind of
   * source that did not change since that request; and so have Secrets.
   */
  lemma QuietMeansWatched(start: System, steps: seq<Step>, q: nat, kind: SourceKind, g: Gvk)
    requires Initial(start) && Quiet(Exec(start, steps)) && LastRequestAt(steps, q)
    requires g == Gvk("", "v1", "Secret") || (!ChangedSince(steps, kind, q) && g in NamedNow(start, steps, kind))
    ensures var watches := Exec(start, steps).managed.watches; g in watches.watchers || g in watches.unknown
  {
    AlwaysHolds(start, steps);
    RequestsOfSteps(start, steps);
    var s := Exec(start, steps);
    assert s.lastRequest == Some(start.clock + q + 1);
    var lists := s.applied.value.1;
    if g != SECRET_GVK {
      assert KindAt(Position(kind)) == kind;
      assert lists[Position(kind)] == s.sources[kind];
    }
    assert g in Collected(lists);
  }

  lemma KindsAreNames(items: seq<GvkIndices.Instance>)
    ensures forall g :: g in GvkIndices.KindsOf(items) <==> GvkIndices.Names(Listed(items), g)
  {}

  /** What the builder applies is the list that buildList returns for the four listings. */
  lemma CollectedIsBuilt(classifiers: seq<GvkIndices.Instance>, healthChecks: seq<GvkIndices.Instance>,
                         eventSources: seq<GvkIndices.Instance>, reloaders: seq<GvkIndices.Reloader>)
    ensures var kinds := [GvkIndices.KindsOf(classifiers), GvkIndices.KindsOf(healthChecks), GvkIndices.KindsOf(eventSources),
                          GvkIndices.KindsOf(GvkIndices.Watching(Listed(reloaders)).items)];
            GvkIndices.IsBuilt(Collected(kinds), Listed(classifiers), Listed(healthChecks), Listed(eventSources), Listed(reloaders))
  {
    var kinds := [GvkIndices.KindsOf(classifiers), GvkIndices.KindsOf(healthChecks), GvkIndices.KindsOf(eventSources),
                  GvkIndices.KindsOf(GvkIndices.Watching(Listed(reloaders)).items)];
    assert forall i | 0 <= i < 4 :: kinds[i] in kinds;
    assert forall gvks <- kinds :: gvks == kinds[0] || gvks == kinds[1] || gvks == kinds[2] || gvks == kinds[3];
    forall g ensures g in Collected(kinds) <==>
                     g == SECRET_GVK || g in kinds[0] || g in kinds[1] || g in kinds[2] || g in kinds[3] {}
    KindsAreNames(classifiers);
    KindsAreNames(healthChecks);
    KindsAreNames(eventSources);
    KindsAreNames(GvkIndices.Watching(Listed(reloaders)).items);
  }

  /**
   * On every run the recorded list is empty; so no watcher is ever closed, whatever is no longer wanted, closing never
   * panics, and no second informer is started for a kind.
   */
  lemma WatchersOnlyGrow(start: System, steps: seq<Step>, step: Step)
    requires Initial(start)
    ensures var s := Exec(start, steps);
            && s.managed.recorded == [] && s.managed.closed == [] && !s.builder.Crashed? && OneEach(s.managed.watches)
            && s.managed.watches.watchers <= Next(s, step).managed.watches.watchers
  {
    AlwaysHolds(start, steps);
    StepKeepsWatches(Exec(start, steps), step);
  }

  // ----- a rebuild that nothing disturbs -----

  lemma ExecOneMore(start: System, steps: seq<Step>, step: Step)
    requires AllKinds(start.sources)
    ensures Exec(start, steps + [step]) == Next(Exec(start, steps), step)
  {
    assert (steps + [step])[..|steps|] == steps;
  }

  /** What the four kinds of source name, in the order they are listed. */
  function AllLists(sources: map<SourceKind, set<Gvk>>): seq<set<Gvk>>
    requires Classifiers in sources && HealthChecks in sources && EventSources in sources && Reloaders in sources
  {
    [sources[Classifiers], sources[HealthChecks], sources[EventSources], sources[Reloaders]]
  }

  /** The builder has read the first n lists of sources that have not changed. */
  ghost predicate HasListed(start: System, s: System, n: nat)
    requires AllKinds(start.sources) && n <= 4
  {
    && s.sources == start.sources && s.managed == start.managed && !s.flag
    && s.builder.Listing? && s.builder.lists == AllLists(start.sources)[..n]
  }

  lemma ListsUndisturbed(start: System, n: nat) returns (steps: seq<Step>)
    requires AllKinds(start.sources) && start.flag && start.builder.Idle? && n <= 4
    ensures HasListed(start, Exec(start, steps), n)
    ensures steps == [Load, Clear] + seq(n, _ => List(true))
  {
    if n == 0 {
      ExecOneMore(start, [], Load);
      ExecOneMore(start, [] + [Load], Clear);
      steps := [] + [Load] + [Clear];
    } else {
      var before := ListsUndisturbed(start, n - 1);
      ExecOneMore(start, before, List(true));
      steps := before + [List(true)];
      assert AllLists(start.sources)[..n] == AllLists(start.sources)[..n - 1] + [start.sources[KindAt(n - 1)]];
    }
  }

  /**
   * A requested rebuild that nothing disturbs ends with the flag down and the builder idle, and what the sources name
   * is what was applied; if discovery fails, with the flag up again.
   */
  lemma RebuildsUndisturbed(start: System, list: seq<Gvk>, installed: Option<set<Gvk>>, available: set<Gvk>)
    returns (steps: seq<Step>)
    requires AllKinds(start.sources) && start.flag && start.builder.Idle? && NothingRecorded(start.managed)
    requires Ascending(list) && ToSet(list) == Collected(AllLists(start.sources))
    ensures steps == [Load, Clear] + seq(4, _ => List(true)) + [Apply(list, installed, available), SetAgain]
    ensures var s := Exec(start, steps);
            if installed.Some? && Updated(start.managed.watches, list, installed.value, available).1
            then Quiet(s) && s.applied.Some? && s.applied.value.1 == AllLists(start.sources)
            else s.flag && s.builder.Idle? && s.applied == Exec(start, steps[..6]).applied
  {
    var listed := ListsUndisturbed(start, 4);
    var apply := Apply(list, installed, available);
    ExecOneMore(start, listed, apply);
    ExecOneMore(start, listed + [apply], SetAgain);
    steps := listed + [apply] + [SetAgain];
    assert steps[..6] == listed;
    assert AllLists(start.sources)[..4] == AllLists(start.sources);
    assert SECRET_GVK in ToSet(list);
    assert list != [];
    AppliesUndisturbed(Exec(start, listed), list, installed, available);
  }

  lemma AppliesUndisturbed(s: System, list: seq<Gvk>, installed: Option<set<Gvk>>, available: set<Gvk>)
    requires AllKinds(s.sources) && s.builder.Listing? && |s.builder.lists| == 4 && !s.flag && NothingRecorded(s.managed)
    requires Ascending(list) && ToSet(list) == Collected(s.builder.lists) && list != []
    ensures var s' := Next(Next(s, Apply(list, installed, available)), SetAgain);
            if installed.Some? && Updated(s.managed.watches, list, installed.value, available).1
            then Quiet(s') && s'.applied == Some((s.builder.since, s.builder.lists))
            else s'.flag && s'.builder.Idle? && s'.applied == s.applied
  {
    ApplyRecordsNothing(s.managed, list, installed, available);
  }

  // ----- Reloaders -----

  /** No step reconciles anything but Reloaders. */
  ghost predicate OnlyReloaders(steps: seq<Step>) {
    forall step <- steps :: step.Reconcile? ==> step.kind.Reloaders?
  }

  /** The builder has done nothing since s; only the Secret watcher may have been started on its own. */
  ghost predicate Unmoved(s: System, s': System) {
    && Quiet(s') && s'.applied == s.applied
    && s'.managed.recorded == s.managed.recorded && s'.managed.closed == s.managed.closed
    && s'.managed.watches.unknown == s.managed.watches.unknown
    && s.managed.watches.watchers <= s'.managed.watches.watchers <= s.managed.watches.watchers + {SECRET_GVK}
  }

  lemma {:induction false} ReloadersMoveNothing(s: System, steps: seq<Step>)
    requires AllKinds(s.sources) && Quiet(s) && OnlyReloaders(steps)
    ensures Unmoved(s, Exec(s, steps))
  {
    if steps != [] {
      assert steps[|steps| - 1] in steps;
      assert OnlyReloaders(steps[..|steps| - 1]);
      ReloadersMoveNothing(s, steps[..|steps| - 1]);
    }
  }

  /**
   * Reconciling a Reloader requests nothing. From every quiet state and over every continuation, whatever sources
   * change and whatever the builder does, it stays quiet if and only if nothing but Reloaders is reconciled; and then
   * the watchers stay what they are, up to the Secret watcher.
   */
  lemma ReloaderChangesAreNotSeen(s: System, steps: seq<Step>)
    requires AllKinds(s.sources) && Quiet(s)
    ensures (forall k | 0 <= k <= |steps| :: Quiet(Exec(s, steps[..k]))) <==> OnlyReloaders(steps)
    ensures OnlyReloaders(steps) ==> Unmoved(s, Exec(s, steps))
  {
    if OnlyReloaders(steps) {
      forall k | 0 <= k <= |steps| ensures Quiet(Exec(s, steps[..k])) {
        assert OnlyReloaders(steps[..k]);
        ReloadersMoveNothing(s, steps[..k]);
      }
      ReloadersMoveNothing(s, steps);
    } else {
      var k :| 0 <= k < |steps| && steps[k].Reconcile? && !steps[k].kind.Reloaders?;
      assert steps[..k + 1][..k] == steps[..k];
      assert Exec(s, steps[..k + 1]).flag;
    }
  }

  /** So a kind that Reloaders begin to name is watched later on only if something else is reconciled. */
  lemma ReloaderKindsStayUnwatched(s: System, steps: seq<Step>, g: Gvk)
    requires AllKinds(s.sources) && Quiet(s) && OnlyReloaders(steps)
    requires g != SECRET_GVK && g !in s.managed.watches.watchers
    ensures g !in Exec(s, steps).managed.watches.watchers
  {
    ReloadersMoveNothing(s, steps);
  }
}
