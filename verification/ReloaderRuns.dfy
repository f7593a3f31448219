/**
 * What the reloader index guarantees over whole runs of evaluations, in any order, against the plain
 * recomputation it stands for.
 */
module ReloaderRuns {
  import opened Prelude
  import opened ReloaderIndex

  // ----- the plain recomputation -----

  predicate Succeeds(e: Evaluation)
    requires e.WellFormed()
  {
    !e.fetch.Unreadable? && (e.fetch.Live? ==> ReadableCount(e.fetch.infos, e.answers) == |e.fetch.infos|)
  }

  /** For each Reloader that exists, the workloads its last successfully evaluated spec names. */
  function Tracked(run: seq<Evaluation>): map<Ref, set<Ref>>
    requires IsRun(run)
  {
    if run == [] then map[]
    else
      var before, e := Tracked(run[..|run| - 1]), run[|run| - 1];
      if !Succeeds(e) then before
      else if e.fetch.Live? then before[ReloaderRef(e.name) := ToSet(WorkloadRefs(e.fetch.infos))]
      else before - {ReloaderRef(e.name)}
  }

  function Trackers(tracked: map<Ref, set<Ref>>, w: Ref): set<Ref> {
    set r | r in tracked && w in tracked[r]
  }

  predicate IsTracked(run: seq<Evaluation>, w: Ref)
    requires IsRun(run)
  {
    Trackers(Tracked(run), w) != {}
  }

  /** The tracked workloads mounting v, when mounts says what every workload mounts. */
  function Recomputed(tracked: map<Ref, set<Ref>>, mounts: Ref -> set<Ref>, v: Ref): set<Ref> {
    set r, w | r in tracked && w in tracked[r] && v in mounts(w) :: w
  }

  /**
   * Every evaluation of a live Reloader succeeds, and a spec becomes empty only if nothing was tracked for it. A read
   * of the Reloader itself may fail: that changes nothing.
   */
  ghost predicate Orderly(run: seq<Evaluation>)
    requires IsRun(run)
  {
    run == [] ||
    var before, e := run[..|run| - 1], run[|run| - 1];
    && Orderly(before)
    && (e.fetch.Live? ==> Succeeds(e) && (e.fetch.infos != [] || At(Tracked(before), ReloaderRef(e.name)) == {}))
  }

  // ----- safety on every run -----

  /** Whatever is evaluated, successfully or not, no set is empty and only referenced workloads sit under a volume. */
  lemma {:induction false} EveryRunIsSafe(run: seq<Evaluation>)
    requires IsRun(run)
    ensures Safe(Replay(run))
  {
    if run != [] {
      EveryRunIsSafe(run[..|run| - 1]);
      AfterIsSafe(Replay(run[..|run| - 1]), run[|run| - 1]);
    }
  }

  // ----- reloaders and resources are inverse relations -----

  ghost predicate Inverse(s: State) {
    forall w, r :: r in At(s.resources, w) <==> w in At(s.reloaders, r)
  }

  /** The two maps agree about Reloader r. */
  ghost predicate InverseFor(s: State, r: Ref) {
    forall w :: r in At(s.resources, w) <==> w in At(s.reloaders, r)
  }

  /** Every workload that lists r as a referrer is in ws. */
  ghost predicate ListedWithin(s: State, r: Ref, ws: set<Ref>) {
    forall w :: r in At(s.resources, w) ==> w in ws
  }

  /** Exactly when an evaluation leaves the two maps in agreement about its Reloader; a caller can tell beforehand. */
  ghost predicate LeavesInverse(s: State, e: Evaluation)
    requires e.WellFormed()
  {
    var r := ReloaderRef(e.name);
    match e.fetch
    case NotFound => true
    case Terminating => true
    case Unreadable => InverseFor(s, r)
    case Live(infos) =>
      var refs, n, before := WorkloadRefs(infos), ReadableCount(infos, e.answers), At(s.reloaders, r);
      if n == |refs| then ListedWithin(s, r, if refs == [] then {} else before + ToSet(refs))
      else if n == 0 then refs[0] in before && forall w | w != refs[0] :: r in At(s.resources, w) <==> w in before
      else before == ToSet(refs[..n + 1]) && ListedWithin(s, r, before)
  }

  /**
   * From every safe state, whatever earlier failures left in it: an evaluation leaves the maps in agreement about its
   * Reloader if and only if the condition holds, and changes nothing about the others. In particular a successful
   * evaluation of a non-empty spec restores agreement exactly when every workload still listing the Reloader is in
   * the old entry or in the new spec.
   */
  lemma InverseLeftExactly(s: State, e: Evaluation)
    requires Safe(s) && e.WellFormed()
    ensures InverseFor(After(s, e), ReloaderRef(e.name)) <==> LeavesInverse(s, e)
    ensures forall q | q != ReloaderRef(e.name) :: InverseFor(After(s, e), q) <==> InverseFor(s, q)
  {
    var r, s' := ReloaderRef(e.name), After(s, e);
    if e.fetch.Live? {
      InverseLeftByLive(s, e);
    } else if !e.fetch.Unreadable? {
      assert forall w :: At(s'.resources, w) == At(s.resources, w) - {r};
    }
    forall q | q != r ensures InverseFor(s', q) <==> InverseFor(s, q) {
      assert At(s'.reloaders, q) == At(s.reloaders, q);
      forall w ensures q in At(s'.resources, w) <==> q in At(s.resources, w) {
        if e.fetch.Live? {
          ReferredAfter(s, e, w);
        }
      }
    }
  }

  /** Workload w has r as a referrer once n entries of the spec are read, and the next one has failed. */
  ghost predicate Refers(s: State, r: Ref, refs: seq<Ref>, n: nat, w: Ref)
    requires n <= |refs|
  {
    || w in refs[..n] || (n < |refs| && w == refs[n])
    || (r in At(s.resources, w) && (n == 0 || w !in At(s.reloaders, r)))
  }

  /** What a live read, complete or not, leaves under workload w and under volume v. */
  lemma LiveLookups(s: State, e: Evaluation, w: Ref, v: Ref)
    requires Safe(s) && e.WellFormed() && e.fetch.Live?
    ensures var r, refs, n := ReloaderRef(e.name), WorkloadRefs(e.fetch.infos), ReadableCount(e.fetch.infos, e.answers);
            && At(After(s, e).volumes, v) == Mounters(s, r, refs, Mounts(e.fetch.infos, e.answers, n), n, v)
            && At(After(s, e).resources, w) ==
               Referrers(s, r, refs, n, w) + (if n < |refs| && w == refs[n] then {r} else {})
  {
    var r, refs, n := ReloaderRef(e.name), WorkloadRefs(e.fetch.infos), ReadableCount(e.fetch.infos, e.answers);
    AfterLiveLookups(s, r, refs, Mounts(e.fetch.infos, e.answers, n), n, w, v);
  }

  lemma ReferredAfter(s: State, e: Evaluation, w: Ref)
    requires Safe(s) && e.WellFormed() && e.fetch.Live?
    ensures var r, refs, n := ReloaderRef(e.name), WorkloadRefs(e.fetch.infos), ReadableCount(e.fetch.infos, e.answers);
            r in At(After(s, e).resources, w) <==> Refers(s, r, refs, n, w)
    ensures forall q | q != ReloaderRef(e.name) :: q in At(After(s, e).resources, w) <==> q in At(s.resources, w)
  {
    LiveLookups(s, e, w, w);
  }

  lemma InverseLeftByLive(s: State, e: Evaluation)
    requires Safe(s) && e.WellFormed() && e.fetch.Live?
    ensures InverseFor(After(s, e), ReloaderRef(e.name)) <==> LeavesInverse(s, e)
  {
    var r, refs, n := ReloaderRef(e.name), WorkloadRefs(e.fetch.infos), ReadableCount(e.fetch.infos, e.answers);
    var after := At(After(s, e).reloaders, r);
    assert after == if n == |refs| then ToSet(refs) else At(s.reloaders, r);
    forall w ensures r in At(After(s, e).resources, w) <==> Refers(s, r, refs, n, w) {
      ReferredAfter(s, e, w);
    }
    LiveCondition(s, r, refs, n, after);
  }

  /** The condition of a live spec, on the referrers and the old entry alone. */
  lemma LiveCondition(s: State, r: Ref, refs: seq<Ref>, n: nat, after: set<Ref>)
    requires n <= |refs| && after == if n == |refs| then ToSet(refs) else At(s.reloaders, r)
    ensures var before := At(s.reloaders, r);
            (forall w :: Refers(s, r, refs, n, w) <==> w in after) <==>
            if n == |refs| then ListedWithin(s, r, if refs == [] then {} else before + ToSet(refs))
            else if n == 0 then refs[0] in before && forall w | w != refs[0] :: r in At(s.resources, w) <==> w in before
            else before == ToSet(refs[..n + 1]) && ListedWithin(s, r, before)
  {
    var before := At(s.reloaders, r);
    assert refs[..|refs|] == refs;
    if n == |refs| {
      forall w ensures (Refers(s, r, refs, n, w) <==> w in after) <==>
                       (r in At(s.resources, w) ==> w in refs || (n > 0 && w in before)) {}
    } else if n == 0 {
      forall w ensures (Refers(s, r, refs, n, w) <==> w in after) <==>
                       if w == refs[0] then w in before else r in At(s.resources, w) <==> w in before {}
    } else {
      assert refs[..n + 1] == refs[..n] + [refs[n]];
      forall w ensures (Refers(s, r, refs, n, w) <==> w in after) <==>
                       (w in before <==> w in ToSet(refs[..n + 1])) && (r in At(s.resources, w) ==> w in before) {}
      PointwiseEqual(before, ToSet(refs[..n + 1]));
    }
  }

  lemma PointwiseEqual(a: set<Ref>, b: set<Ref>)
    ensures a == b <==> forall w :: w in a <==> w in b
  {}

  lemma InverseByReloader(s: State)
    ensures Inverse(s) <==> forall r :: InverseFor(s, r)
  {
    if forall r :: InverseFor(s, r) {
      forall w, r ensures r in At(s.resources, w) <==> w in At(s.reloaders, r) {
        assert InverseFor(s, r);
      }
    }
  }

  /** So from inverse maps an evaluation leads to inverse maps if and only if the condition holds. */
  lemma InverseKeptExactly(s: State, e: Evaluation)
    requires Safe(s) && Inverse(s) && e.WellFormed()
    ensures Inverse(After(s, e)) <==> LeavesInverse(s, e)
  {
    InverseByReloader(s);
    InverseByReloader(After(s, e));
    InverseLeftExactly(s, e);
  }

  lemma {:induction false} ReloadersAreTracked(run: seq<Evaluation>)
    requires IsRun(run)
    ensures Replay(run).reloaders == Tracked(run)
  {
    if run != [] {
      ReloadersAreTracked(run[..|run| - 1]);
    }
  }

  lemma OrderlyLeavesInverse(s: State, e: Evaluation)
    requires Inverse(s) && e.WellFormed()
    requires e.fetch.Live? ==> Succeeds(e) && (e.fetch.infos != [] || At(s.reloaders, ReloaderRef(e.name)) == {})
    ensures LeavesInverse(s, e)
  {
    assert forall w :: ReloaderRef(e.name) in At(s.resources, w) <==> w in At(s.reloaders, ReloaderRef(e.name));
  }

  lemma {:induction false} OrderlyRunsStayInverse(run: seq<Evaluation>)
    requires IsRun(run) && Orderly(run)
    ensures Inverse(Replay(run))
    ensures forall w :: At(Replay(run).resources, w) == Trackers(Tracked(run), w)
  {
    if run != [] {
      var before, e := run[..|run| - 1], run[|run| - 1];
      OrderlyRunsStayInverse(before);
      EveryRunIsSafe(before);
      ReloadersAreTracked(before);
      OrderlyLeavesInverse(Replay(before), e);
      InverseKeptExactly(Replay(before), e);
    }
    ReloadersAreTracked(run);
    forall w, r ensures r in At(Replay(run).resources, w) <==> r in Trackers(Tracked(run), w) {
      assert r in At(Replay(run).resources, w) <==> w in At(Replay(run).reloaders, r);
    }
  }

  // ----- deletion -----

  /**
   * A deletion removes the Reloader everywhere, leaves the volumes of workloads that others reference alone, and
   * takes the workloads nobody references any more out of every volume.
   */
  lemma DeletionForgets(s: State, e: Evaluation, v: Ref, w: Ref)
    requires Safe(s) && (e.fetch.NotFound? || e.fetch.Terminating?)
    ensures var r, s' := ReloaderRef(e.name), After(s, e);
            && r !in s'.reloaders && r !in At(s'.resources, w)
            && At(s'.resources, w) == At(s.resources, w) - {r}
            && (w in At(s'.volumes, v) <==> w in At(s.volumes, v) && !(At(s.resources, w) <= {r}))
  {
    if w in At(s.volumes, v) {
      assert w in s.resources;
    }
  }

  // ----- volumes against the mounts that were read -----

  /** All volumes e read for w. */
  function ReadBy(e: Evaluation, w: Ref): set<Ref>
    requires e.WellFormed()
  {
    if !e.fetch.Live? then {}
    else
      var refs, n := WorkloadRefs(e.fetch.infos), ReadableCount(e.fetch.infos, e.answers);
      var mounts := Mounts(e.fetch.infos, e.answers, n);
      set i, v | 0 <= i < n && refs[i] == w && v in mounts[i] :: v
  }

  predicate Names(e: Evaluation, w: Ref) {
    e.fetch.Live? && w in WorkloadRefs(e.fetch.infos)
  }

  /** The last position at which refs names w. */
  function LastIndex(refs: seq<Ref>, w: Ref): (i: nat)
    requires w in refs
    ensures i < |refs| && refs[i] == w && w !in refs[i + 1..]
  {
    if refs[|refs| - 1] == w then |refs| - 1 else LastIndex(refs[..|refs| - 1], w)
  }

  /** What w mounted when it was last read. */
  function LastRead(run: seq<Evaluation>, w: Ref): set<Ref>
    requires IsRun(run)
  {
    if run == [] || !IsTracked(run, w) then {}
    else
      var e := run[|run| - 1];
      if Names(e, w) && Succeeds(e) then
        var refs, n := WorkloadRefs(e.fetch.infos), |e.fetch.infos|;
        ToSet(Mounts(e.fetch.infos, e.answers, n)[LastIndex(refs, w)])
      else LastRead(run[..|run| - 1], w)
  }

  /** Everything w was seen to mount since some Reloader began to name it. */
  function ReadSince(run: seq<Evaluation>, w: Ref): set<Ref>
    requires IsRun(run)
  {
    if run == [] || !IsTracked(run, w) then {}
    else ReadSince(run[..|run| - 1], w) + ReadBy(run[|run| - 1], w)
  }

  lemma TrackedMeansReferred(run: seq<Evaluation>, w: Ref)
    requires IsRun(run) && Orderly(run)
    ensures IsTracked(run, w) <==> At(Replay(run).resources, w) != {}
  {
    OrderlyRunsStayInverse(run);
  }

  /** With changing mounts, the volumes of w lie between its last read and all its reads since it was first tracked. */
  lemma {:induction false} VolumesLieBetween(run: seq<Evaluation>, w: Ref, v: Ref)
    requires IsRun(run) && Orderly(run)
    ensures v in LastRead(run, w) ==> w in At(Replay(run).volumes, v)
    ensures w in At(Replay(run).volumes, v) ==> v in ReadSince(run, w)
  {
    if run != [] {
      var before, e := run[..|run| - 1], run[|run| - 1];
      VolumesLieBetween(before, w, v);
      EveryRunIsSafe(before);
      TrackedMeansReferred(before, w);
      EveryRunIsSafe(run);
      TrackedMeansReferred(run, w);
      if e.fetch.Live? {
        LiveLiesBetween(Replay(before), e, w, v);
      } else if !e.fetch.Unreadable? {
        DeletionForgets(Replay(before), e, v, w);
      }
    }
  }

  /** One evaluation of a live spec, seen from workload w and volume v. */
  lemma LiveLiesBetween(s: State, e: Evaluation, w: Ref, v: Ref)
    requires Safe(s) && e.WellFormed() && e.fetch.Live? && Succeeds(e)
    ensures var s' := After(s, e);
            && (w in At(s'.volumes, v) ==> w in At(s.volumes, v) || v in ReadBy(e, w))
            && (v in ReadBy(e, w) ==> w in At(s'.volumes, v))
            && (w in At(s.volumes, v) && At(s'.resources, w) != {} && !Names(e, w) ==> w in At(s'.volumes, v))
    ensures Names(e, w) ==>
              ToSet(Mounts(e.fetch.infos, e.answers, |e.fetch.infos|)[LastIndex(WorkloadRefs(e.fetch.infos), w)]) <= ReadBy(e, w)
  {
    var r, refs, n := ReloaderRef(e.name), WorkloadRefs(e.fetch.infos), |e.fetch.infos|;
    var mounts := Mounts(e.fetch.infos, e.answers, n);
    LiveLookups(s, e, w, v);
    assert refs[..n] == refs;
  }

  // ----- with constant mounts the index is the recomputation -----

  /** Every read of a workload shows what mounts says. */
  ghost predicate ReadsAre(run: seq<Evaluation>, mounts: Ref -> set<Ref>) {
    forall e <- run :: e.fetch.Live? && e.WellFormed() ==>
                         forall i | 0 <= i < |e.fetch.infos| && MountsOf(e.fetch.infos[i], e.answers[i]).Some? ::
                           ToSet(MountsOf(e.fetch.infos[i], e.answers[i]).value) == mounts(WorkloadRef(e.fetch.infos[i]))
  }

  lemma {:induction false} ConstantReads(run: seq<Evaluation>, mounts: Ref -> set<Ref>, w: Ref)
    requires IsRun(run) && Orderly(run) && ReadsAre(run, mounts)
    ensures ReadSince(run, w) <= mounts(w)
    ensures IsTracked(run, w) ==> LastRead(run, w) == mounts(w)
  {
    if run != [] {
      var before, e := run[..|run| - 1], run[|run| - 1];
      ConstantReads(before, mounts, w);
      assert e in run;
      if IsTracked(run, w) && !Names(e, w) {
        var r :| r in Trackers(Tracked(run), w);
        assert r in Trackers(Tracked(before), w);
      }
    }
  }

  /** The index agrees with recomputing it from the current Reloader specs. */
  lemma IndexIsRecomputation(run: seq<Evaluation>, mounts: Ref -> set<Ref>, v: Ref)
    requires IsRun(run) && Orderly(run) && ReadsAre(run, mounts)
    ensures At(Replay(run).volumes, v) == Recomputed(Tracked(run), mounts, v)
  {
    forall w ensures w in At(Replay(run).volumes, v) <==> w in Recomputed(Tracked(run), mounts, v) {
      VolumesLieBetween(run, w, v);
      ConstantReads(run, mounts, w);
      if w in Recomputed(Tracked(run), mounts, v) {
        var r :| r in Tracked(run) && w in Tracked(run)[r];
        assert r in Trackers(Tracked(run), w);
      }
      if v in ReadSince(run, w) {
        var r :| r in Trackers(Tracked(run), w);
      }
    }
  }

  // ----- the same in terms of names and specs -----

  /** Every entry of the spec can be read: its kind is one of the three and its workload was found. */
  ghost predicate AllReadable(infos: seq<ReloaderInfo>, answers: seq<Option<seq<PodVolume>>>)
    requires |answers| == |infos|
  {
    forall i | 0 <= i < |infos| :: infos[i].kind in {"Deployment", "StatefulSet", "DaemonSet"} && answers[i].Some?
  }

  /** For each Reloader that exists, by name, the spec of its last successful evaluation. */
  ghost function Specs(run: seq<Evaluation>): map<string, seq<ReloaderInfo>>
    requires IsRun(run)
  {
    if run == [] then map[]
    else
      var before, e := Specs(run[..|run| - 1]), run[|run| - 1];
      assert e in run;
      match e.fetch
      case NotFound => before - {e.name}
      case Terminating => before - {e.name}
      case Unreadable => before
      case Live(infos) => if AllReadable(infos, e.answers) then before[e.name := infos] else before
  }

  lemma SucceedsExactly(e: Evaluation)
    requires e.WellFormed()
    ensures Succeeds(e) <==> !e.fetch.Unreadable? && (e.fetch.Live? ==> AllReadable(e.fetch.infos, e.answers))
  {}

  lemma {:induction false} SpecsAreTracked(run: seq<Evaluation>, name: string)
    requires IsRun(run)
    ensures name in Specs(run) <==> ReloaderRef(name) in Tracked(run)
    ensures name in Specs(run) ==> Tracked(run)[ReloaderRef(name)] == ToSet(WorkloadRefs(Specs(run)[name]))
  {
    if run != [] {
      SpecsAreTracked(run[..|run| - 1], name);
      SucceedsExactly(run[|run| - 1]);
    }
  }

  /** Only Reloaders are tracked. */
  lemma {:induction false} TrackedHaveSpecs(run: seq<Evaluation>, r: Ref)
    requires IsRun(run) && r in Tracked(run)
    ensures r == ReloaderRef(r.name) && r.name in Specs(run)
  {
    var before, e := run[..|run| - 1], run[|run| - 1];
    if r in Tracked(before) {
      TrackedHaveSpecs(before, r);
    }
    SucceedsExactly(e);
    SpecsAreTracked(run, r.name);
  }

  /** Some Reloader's current spec names the workload w. */
  ghost predicate Named(run: seq<Evaluation>, w: Ref)
    requires IsRun(run)
  {
    exists name <- Specs(run), info <- Specs(run)[name] :: w == Ref(info.kind, "apps/v1", info.namespace, info.name)
  }

  lemma TrackedExactly(run: seq<Evaluation>, w: Ref)
    requires IsRun(run)
    ensures IsTracked(run, w) <==> Named(run, w)
  {
    if IsTracked(run, w) {
      var r :| r in Trackers(Tracked(run), w);
      TrackedHaveSpecs(run, r);
      SpecsAreTracked(run, r.name);
      var infos := Specs(run)[r.name];
      var i :| 0 <= i < |infos| && WorkloadRefs(infos)[i] == w;
      assert infos[i] in infos;
    }
    if name, info :| name in Specs(run) && info in Specs(run)[name] && w == Ref(info.kind, "apps/v1", info.namespace, info.name) {
      SpecsAreTracked(run, name);
      var i :| 0 <= i < |Specs(run)[name]| && Specs(run)[name][i] == info;
      assert WorkloadRefs(Specs(run)[name])[i] == w;
      assert ReloaderRef(name) in Trackers(Tracked(run), w);
    }
  }

  /** The workloads of a volume are those that mount it and that some Reloader's current spec names. */
  lemma IndexIsNamedMounters(run: seq<Evaluation>, mounts: Ref -> set<Ref>, v: Ref, w: Ref)
    requires IsRun(run) && Orderly(run) && ReadsAre(run, mounts)
    ensures w in At(Replay(run).volumes, v) <==> Named(run, w) && v in mounts(w)
  {
    IndexIsRecomputation(run, mounts, v);
    TrackedExactly(run, w);
    if IsTracked(run, w) {
      var r :| r in Trackers(Tracked(run), w);
      assert r in Tracked(run) && w in Tracked(run)[r];
    }
    if w in Recomputed(Tracked(run), mounts, v) {
      var r :| r in Tracked(run) && w in Tracked(run)[r];
      assert r in Trackers(Tracked(run), w);
    }
  }

  /** On every run a reference in the index stands for one entry of a spec, and gives it back. */
  lemma {:induction false} WorkloadsAreEntries(run: seq<Evaluation>, w: Ref)
    requires IsRun(run) && w in Replay(run).resources
    ensures w == Ref(WorkloadInfo(w).kind, "apps/v1", WorkloadInfo(w).namespace, WorkloadInfo(w).name)
  {
    var before, e := run[..|run| - 1], run[|run| - 1];
    EveryRunIsSafe(before);
    EveryRunIsSafe(run);
    if w in Replay(before).resources {
      WorkloadsAreEntries(before, w);
    } else if e.fetch.Live? {
      LiveLookups(Replay(before), e, w, w);
      var refs := WorkloadRefs(e.fetch.infos);
      var i :| 0 <= i < |refs| && refs[i] == w;
    }
  }

  // ----- and without any assumption on the evaluations -----

  /** The evaluation got as far as reading w. */
  predicate Reads(e: Evaluation, w: Ref)
    requires e.WellFormed()
  {
    e.fetch.Live? && w in WorkloadRefs(e.fetch.infos)[..ReadableCount(e.fetch.infos, e.answers)]
  }

  /** The evaluation makes the index forget what w mounts, unless it reads w again. */
  predicate Drops(s: State, e: Evaluation, w: Ref)
    requires e.WellFormed()
  {
    e.fetch.Live? &&
    w in Dropped(s, ReloaderRef(e.name), WorkloadRefs(e.fetch.infos), ReadableCount(e.fetch.infos, e.answers))
  }

  /** w was read at some time, and since then it was always referenced and never dropped. */
  predicate ReadWhileReferred(run: seq<Evaluation>, w: Ref)
    requires IsRun(run)
  {
    && run != []
    && w in Replay(run).resources
    && var before, e := run[..|run| - 1], run[|run| - 1];
       Reads(e, w) || (ReadWhileReferred(before, w) && !Drops(Replay(before), e, w))
  }

  /** Reading w at some entry of the spec shows v exactly when w mounts v. */
  lemma ReadShowsMounts(e: Evaluation, mounts: Ref -> set<Ref>, w: Ref, v: Ref)
    requires e.WellFormed() && e.fetch.Live? && ReadsAre([e], mounts)
    ensures var refs, n := WorkloadRefs(e.fetch.infos), ReadableCount(e.fetch.infos, e.answers);
            var read := Mounts(e.fetch.infos, e.answers, n);
            w in (set i | 0 <= i < n && v in read[i] :: refs[i]) <==> Reads(e, w) && v in mounts(w)
  {
    var refs, n := WorkloadRefs(e.fetch.infos), ReadableCount(e.fetch.infos, e.answers);
    var read := Mounts(e.fetch.infos, e.answers, n);
    assert e in [e];
    forall i | 0 <= i < n ensures v in read[i] <==> v in mounts(refs[i]) {
      assert Some(read[i]) == MountsOf(e.fetch.infos[i], e.answers[i]);
      assert v in read[i] <==> v in ToSet(read[i]);
    }
    if Reads(e, w) {
      var i :| 0 <= i < n && refs[i] == w;
    }
  }

  /** What one live read, complete or not, does to workload w under volume v, when mounts says what is read. */
  lemma LiveVolumes(s: State, e: Evaluation, mounts: Ref -> set<Ref>, w: Ref, v: Ref)
    requires Safe(s) && e.WellFormed() && e.fetch.Live? && ReadsAre([e], mounts)
    ensures w in At(After(s, e).volumes, v) <==>
            (Reads(e, w) && v in mounts(w)) || (w in At(s.volumes, v) && !Drops(s, e, w))
  {
    LiveLookups(s, e, w, v);
    ReadShowsMounts(e, mounts, w, v);
  }

  /**
   * On every run, with failed evaluations and emptied specs among them: a workload is under a volume exactly when it
   * mounts it and was read at a time since when some Reloader always referenced it and none dropped it.
   */
  lemma {:induction false} VolumesExactly(run: seq<Evaluation>, mounts: Ref -> set<Ref>, w: Ref, v: Ref)
    requires IsRun(run) && ReadsAre(run, mounts)
    ensures w in At(Replay(run).volumes, v) <==> v in mounts(w) && ReadWhileReferred(run, w)
  {
    EveryRunIsSafe(run);
    if run != [] {
      var before, e := run[..|run| - 1], run[|run| - 1];
      EveryRunIsSafe(before);
      VolumesExactly(before, mounts, w, v);
      assert e in run && ReadsAre([e], mounts);
      if e.fetch.Live? {
        LiveVolumes(Replay(before), e, mounts, w, v);
        if Reads(e, w) || (ReadWhileReferred(before, w) && !Drops(Replay(before), e, w)) {
          StaysReferred(Replay(before), e, w);
        }
      } else if !e.fetch.Unreadable? {
        DeletionForgets(Replay(before), e, v, w);
      }
    }
  }

  /** A workload that is read, or that was referenced and is not dropped, is referenced afterwards. */
  lemma StaysReferred(s: State, e: Evaluation, w: Ref)
    requires Safe(s) && e.WellFormed() && e.fetch.Live?
    requires Reads(e, w) || (w in s.resources && !Drops(s, e, w))
    ensures w in After(s, e).resources
  {
    LiveLookups(s, e, w, w);
  }

  /** So the order of evaluations, and that of Go's map iteration, does not matter. */
  lemma OrderDoesNotMatter(run: seq<Evaluation>, run': seq<Evaluation>, mounts: Ref -> set<Ref>)
    requires IsRun(run) && Orderly(run) && ReadsAre(run, mounts)
    requires IsRun(run') && Orderly(run') && ReadsAre(run', mounts)
    requires Tracked(run) == Tracked(run')
    ensures Replay(run) == Replay(run')
  {
    var s, s' := Replay(run), Replay(run');
    ReloadersAreTracked(run);
    ReloadersAreTracked(run');
    EveryRunIsSafe(run);
    EveryRunIsSafe(run');
    OrderlyRunsStayInverse(run);
    OrderlyRunsStayInverse(run');
    SameLookupsSameMap(s.resources, s'.resources);
    forall v ensures At(s.volumes, v) == At(s'.volumes, v) {
      IndexIsRecomputation(run, mounts, v);
      IndexIsRecomputation(run', mounts, v);
    }
    SameLookupsSameMap(s.volumes, s'.volumes);
  }

  // ----- the stale lookup that finds no entry -----

  /**
   * Among the first m passes one looks up a workload that has no entry if and only if the entry of some workload
   * tracked for r was missing from the start, other than the first of the spec, or there is a second pass and some
   * workload besides the first two had no other referrer than r.
   */
  lemma LookupMissesExactly(s: State, r: Ref, refs: seq<Ref>, m: nat)
    requires m <= |refs|
    ensures MissesWithin(s, r, refs, m) <==>
            || (m >= 1 && exists w <- At(s.reloaders, r) :: w != refs[0] && At(s.resources, w) == {})
            || (m >= 2 && exists w <- At(s.reloaders, r) :: w !in refs[..2] && At(s.resources, w) <= {r})
  {
    assert m >= 1 ==> refs[..1] == [refs[0]];
    assert m >= 2 ==> refs[..2] == [refs[0], refs[1]];
    if n :| 0 < n <= m && MissesAt(s, r, refs, n) {
      var w :| w in At(s.reloaders, r) && w !in refs[..n] && Referrers(s, r, refs, n - 1, w) == {};
      assert refs[0] in refs[..n];
      assert n > 1 ==> refs[1] in refs[..n];
    }
    if m >= 1 {
      if w :| w in At(s.reloaders, r) && w != refs[0] && At(s.resources, w) == {} {
        assert MissesAt(s, r, refs, 1);
      }
    }
    if m >= 2 {
      if w :| w in At(s.reloaders, r) && w !in refs[..2] && At(s.resources, w) <= {r} {
        assert MissesAt(s, r, refs, 2);
      }
    }
  }

  /** A successful read of workloads that mount nothing. */
  function Reading(name: string, infos: seq<ReloaderInfo>): (e: Evaluation)
    ensures e.WellFormed()
  {
    Evaluation(name, Live(infos), seq(|infos|, _ => Some([])))
  }

  predicate Deployments(infos: seq<ReloaderInfo>) {
    forall i | 0 <= i < |infos| :: infos[i].kind == "Deployment"
  }

  lemma ReadingSucceeds(name: string, infos: seq<ReloaderInfo>)
    requires Deployments(infos)
    ensures Succeeds(Reading(name, infos))
  {
    var e := Reading(name, infos);
    assert forall i | 0 <= i < |infos| :: MountsOf(infos[i], e.answers[i]).Some?;
  }

  /** After the first successful evaluation the Reloader alone references what it names. */
  lemma FirstEvaluation(name: string, infos: seq<ReloaderInfo>)
    requires Deployments(infos) && infos != []
    ensures IsRun([Reading(name, infos)])
    ensures var s, r, refs := Replay([Reading(name, infos)]), ReloaderRef(name), WorkloadRefs(infos);
            && Safe(s) && s.reloaders == map[r := ToSet(refs)]
            && forall w :: At(s.resources, w) == if w in refs then {r} else {}
  {
    var e, r, refs := Reading(name, infos), ReloaderRef(name), WorkloadRefs(infos);
    ReadingSucceeds(name, infos);
    var run := [e];
    assert run[..|run| - 1] == [];
    assert Tracked([]) == map[] && Orderly([]);
    assert Tracked(run) == map[r := ToSet(refs)];
    assert Orderly(run);
    EveryRunIsSafe(run);
    ReloadersAreTracked(run);
    OrderlyRunsStayInverse(run);
  }

  /** For instance, shrinking the spec of a lone Reloader from three workloads to two of them. */
  lemma ShrinkingMisses(name: string, a: ReloaderInfo, b: ReloaderInfo, c: ReloaderInfo)
    requires Deployments([a, b, c]) && a != c && b != c
    ensures IsRun([Reading(name, [a, b, c])])
    ensures MissesAt(Replay([Reading(name, [a, b, c])]), ReloaderRef(name), WorkloadRefs([a, b]), 2)
  {
    FirstEvaluation(name, [a, b, c]);
    var s, r, refs := Replay([Reading(name, [a, b, c])]), ReloaderRef(name), WorkloadRefs([a, b]);
    var w := WorkloadRef(c);
    assert w == WorkloadRefs([a, b, c])[2];
    assert w in At(s.reloaders, r) && w !in refs[..2] && Referrers(s, r, refs, 1, w) == {};
  }

  /**
   * And, after an evaluation that failed half way, even a spec with one entry: the failed one erased b while the
   * Reloader is still recorded as naming it.
   */
  lemma FailureMakesNextMiss(name: string, a: ReloaderInfo, b: ReloaderInfo, d: ReloaderInfo)
    requires Deployments([a, b]) && a != b && b != d
    ensures var run := [Reading(name, [a, b]), Evaluation(name, Live([a, d]), [Some([]), None])];
            IsRun(run) && MissesAt(Replay(run), ReloaderRef(name), WorkloadRefs([a]), 1)
  {
    var e, e' := Reading(name, [a, b]), Evaluation(name, Live([a, d]), [Some([]), None]);
    FirstEvaluation(name, [a, b]);
    ReplayAppend([e], e');
    assert [e] + [e'] == [e, e'];
    var s, s', r := Replay([e]), Replay([e, e']), ReloaderRef(name);
    var refs, w := WorkloadRefs([a, d]), WorkloadRef(b);
    var n := ReadableCount([a, d], e'.answers);
    assert n == 1 by {
      assert MountsOf([a, d][0], e'.answers[0]).Some? && MountsOf([a, d][1], e'.answers[1]).None?;
    }
    assert w == WorkloadRefs([a, b])[1];
    LiveLookups(s, e', w, w);
    assert At(s'.resources, w) == Referrers(s, r, refs, 1, w) == {};
    assert w in At(s'.reloaders, r);
    assert WorkloadRefs([a])[..1] == [WorkloadRef(a)];
  }
}
