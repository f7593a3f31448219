/**
 * From a changed ConfigMap or Secret to the workloads listed for reloading: the predicates queue a key, a round takes
 * it apart, and the index tells which workloads mount the volume it names.
 */
module VolumeChanges {
  import opened Prelude
  import opened Text
  import opened JobKeys
  import ReloaderIndex
  import ReloaderRuns

  function VolumeRef(kind: string, namespace: string, name: string): Ref {
    Ref(kind, "v1", namespace, name)
  }

  /** The volume that a key is evaluated as. */
  function Evaluated(key: string): Option<Ref> {
    match Dispatched(key)
    case Evaluate(Volume(kind, namespace, name)) => Some(VolumeRef(kind, namespace, name))
    case _ => None
  }

  /** The workloads that evaluating the queued keys adds to the reports. */
  function Reported(s: ReloaderIndex.State, keys: set<string>): set<Ref> {
    set key, w | key in keys && Evaluated(key).Some? && w in At(s.volumes, Evaluated(key).value) :: w
  }

  /** What evaluateMountedResource takes the part of a key after the kind for; None when it is malformed. */
  function MountedResource(kind: string, info: string): Option<Ref> {
    var parts := Split(info, "/");
    if |parts| != 2 then None else Some(VolumeRef(kind, parts[0], parts[1]))
  }

  /** It is called for exactly the keys that name volumes, and takes them apart in the same way. */
  lemma MountedResourceIsEvaluated(kind: string, info: string)
    requires ':' !in kind && ':' !in info && '/' in info
    ensures Evaluated(kind + ":" + info) == MountedResource(kind, info)
  {
    DispatchedVolume(kind, info);
  }

  /**
   * Its failures are those of the parse, of the report and of sending it; what it adds to the report is exactly what
   * the index holds for the volume.
   */
  method EvaluateMountedResource(index: ReloaderIndex.Index, kind: string, info: string,
                                 listed: Option<seq<ReloaderIndex.ReloaderInfo>>, updateOk: bool, statusOk: bool,
                                 sends: bool, sendOk: bool)
    returns (ok: bool, report: Option<seq<ReloaderIndex.ReloaderInfo>>)
    requires index.Valid()
    ensures var volume := MountedResource(kind, info);
            && (volume.None? ==> !ok && report.None?)
            && (volume.Some? ==>
                  var found := volume.value in index.volumes;
                  && (ok <==> (found ==> listed.Some? && updateOk && statusOk) && (sends ==> sendOk))
                  && (report.Some? <==> found && listed.Some? && updateOk))
    ensures report.Some? ==>
              && listed.Some? && listed.value < report.value
              && ToSet(report.value[|listed.value|..]) ==
                 set w | w in At(index.volumes, MountedResource(kind, info).value) :: ReloaderIndex.WorkloadInfo(w)
  {
    var parts := Split(info, "/");
    if |parts| != 2 {
      return false, None;
    }
    ok, report := index.UpdateReport(VolumeRef(kind, parts[0], parts[1]), listed, updateOk, statusOk);
    if ok && sends {
      ok := sendOk;
    }
  }

  predicate SimplyNamed(o: Object) {
    Simple(o.namespace) && Simple(o.name)
  }

  lemma ReportedExactly(s: ReloaderIndex.State, before: Option<Object>, after: Object, w: Ref)
    requires SimplyNamed(after)
    ensures w in Reported(s, Queued(before, after)) <==>
            Changed(before, after) && w in At(s.volumes, VolumeRef("ConfigMap", after.namespace, after.name))
  {
    var job := Volume("ConfigMap", after.namespace, after.name);
    RoundTrip(job);
    assert Evaluated(Key(job)) == Some(VolumeRef("ConfigMap", after.namespace, after.name));
  }

  lemma DueExactly(run: seq<ReloaderIndex.Evaluation>, mounts: Ref -> set<Ref>, v: Ref, w: Ref)
    requires ReloaderIndex.IsRun(run)
    ensures w in ReloaderRuns.Recomputed(ReloaderRuns.Tracked(run), mounts, v) <==> ReloaderRuns.IsTracked(run, w) && v in mounts(w)
  {
    var tracked := ReloaderRuns.Tracked(run);
    if ReloaderRuns.IsTracked(run, w) {
      var r :| r in ReloaderRuns.Trackers(tracked, w);
      assert r in tracked && w in tracked[r];
    }
    if w in ReloaderRuns.Recomputed(tracked, mounts, v) {
      var r :| r in tracked && w in tracked[r];
      assert r in ReloaderRuns.Trackers(tracked, w);
    }
  }

  /**
   * Over every orderly run with unchanging mounts, an update of a ConfigMap or a Secret lists exactly these workloads
   * for reloading: the tracked ones that mount the ConfigMap of that name. For a ConfigMap that is what is promised.
   */
  lemma UpdateReportsExactly(run: seq<ReloaderIndex.Evaluation>, mounts: Ref -> set<Ref>,
                             before: Option<Object>, after: Object, w: Ref)
    requires ReloaderIndex.IsRun(run) && ReloaderRuns.Orderly(run) && ReloaderRuns.ReadsAre(run, mounts)
    requires SimplyNamed(after)
    ensures w in Reported(ReloaderIndex.Replay(run), Queued(before, after)) <==>
            && (before.None? || before.value.data != after.data || before.value.more != after.more)
            && ReloaderRuns.Named(run, w)
            && Ref("ConfigMap", "v1", after.namespace, after.name) in mounts(w)
  {
    var v := VolumeRef("ConfigMap", after.namespace, after.name);
    ReportedExactly(ReloaderIndex.Replay(run), before, after, w);
    ReloaderRuns.TrackedExactly(run, w);
    ReloaderRuns.IndexIsRecomputation(run, mounts, v);
    DueExactly(run, mounts, v, w);
  }

  /**
   * For a Secret it is not: a change is reported for all the tracked workloads that mount the Secret, and for no
   * others, if and only if these are the ones that mount the ConfigMap of the same namespace and name.
   */
  lemma SecretReportsRightlyExactly(run: seq<ReloaderIndex.Evaluation>, mounts: Ref -> set<Ref>,
                                    before: Option<Object>, after: Object)
    requires ReloaderIndex.IsRun(run) && ReloaderRuns.Orderly(run) && ReloaderRuns.ReadsAre(run, mounts)
    requires SimplyNamed(after)
    requires before.None? || before.value.data != after.data || before.value.more != after.more
    ensures var reported := Reported(ReloaderIndex.Replay(run), Queued(before, after));
            var secret, configMap := Ref("Secret", "v1", after.namespace, after.name), Ref("ConfigMap", "v1", after.namespace, after.name);
            (forall w :: w in reported <==> ReloaderRuns.Named(run, w) && secret in mounts(w)) <==>
            forall w | ReloaderRuns.Named(run, w) :: secret in mounts(w) <==> configMap in mounts(w)
  {
    var reported := Reported(ReloaderIndex.Replay(run), Queued(before, after));
    var secret, configMap := Ref("Secret", "v1", after.namespace, after.name), Ref("ConfigMap", "v1", after.namespace, after.name);
    forall w ensures w in reported <==> ReloaderRuns.Named(run, w) && configMap in mounts(w) {
      UpdateReportsExactly(run, mounts, before, after, w);
    }
  }

  // ----- runs -----

  /** An evaluation of a Reloader that names one workload with one volume. */
  function OneVolume(name: string, info: ReloaderIndex.ReloaderInfo, volume: ReloaderIndex.PodVolume): ReloaderIndex.Evaluation {
    ReloaderIndex.Evaluation(name, ReloaderIndex.Live([info]), [Some([volume])])
  }

  predicate IsWorkload(info: ReloaderIndex.ReloaderInfo) {
    info.kind == "Deployment" || info.kind == "StatefulSet" || info.kind == "DaemonSet"
  }

  /** The volume uses v and nothing else. */
  predicate Shows(volume: ReloaderIndex.PodVolume, v: Ref) {
    || (v.kind == "ConfigMap" && volume.configMap == Some(v.name))
    || (v.kind == "Secret" && volume.configMap == None && volume.secret == Some(v.name))
  }

  lemma OneVolumeIsRead(name: string, info: ReloaderIndex.ReloaderInfo, volume: ReloaderIndex.PodVolume, v: Ref)
    requires IsWorkload(info) && v.apiVersion == "v1" && v.namespace == info.namespace && Shows(volume, v)
    ensures var e := OneVolume(name, info, volume);
            && e.WellFormed() && ReloaderRuns.Succeeds(e)
            && ReloaderIndex.MountsOf(info, e.answers[0]).Some?
            && ToSet(ReloaderIndex.MountsOf(info, e.answers[0]).value) == {v}
  {
    var e := OneVolume(name, info, volume);
    var volumes := [volume];
    assert ReloaderIndex.MountsOf([info][0], e.answers[0]) == Some(ReloaderIndex.VolumeRefs(info.namespace, volumes));
    forall x ensures ReloaderIndex.UsedBy(volumes, info.namespace, x) <==> x == v {
      assert volumes[0] == volume;
    }
  }

  lemma OneVolumeIsNamed(name: string, info: ReloaderIndex.ReloaderInfo, volume: ReloaderIndex.PodVolume, w: Ref)
    requires IsWorkload(info)
    ensures var run := [OneVolume(name, info, volume)];
            && ReloaderIndex.IsRun(run) && ReloaderRuns.Orderly(run)
            && (ReloaderRuns.Named(run, w) <==> w == Ref(info.kind, "apps/v1", info.namespace, info.name))
  {
    var e := OneVolume(name, info, volume);
    var run := [e];
    assert run[..|run| - 1] == [];
    ReloaderRuns.SucceedsExactly(e);
    assert ReloaderRuns.AllReadable(e.fetch.infos, e.answers);
    assert ReloaderRuns.Orderly([]) && ReloaderRuns.Specs([]) == map[];
    assert ReloaderRuns.Specs(run) == map[name := [info]];
    assert name in ReloaderRuns.Specs(run) && info in ReloaderRuns.Specs(run)[name];
  }

  /** After that run an update lists the workload for reloading exactly if it mounts the ConfigMap of that name. */
  lemma OneVolumeReports(name: string, info: ReloaderIndex.ReloaderInfo, volume: ReloaderIndex.PodVolume, v: Ref,
                         before: Option<Object>, after: Object)
    requires IsWorkload(info) && info.namespace == after.namespace && SimplyNamed(after) && Changed(before, after)
    requires v.apiVersion == "v1" && v.namespace == info.namespace && Shows(volume, v)
    ensures var run, w := [OneVolume(name, info, volume)], Ref(info.kind, "apps/v1", info.namespace, info.name);
            && ReloaderIndex.IsRun(run)
            && w in At(ReloaderIndex.Replay(run).volumes, v)
            && Reported(ReloaderIndex.Replay(run), Queued(before, after)) ==
               if v == Ref("ConfigMap", "v1", after.namespace, after.name) then {w} else {}
  {
    var run, w := [OneVolume(name, info, volume)], Ref(info.kind, "apps/v1", info.namespace, info.name);
    var mounts := x => if x == w then {v} else {};
    OneVolumeIsRead(name, info, volume, v);
    OneVolumeIsNamed(name, info, volume, w);
    assert ReloaderRuns.ReadsAre(run, mounts);
    ReloaderRuns.IndexIsNamedMounters(run, mounts, v, w);
    forall x ensures x in Reported(ReloaderIndex.Replay(run), Queued(before, after)) <==>
                     x == w && v == Ref("ConfigMap", "v1", after.namespace, after.name) {
      OneVolumeIsNamed(name, info, volume, x);
      UpdateReportsExactly(run, mounts, before, after, x);
    }
  }

  /** A Deployment, a StatefulSet or a DaemonSet that mounts a ConfigMap is listed when that changes. */
  lemma ConfigMapChangeReported(name: string, info: ReloaderIndex.ReloaderInfo, before: Option<Object>, after: Object)
    requires info.kind in {"Deployment", "StatefulSet", "DaemonSet"} && info.namespace == after.namespace
    requires SimplyNamed(after)
    requires before.None? || before.value.data != after.data || before.value.more != after.more
    ensures var run := [OneVolume(name, info, ReloaderIndex.PodVolume(Some(after.name), None))];
            && ReloaderIndex.IsRun(run)
            && Reported(ReloaderIndex.Replay(run), Queued(before, after)) ==
               {Ref(info.kind, "apps/v1", info.namespace, info.name)}
  {
    var v := Ref("ConfigMap", "v1", after.namespace, after.name);
    OneVolumeReports(name, info, ReloaderIndex.PodVolume(Some(after.name), None), v, before, after);
  }

  /** One that mounts a Secret is in the index, and yet nothing is listed when that changes. */
  lemma SecretChangeMissed(name: string, info: ReloaderIndex.ReloaderInfo, before: Option<Object>, after: Object)
    requires info.kind in {"Deployment", "StatefulSet", "DaemonSet"} && info.namespace == after.namespace
    requires SimplyNamed(after)
    requires before.None? || before.value.data != after.data || before.value.more != after.more
    ensures var run := [OneVolume(name, info, ReloaderIndex.PodVolume(None, Some(after.name)))];
            && ReloaderIndex.IsRun(run)
            && Ref(info.kind, "apps/v1", info.namespace, info.name)
               in At(ReloaderIndex.Replay(run).volumes, Ref("Secret", "v1", after.namespace, after.name))
            && Reported(ReloaderIndex.Replay(run), Queued(before, after)) == {}
  {
    var v := Ref("Secret", "v1", after.namespace, after.name);
    OneVolumeReports(name, info, ReloaderIndex.PodVolume(None, Some(after.name)), v, before, after);
  }
}
