/**
 * The in-memory index of pkg/evaluation/reloader_evaluation.go: which workloads each Reloader
 * names, which Reloaders name each workload, and which workloads mount each ConfigMap or Secret.
 */
module ReloaderIndex {
  import opened Prelude

  // ----- what is read from the API server -----

  datatype ReloaderInfo = ReloaderInfo(kind: string, namespace: string, name: string)

  /** One volume of a pod template: the names of the ConfigMap and of the Secret it uses, if any. */
  datatype PodVolume = PodVolume(configMap: Option<string>, secret: Option<string>)

  /** The answer to reading a Reloader. */
  datatype Fetch = NotFound | Unreadable | Terminating | Live(infos: seq<ReloaderInfo>)

  /** One evaluation of a Reloader: what was read for it and, entry by entry, for its workloads. */
  datatype Evaluation = Evaluation(name: string, fetch: Fetch, answers: seq<Option<seq<PodVolume>>>)
  {
    ghost predicate WellFormed() {
      fetch.Live? ==> |answers| == |fetch.infos|
    }
  }

  function ReloaderRef(name: string): Ref {
    Ref("Reloader", "lib.projectsveltos.io/v1beta1", "", name)
  }

  function WorkloadRef(info: ReloaderInfo): Ref {
    Ref(info.kind, "apps/v1", info.namespace, info.name)
  }

  function WorkloadInfo(w: Ref): ReloaderInfo {
    ReloaderInfo(w.kind, w.namespace, w.name)
  }

  function WorkloadRefs(infos: seq<ReloaderInfo>): (refs: seq<Ref>)
    ensures |refs| == |infos| && forall i | 0 <= i < |infos| :: refs[i] == WorkloadRef(infos[i])
  {
    seq(|infos|, i requires 0 <= i < |infos| => WorkloadRef(infos[i]))
  }

  /** Some volume uses v: a ConfigMap if the volume has one, otherwise a Secret, always of the workload's namespace. */
  ghost predicate UsedBy(volumes: seq<PodVolume>, namespace: string, v: Ref) {
    && v.apiVersion == "v1" && v.namespace == namespace
    && exists i | 0 <= i < |volumes| ::
         || (v.kind == "ConfigMap" && volumes[i].configMap == Some(v.name))
         || (v.kind == "Secret" && volumes[i].configMap == None && volumes[i].secret == Some(v.name))
  }

  function VolumeRef(namespace: string, volume: PodVolume): Option<Ref> {
    if volume.configMap.Some? then Some(Ref("ConfigMap", "v1", namespace, volume.configMap.value))
    else if volume.secret.Some? then Some(Ref("Secret", "v1", namespace, volume.secret.value))
    else None
  }

  lemma UsedByOneMore(volumes: seq<PodVolume>, namespace: string, v: Ref)
    requires volumes != []
    ensures UsedBy(volumes, namespace, v) <==>
            || UsedBy(volumes[..|volumes| - 1], namespace, v)
            || VolumeRef(namespace, volumes[|volumes| - 1]) == Some(v)
  {
    var init, last := volumes[..|volumes| - 1], volumes[|volumes| - 1];
    assert volumes == init + [last];
    if UsedBy(init, namespace, v) {
      var i :| 0 <= i < |init| && ((v.kind == "ConfigMap" && init[i].configMap == Some(v.name))
                                   || (v.kind == "Secret" && init[i].configMap == None && init[i].secret == Some(v.name)));
      assert volumes[i] == init[i];
    }
    if VolumeRef(namespace, last) == Some(v) {
      assert volumes[|volumes| - 1] == last;
    }
  }

  function VolumeRefs(namespace: string, volumes: seq<PodVolume>): (refs: seq<Ref>)
    ensures forall v :: v in refs <==> UsedBy(volumes, namespace, v)
  {
    if volumes == [] then []
    else
      assert forall v :: UsedBy(volumes, namespace, v) <==>
                         UsedBy(volumes[..|volumes| - 1], namespace, v)
                         || VolumeRef(namespace, volumes[|volumes| - 1]) == Some(v) by {
        forall v { UsedByOneMore(volumes, namespace, v); }
      }
      var rest := VolumeRefs(namespace, volumes[..|volumes| - 1]);
      var last := VolumeRef(namespace, volumes[|volumes| - 1]);
      if last.Some? then rest + [last.value] else rest
  }

  /** What a workload mounts, or None when its kind is unknown or it could not be read. */
  function MountsOf(info: ReloaderInfo, read: Option<seq<PodVolume>>): Option<seq<Ref>> {
    if info.kind !in {"Deployment", "StatefulSet", "DaemonSet"} || read.None? then None
    else Some(VolumeRefs(info.namespace, read.value))
  }

  /** How many workloads of the Reloader are read before one fails. */
  function ReadableCount(infos: seq<ReloaderInfo>, answers: seq<Option<seq<PodVolume>>>): (n: nat)
    requires |answers| == |infos|
    ensures n <= |infos|
    ensures forall i | 0 <= i < n :: MountsOf(infos[i], answers[i]).Some?
    ensures n < |infos| ==> MountsOf(infos[n], answers[n]).None?
  {
    if infos == [] || MountsOf(infos[0], answers[0]).None? then 0
    else 1 + ReadableCount(infos[1..], answers[1..])
  }

  // ----- the index as a value -----

  datatype State = State(reloaders: map<Ref, set<Ref>>, resources: map<Ref, set<Ref>>, volumes: map<Ref, set<Ref>>)

  const EMPTY := State(map[], map[], map[])

  /** No empty sets, and only workloads that some Reloader references appear under a volume. */
  ghost predicate Safe(s: State) {
    && NoEmptySet(s.resources)
    && NoEmptySet(s.volumes)
    && forall v <- s.volumes, w <- s.volumes[v] :: w in s.resources
  }

  /** The Reloaders referencing w once the first n entries of r's new spec are processed. */
  function Referrers(s: State, r: Ref, refs: seq<Ref>, n: nat, w: Ref): set<Ref>
    requires n <= |refs|
  {
    if w in refs[..n] then At(s.resources, w) + {r}
    else if n > 0 && w in At(s.reloaders, r) then At(s.resources, w) - {r}
    else At(s.resources, w)
  }

  /**
   * The workloads whose old mounts are forgotten: r named them before, no other Reloader does, and they do
   * not head the new spec. Those that reappear further down the spec are mounted again from a fresh read.
   */
  function Dropped(s: State, r: Ref, refs: seq<Ref>, n: nat): set<Ref>
    requires n <= |refs|
  {
    if n == 0 then {}
    else set w | w in At(s.reloaders, r) && w != refs[0] && At(s.resources, w) <= {r}
  }

  /** The workloads recorded under volume v once n entries are processed. */
  function Mounters(s: State, r: Ref, refs: seq<Ref>, mounts: seq<seq<Ref>>, n: nat, v: Ref): set<Ref>
    requires n <= |refs| && n <= |mounts|
  {
    (At(s.volumes, v) - Dropped(s, r, refs, n)) + (set i | 0 <= i < n && v in mounts[i] :: refs[i])
  }

  function Mounts(infos: seq<ReloaderInfo>, answers: seq<Option<seq<PodVolume>>>, n: nat): (mounts: seq<seq<Ref>>)
    requires |answers| == |infos| && n <= ReadableCount(infos, answers)
    ensures |mounts| == n && forall i | 0 <= i < n :: Some(mounts[i]) == MountsOf(infos[i], answers[i])
  {
    seq(n, i requires 0 <= i < n => MountsOf(infos[i], answers[i]).value)
  }

  /** All volumes occurring in the first n mount lists. */
  function MountedVolumes(mounts: seq<seq<Ref>>, n: nat): set<Ref>
    requires n <= |mounts|
  {
    set i, v | 0 <= i < n && v in mounts[i] :: v
  }

  /** resources and volumes after n entries; reloaders is only written once the whole spec is processed. */
  function Processed(s: State, r: Ref, refs: seq<Ref>, mounts: seq<seq<Ref>>, n: nat): State
    requires n <= |refs| && n <= |mounts|
  {
    var ws := s.resources.Keys + set w | w in refs[..n];
    var vs := s.volumes.Keys + MountedVolumes(mounts, n);
    s.(
    resources := map w | w in ws && Referrers(s, r, refs, n, w) != {} :: Referrers(s, r, refs, n, w),
    volumes := map v | v in vs && Mounters(s, r, refs, mounts, n, v) != {} :: Mounters(s, r, refs, mounts, n, v))
  }

  function WithReferrer(s: State, r: Ref, w: Ref): State {
    s.(resources := s.resources[w := At(s.resources, w) + {r}])
  }

  /** The Reloader is gone: it leaves both maps, and workloads it alone referenced leave every volume. */
  function Forgotten(s: State, r: Ref): State {
    var orphans := set w | w in s.resources && s.resources[w] <= {r};
    State(s.reloaders - {r}, Without(s.resources, {r}), Without(s.volumes, orphans))
  }

  /** The Reloader was read, and n entries of its spec: all, or all before one that failed. */
  function AfterLive(s: State, r: Ref, refs: seq<Ref>, mounts: seq<seq<Ref>>, n: nat): State
    requires n <= |refs| && n <= |mounts|
  {
    var p := Processed(s, r, refs, mounts, n);
    if n < |refs| then WithReferrer(p, r, refs[n]) else p.(reloaders := p.reloaders[r := ToSet(refs)])
  }

  /** The effect of one evaluation, in closed form. */
  function After(s: State, e: Evaluation): State
    requires e.WellFormed()
  {
    var r := ReloaderRef(e.name);
    match e.fetch
    case NotFound => Forgotten(s, r)
    case Terminating => Forgotten(s, r)
    case Unreadable => s
    case Live(infos) =>
      var refs, n := WorkloadRefs(infos), ReadableCount(infos, e.answers);
      AfterLive(s, r, refs, Mounts(infos, e.answers, n), n)
  }

  /** Processed, told lookup by lookup. */
  ghost predicate IsProcessed(s: State, r: Ref, refs: seq<Ref>, mounts: seq<seq<Ref>>, n: nat, p: State)
    requires n <= |refs| && n <= |mounts|
  {
    && p.reloaders == s.reloaders
    && NoEmptySet(p.resources) && (forall w :: At(p.resources, w) == Referrers(s, r, refs, n, w))
    && NoEmptySet(p.volumes) && (forall v :: At(p.volumes, v) == Mounters(s, r, refs, mounts, n, v))
  }

  lemma ProcessedLookups(s: State, r: Ref, refs: seq<Ref>, mounts: seq<seq<Ref>>, n: nat)
    requires Safe(s) && n <= |refs| && n <= |mounts|
    ensures IsProcessed(s, r, refs, mounts, n, Processed(s, r, refs, mounts, n))
  {
    var p := Processed(s, r, refs, mounts, n);
    forall v ensures At(p.volumes, v) == Mounters(s, r, refs, mounts, n, v) {
      if v !in s.volumes && v !in MountedVolumes(mounts, n) {
        assert Mounters(s, r, refs, mounts, n, v) == {};
      }
    }
  }

  lemma AfterLiveLookups(s: State, r: Ref, refs: seq<Ref>, mounts: seq<seq<Ref>>, n: nat, w: Ref, v: Ref)
    requires Safe(s) && n <= |refs| && n <= |mounts|
    ensures var s' := AfterLive(s, r, refs, mounts, n);
            && At(s'.volumes, v) == Mounters(s, r, refs, mounts, n, v)
            && At(s'.resources, w) == Referrers(s, r, refs, n, w) + (if n < |refs| && w == refs[n] then {r} else {})
  {
    var p := Processed(s, r, refs, mounts, n);
    ProcessedLookups(s, r, refs, mounts, n);
    assert At(p.resources, w) == Referrers(s, r, refs, n, w);
    assert At(p.volumes, v) == Mounters(s, r, refs, mounts, n, v);
  }

  lemma ProcessedUnique(s: State, r: Ref, refs: seq<Ref>, mounts: seq<seq<Ref>>, n: nat, p: State)
    requires Safe(s) && n <= |refs| && n <= |mounts|
    requires IsProcessed(s, r, refs, mounts, n, p)
    ensures p == Processed(s, r, refs, mounts, n)
  {
    ProcessedLookups(s, r, refs, mounts, n);
    SameLookupsSameMap(p.resources, Processed(s, r, refs, mounts, n).resources);
    SameLookupsSameMap(p.volumes, Processed(s, r, refs, mounts, n).volumes);
  }

  /** The early erasures never leave a workload under a volume that no Reloader references. */
  lemma ProcessedIsSafe(s: State, r: Ref, refs: seq<Ref>, mounts: seq<seq<Ref>>, n: nat, p: State)
    requires Safe(s) && n <= |refs| && n <= |mounts|
    requires IsProcessed(s, r, refs, mounts, n, p)
    ensures Safe(p)
  {
    forall v, w | v in p.volumes && w in p.volumes[v] ensures w in p.resources {
      assert w in Mounters(s, r, refs, mounts, n, v);
      assert At(p.resources, w) == Referrers(s, r, refs, n, w) != {};
    }
  }

  lemma AfterLiveIsSafe(s: State, r: Ref, refs: seq<Ref>, mounts: seq<seq<Ref>>, n: nat)
    requires Safe(s) && n <= |refs| && n <= |mounts|
    ensures Safe(AfterLive(s, r, refs, mounts, n))
  {
    ProcessedLookups(s, r, refs, mounts, n);
    ProcessedIsSafe(s, r, refs, mounts, n, Processed(s, r, refs, mounts, n));
  }

  lemma ForgottenIsSafe(s: State, r: Ref)
    requires Safe(s)
    ensures Safe(Forgotten(s, r))
  {
    var s' := Forgotten(s, r);
    forall v, w | v in s'.volumes && w in s'.volumes[v] ensures w in s'.resources {
      assert w in At(s'.volumes, v);
      assert w in At(s.volumes, v) && At(s'.resources, w) == At(s.resources, w) - {r};
    }
  }

  lemma AfterIsSafe(s: State, e: Evaluation)
    requires Safe(s) && e.WellFormed()
    ensures Safe(After(s, e))
  {
    var r := ReloaderRef(e.name);
    match e.fetch
    case Live(infos) =>
      var n := ReadableCount(infos, e.answers);
      AfterLiveIsSafe(s, r, WorkloadRefs(infos), Mounts(infos, e.answers, n), n);
    case Unreadable =>
    case _ =>
      ForgottenIsSafe(s, r);
  }

  /** The workloads r named before that are not among the first n entries of its new spec. */
  function Stale(s: State, r: Ref, refs: seq<Ref>, n: nat): set<Ref>
    requires n <= |refs|
  {
    set w | w in At(s.reloaders, r) && w !in refs[..n]
  }

  /** The stale workloads that r alone references. */
  function Orphaned(resources: map<Ref, set<Ref>>, stale: set<Ref>, r: Ref): set<Ref> {
    set w | w in stale && At(resources, w) <= {r}
  }

  /** r is erased from the referrers of the workloads ws, and those it alone referenced leave every volume. */
  ghost predicate Erased(s: State, s': State, ws: set<Ref>, r: Ref) {
    && s'.reloaders == s.reloaders && NoEmptySet(s'.resources) && NoEmptySet(s'.volumes)
    && (forall w :: At(s'.resources, w) == At(s.resources, w) - (if w in ws then {r} else {}))
    && (forall v :: At(s'.volumes, v) == At(s.volumes, v) - Orphaned(s.resources, ws, r))
  }

  lemma ErasedAlso(s: State, s': State, s'': State, ws: set<Ref>, w: Ref, r: Ref)
    requires w !in ws
    requires Erased(s, s', ws, r) && Erased(s', s'', {w}, r)
    ensures Erased(s, s'', ws + {w}, r)
  {
    assert At(s'.resources, w) == At(s.resources, w);
    assert Orphaned(s.resources, ws + {w}, r) == Orphaned(s.resources, ws, r) + Orphaned(s'.resources, {w}, r);
  }

  /** w, which mounts the given volumes, has joined each of them. */
  ghost predicate Mounted(s: State, s': State, w: Ref, mounted: seq<Ref>) {
    && s' == s.(volumes := s'.volumes) && NoEmptySet(s'.volumes)
    && forall v :: At(s'.volumes, v) == At(s.volumes, v) + (if v in mounted then {w} else {})
  }

  /**
   * One pass of the loop takes the closed form for n entries to the one for n + 1, although the workloads
   * it erases are those missing from a half-built set: what it erases too early, a later pass restores.
   */
  lemma OneEntry(s: State, r: Ref, refs: seq<Ref>, mounts: seq<seq<Ref>>, n: nat, p: State, q: State, next: State)
    requires n < |refs| && n < |mounts|
    requires IsProcessed(s, r, refs, mounts, n, p)
    requires Mounted(WithReferrer(p, r, refs[n]), q, refs[n], mounts[n])
    requires Erased(q, next, Stale(s, r, refs, n + 1), r)
    ensures IsProcessed(s, r, refs, mounts, n + 1, next)
  {
    OneEntryOrphans(s, r, refs, mounts, n, p);
    forall w ensures At(next.resources, w) == Referrers(s, r, refs, n + 1, w) {
      OneEntryReferrers(s, r, refs, n, w);
    }
    forall v ensures At(next.volumes, v) == Mounters(s, r, refs, mounts, n + 1, v) {
      OneEntryMounters(s, r, refs, mounts, n, v);
    }
  }

  lemma OneEntryOrphans(s: State, r: Ref, refs: seq<Ref>, mounts: seq<seq<Ref>>, n: nat, p: State)
    requires n < |refs| && n < |mounts|
    requires IsProcessed(s, r, refs, mounts, n, p)
    ensures var q, stale := WithReferrer(p, r, refs[n]), Stale(s, r, refs, n + 1);
            Orphaned(q.resources, stale, r) == Orphaned(s.resources, stale, r)
  {
    var q := WithReferrer(p, r, refs[n]);
    forall w <- Stale(s, r, refs, n + 1) ensures At(q.resources, w) <= {r} <==> At(s.resources, w) <= {r} {
      assert refs[n] in refs[..n + 1];
      assert At(q.resources, w) == Referrers(s, r, refs, n, w);
    }
  }

  lemma OneEntryReferrers(s: State, r: Ref, refs: seq<Ref>, n: nat, w: Ref)
    requires n < |refs|
    ensures Referrers(s, r, refs, n + 1, w) ==
            Referrers(s, r, refs, n, w) + (if w == refs[n] then {r} else {})
            - (if w in Stale(s, r, refs, n + 1) then {r} else {})
  {
    assert refs[..n + 1] == refs[..n] + [refs[n]];
  }

  lemma OneEntryMounters(s: State, r: Ref, refs: seq<Ref>, mounts: seq<seq<Ref>>, n: nat, v: Ref)
    requires n < |refs| && n < |mounts|
    ensures Mounters(s, r, refs, mounts, n + 1, v) ==
            Mounters(s, r, refs, mounts, n, v) + (if v in mounts[n] then {refs[n]} else {})
            - Orphaned(s.resources, Stale(s, r, refs, n + 1), r)
  {
    var gone := Orphaned(s.resources, Stale(s, r, refs, n + 1), r);
    var before := set i | 0 <= i < n && v in mounts[i] :: refs[i];
    var after := set i | 0 <= i < n + 1 && v in mounts[i] :: refs[i];
    assert after == before + (if v in mounts[n] then {refs[n]} else {});
    assert forall i | 0 <= i < n + 1 :: refs[i] in refs[..n + 1];
    assert after !! gone;
    assert Dropped(s, r, refs, n + 1) == Dropped(s, r, refs, n) + gone by {
      if n == 0 {
        assert refs[..1] == [refs[0]];
      }
    }
  }

  // ----- the stale lookup that finds nothing -----

  /** The pass after entry n - 1 looks up the referrers of a workload that an earlier pass removed. */
  ghost predicate MissesAt(s: State, r: Ref, refs: seq<Ref>, n: nat)
    requires 0 < n <= |refs|
  {
    exists w <- At(s.reloaders, r) :: w !in refs[..n] && Referrers(s, r, refs, n - 1, w) == {}
  }

  /** One of the first m passes does. */
  ghost predicate MissesWithin(s: State, r: Ref, refs: seq<Ref>, m: nat)
    requires m <= |refs|
  {
    exists n | 0 < n <= m :: MissesAt(s, r, refs, n)
  }

  lemma MissesWithinNext(s: State, r: Ref, refs: seq<Ref>, m: nat)
    requires m < |refs|
    ensures MissesWithin(s, r, refs, m + 1) <==> MissesWithin(s, r, refs, m) || MissesAt(s, r, refs, m + 1)
  {}

  lemma PrefixSet(refs: seq<Ref>, n: nat)
    requires n < |refs|
    ensures ToSet(refs[..n + 1]) == ToSet(refs[..n]) + {refs[n]}
  {
    assert refs[..n + 1] == refs[..n] + [refs[n]];
  }

  /** n entries are processed and, if there is a next one, r is already recorded as a referrer of it. */
  ghost predicate TrackedTo(s: State, r: Ref, refs: seq<Ref>, mounts: seq<seq<Ref>>, n: nat, s': State)
    requires n <= |refs| && n <= |mounts|
  {
    if n == |refs| then IsProcessed(s, r, refs, mounts, n, s')
    else exists p :: IsProcessed(s, r, refs, mounts, n, p) && s' == WithReferrer(p, r, refs[n])
  }

  lemma StoppedAt(s: State, r: Ref, refs: seq<Ref>, mounts: seq<seq<Ref>>, n: nat, p: State, s': State)
    requires n < |refs| && n <= |mounts| && IsProcessed(s, r, refs, mounts, n, p) && s' == WithReferrer(p, r, refs[n])
    ensures TrackedTo(s, r, refs, mounts, n, s')
  {}

  lemma TrackedIsAfterLive(s: State, r: Ref, refs: seq<Ref>, mounts: seq<seq<Ref>>, n: nat, s': State)
    requires Safe(s) && n <= |refs| && n <= |mounts| && TrackedTo(s, r, refs, mounts, n, s')
    ensures AfterLive(s, r, refs, mounts, n) ==
            if n < |refs| then s' else s'.(reloaders := s'.reloaders[r := ToSet(refs)])
  {
    if n == |refs| {
      ProcessedUnique(s, r, refs, mounts, n, s');
    } else {
      var p :| IsProcessed(s, r, refs, mounts, n, p) && s' == WithReferrer(p, r, refs[n]);
      ProcessedUnique(s, r, refs, mounts, n, p);
    }
  }

  lemma AfterTracking(s: State, name: string, infos: seq<ReloaderInfo>, answers: seq<Option<seq<PodVolume>>>, s': State)
    requires Safe(s) && |answers| == |infos|
    requires var refs, n := WorkloadRefs(infos), ReadableCount(infos, answers);
             TrackedTo(s, ReloaderRef(name), refs, Mounts(infos, answers, n), n, s')
    ensures var refs, n := WorkloadRefs(infos), ReadableCount(infos, answers);
            After(s, Evaluation(name, Live(infos), answers)) ==
            if n < |infos| then s' else s'.(reloaders := s'.reloaders[ReloaderRef(name) := ToSet(refs)])
  {
    var n := ReadableCount(infos, answers);
    TrackedIsAfterLive(s, ReloaderRef(name), WorkloadRefs(infos), Mounts(infos, answers, n), n, s');
  }

  /** A pass misses exactly when some stale workload had no referrers left before it. */
  lemma MissesAtPass(s: State, r: Ref, refs: seq<Ref>, mounts: seq<seq<Ref>>, n: nat, p: State)
    requires n < |refs| && n < |mounts|
    requires IsProcessed(s, r, refs, mounts, n, p)
    ensures MissesAt(s, r, refs, n + 1) <==> !(Stale(s, r, refs, n + 1) <= p.resources.Keys)
  {
    forall w <- Stale(s, r, refs, n + 1) ensures w !in p.resources <==> Referrers(s, r, refs, n, w) == {} {
      assert At(p.resources, w) == Referrers(s, r, refs, n, w);
    }
  }

  // ----- runs -----

  ghost predicate IsRun(run: seq<Evaluation>) {
    forall e <- run :: e.WellFormed()
  }

  function Replay(run: seq<Evaluation>): State
    requires IsRun(run)
  {
    if run == [] then EMPTY else After(Replay(run[..|run| - 1]), run[|run| - 1])
  }

  lemma ReplayAppend(run: seq<Evaluation>, e: Evaluation)
    requires IsRun(run) && e.WellFormed()
    ensures IsRun(run + [e]) && Replay(run + [e]) == After(Replay(run), e)
  {
    assert (run + [e])[..|run|] == run;
  }

  // ----- the index as the agent keeps it -----

  method GetVolumes(namespace: string, volumes: seq<PodVolume>) returns (refs: seq<Ref>)
    ensures refs == VolumeRefs(namespace, volumes)
    ensures forall v :: v in refs <==> UsedBy(volumes, namespace, v)
  {
    refs := [];
    for i := 0 to |volumes|
      invariant refs == VolumeRefs(namespace, volumes[..i])
    {
      assert volumes[..i + 1][..i] == volumes[..i];
      var volume := volumes[i];
      if volume.configMap.Some? {
        refs := refs + [Ref("ConfigMap", "v1", namespace, volume.configMap.value)];
      } else if volume.secret.Some? {
        refs := refs + [Ref("Secret", "v1", namespace, volume.secret.value)];
      }
    }
    assert volumes[..|volumes|] == volumes;
  }

  method ListWorkloads(ws: set<Ref>) returns (infos: seq<ReloaderInfo>)
    ensures |infos| == |ws| && ToSet(infos) == set w | w in ws :: WorkloadInfo(w)
  {
    infos := [];
    var pending := ws;
    ghost var seen: set<Ref> := {};
    while pending != {}
      invariant seen == ws - pending && pending <= ws
      invariant |infos| == |seen| && ToSet(infos) == set w | w in seen :: WorkloadInfo(w)
    {
      var w :| w in pending;
      assert ToSet(infos + [WorkloadInfo(w)]) == ToSet(infos) + {WorkloadInfo(w)};
      infos := infos + [WorkloadInfo(w)];
      seen, pending := seen + {w}, pending - {w};
    }
    assert seen == ws;
  }

  class Index {
    var reloaders: map<Ref, set<Ref>>
    var resources: map<Ref, set<Ref>>
    var volumes: map<Ref, set<Ref>>

    /** Every evaluation made so far. */
    ghost var history: seq<Evaluation>

    function Current(): State
      reads this
    {
      State(reloaders, resources, volumes)
    }

    /** The three maps hold what replaying every evaluation so far gives, and they are safe. */
    ghost predicate Valid()
      reads this
    {
      IsRun(history) && Current() == Replay(history) && Safe(Current())
    }

    constructor ()
      ensures Valid() && history == []
    {
      reloaders, resources, volumes, history := map[], map[], map[], [];
    }

    method CleanVolumeMap(w: Ref)
      modifies this`volumes
      ensures volumes == Without(old(volumes), {w})
    {
      var pending := volumes.Keys;
      while pending != {}
        invariant pending <= volumes.Keys <= old(volumes).Keys
        invariant forall v <- pending :: volumes[v] == old(volumes)[v]
        invariant forall v <- old(volumes).Keys - pending :: At(volumes, v) == old(volumes)[v] - {w}
        invariant forall v <- volumes.Keys - pending :: volumes[v] != {}
      {
        var v :| v in pending;
        var rest := volumes[v] - {w};
        if rest == {} {
          volumes := volumes - {v};
        } else {
          volumes := volumes[v := rest];
        }
        pending := pending - {v};
      }
      SameLookupsSameMap(volumes, Without(old(volumes), {w}));
    }

    method CleanReloaderMap(name: string)
      modifies this`reloaders
      ensures reloaders == old(reloaders) - {ReloaderRef(name)}
    {
      reloaders := reloaders - {ReloaderRef(name)};
    }

    method CleanResourceMap(name: string)
      requires Safe(Current())
      modifies this`resources, this`volumes
      ensures Current() == Forgotten(old(Current()), ReloaderRef(name)).(reloaders := reloaders)
      ensures Safe(Current())
    {
      var r := ReloaderRef(name);
      var pending := resources.Keys;
      ghost var gone: set<Ref> := {};
      while pending != {}
        invariant pending <= resources.Keys <= old(resources).Keys
        invariant forall w <- pending :: resources[w] == old(resources)[w]
        invariant forall w <- old(resources).Keys - pending :: At(resources, w) == old(resources)[w] - {r}
        invariant NoEmptySet(resources) && NoEmptySet(volumes)
        invariant forall v :: At(volumes, v) == At(old(volumes), v) - gone
        invariant gone == set w | w in old(resources).Keys - pending && old(resources)[w] <= {r}
      {
        var w :| w in pending;
        var rest := resources[w] - {r};
        if rest == {} {
          resources := resources - {w};
          CleanVolumeMap(w);
          gone := gone + {w};
        } else {
          resources := resources[w := rest];
        }
        pending := pending - {w};
      }
      SameLookupsSameMap(resources, Without(old(resources), {r}));
      assert gone == set w | w in old(resources) && old(resources)[w] <= {r};
      SameLookupsSameMap(volumes, Without(old(volumes), gone));
    }

    method UpdateVolumeMap(info: ReloaderInfo, answer: Option<seq<PodVolume>>) returns (ok: bool)
      requires NoEmptySet(volumes)
      modifies this`volumes
      ensures ok == MountsOf(info, answer).Some?
      ensures ok <==> info.kind in {"Deployment", "StatefulSet", "DaemonSet"} && answer.Some?
      ensures !ok ==> volumes == old(volumes)
      ensures ok ==> forall v :: At(volumes, v) == At(old(volumes), v) +
                                 if UsedBy(answer.value, info.namespace, v)
                                 then {Ref(info.kind, "apps/v1", info.namespace, info.name)} else {}
      ensures ok ==> Mounted(old(Current()), Current(), WorkloadRef(info), MountsOf(info, answer).value)
    {
      if info.kind !in {"Deployment", "StatefulSet", "DaemonSet"} || answer.None? {
        return false;
      }
      var mounted := GetVolumes(info.namespace, answer.value);
      var w := WorkloadRef(info);
      for i := 0 to |mounted|
        invariant NoEmptySet(volumes)
        invariant forall v :: At(volumes, v) == At(old(volumes), v) + (if v in mounted[..i] then {w} else {})
      {
        volumes := volumes[mounted[i] := At(volumes, mounted[i]) + {w}];
      }
      assert mounted[..|mounted|] == mounted;
      return true;
    }

    /** Erases r from the referrers of w; found is false when there was no entry, which counts as an empty set. */
    method EraseReferrer(w: Ref, r: Ref) returns (found: bool)
      requires NoEmptySet(resources) && NoEmptySet(volumes)
      modifies this`resources, this`volumes
      ensures Erased(old(Current()), Current(), {w}, r)
      ensures found <==> w in old(resources)
    {
      found := w in resources;
      var rest := At(resources, w) - {r};
      if rest == {} {
        resources := resources - {w};
        CleanVolumeMap(w);
        assert Orphaned(old(resources), {w}, r) == {w};
      } else {
        resources := resources[w := rest];
        assert Orphaned(old(resources), {w}, r) == {};
      }
    }

    /** Erases r from the referrers of the stale workloads, in any order; missed if one of them had no entry. */
    method EraseStale(stale: set<Ref>, r: Ref) returns (missed: bool)
      requires NoEmptySet(resources) && NoEmptySet(volumes)
      modifies this`resources, this`volumes
      ensures Erased(old(Current()), Current(), stale, r)
      ensures missed <==> !(stale <= old(resources).Keys)
    {
      missed := false;
      var pending := stale;
      ghost var s, seen: set<Ref> := Current(), {};
      while pending != {}
        invariant seen == stale - pending && pending <= stale
        invariant Erased(s, Current(), seen, r)
        invariant missed <==> !(seen <= s.resources.Keys)
      {
        var w :| w in pending;
        ghost var before := Current();
        assert w in before.resources <==> w in s.resources by {
          assert At(before.resources, w) == At(s.resources, w);
        }
        var found := EraseReferrer(w, r);
        ErasedAlso(s, before, Current(), seen, w, r);
        missed := missed || !found;
        seen, pending := seen + {w}, pending - {w};
      }
      assert seen == stale;
    }

    /** Re-reads one Reloader. Every map ends as the closed form says, whether or not the evaluation succeeds. */
    method Evaluate(e: Evaluation) returns (ok: bool, missed: bool)
      requires Valid() && e.WellFormed()
      modifies this
      ensures Valid() && history == old(history) + [e]
      ensures Current() == After(old(Current()), e)
      ensures ok <==> (e.fetch.Live? ==> ReadableCount(e.fetch.infos, e.answers) == |e.fetch.infos|) && !e.fetch.Unreadable?
      ensures missed <==>
              && e.fetch.Live?
              && var m := ReadableCount(e.fetch.infos, e.answers);
                 MissesWithin(old(Current()), ReloaderRef(e.name), WorkloadRefs(e.fetch.infos), m)
    {
      AfterIsSafe(Current(), e);
      ReplayAppend(history, e);
      history := history + [e];
      ok, missed := true, false;
      match e.fetch
      case Unreadable =>
        ok := false;
      case NotFound =>
        CleanReloaderMap(e.name);
        CleanResourceMap(e.name);
      case Terminating =>
        CleanReloaderMap(e.name);
        CleanResourceMap(e.name);
      case Live(infos) =>
        ok, missed := TrackSpec(e.name, infos, e.answers);
    }

    method TrackSpec(name: string, infos: seq<ReloaderInfo>, answers: seq<Option<seq<PodVolume>>>)
      returns (ok: bool, missed: bool)
      requires Safe(Current()) && |answers| == |infos|
      modifies this`reloaders, this`resources, this`volumes
      ensures Current() == After(old(Current()), Evaluation(name, Live(infos), answers))
      ensures ok <==> ReadableCount(infos, answers) == |infos|
      ensures missed <==> MissesWithin(old(Current()), ReloaderRef(name), WorkloadRefs(infos), ReadableCount(infos, answers))
    {
      ghost var s := Current();
      var current;
      ok, current, missed := TrackEntries(ReloaderRef(name), infos, answers);
      AfterTracking(s, name, infos, answers, Current());
      if ok {
        reloaders := reloaders[ReloaderRef(name) := current];
      }
    }

    /** The loop over the spec; it stops at the first workload that cannot be read. */
    method TrackEntries(r: Ref, infos: seq<ReloaderInfo>, answers: seq<Option<seq<PodVolume>>>)
      returns (ok: bool, current: set<Ref>, missed: bool)
      requires Safe(Current()) && |answers| == |infos|
      modifies this`resources, this`volumes
      ensures ok <==> ReadableCount(infos, answers) == |infos|
      ensures ok ==> current == ToSet(WorkloadRefs(infos))
      ensures var n := ReadableCount(infos, answers);
              TrackedTo(old(Current()), r, WorkloadRefs(infos), Mounts(infos, answers, n), n, Current())
      ensures missed <==> MissesWithin(old(Current()), r, WorkloadRefs(infos), ReadableCount(infos, answers))
    {
      ghost var s := Current();
      ghost var refs, count := WorkloadRefs(infos), ReadableCount(infos, answers);
      ghost var mounts := Mounts(infos, answers, count);
      current, missed := {}, false;
      for i := 0 to |infos|
        invariant i <= count
        invariant IsProcessed(s, r, refs, mounts, i, Current())
        invariant current == ToSet(refs[..i])
        invariant missed <==> MissesWithin(s, r, refs, i)
      {
        assert i == count ==> MountsOf(infos[i], answers[i]).None?;
        current := current + {WorkloadRef(infos[i])};
        PrefixSet(refs, i);
        MissesWithinNext(s, r, refs, i);
        var miss;
        ghost var p := Current();
        ok, miss := TrackEntry(r, infos[i], answers[i], current, s, refs, mounts, i);
        if !ok {
          assert i == count;
          StoppedAt(s, r, refs, mounts, i, p, Current());
          return;
        }
        missed := missed || miss;
      }
      assert refs[..|infos|] == refs;
      ok := true;
    }

    /** One pass: record r as a referrer, add the mounts, then erase r from the workloads that look stale. */
    method TrackEntry(r: Ref, info: ReloaderInfo, answer: Option<seq<PodVolume>>, current: set<Ref>,
                      ghost s: State, ghost refs: seq<Ref>, ghost mounts: seq<seq<Ref>>, ghost n: nat)
      returns (ok: bool, missed: bool)
      requires Safe(s) && n < |refs| && n <= |mounts| && refs[n] == WorkloadRef(info)
      requires MountsOf(info, answer) == if n < |mounts| then Some(mounts[n]) else None
      requires IsProcessed(s, r, refs, mounts, n, Current()) && current == ToSet(refs[..n + 1])
      modifies this`resources, this`volumes
      ensures ok == MountsOf(info, answer).Some?
      ensures !ok ==> Current() == WithReferrer(old(Current()), r, WorkloadRef(info)) && !missed
      ensures ok ==> IsProcessed(s, r, refs, mounts, n + 1, Current()) && (missed <==> MissesAt(s, r, refs, n + 1))
    {
      missed := false;
      var w := WorkloadRef(info);
      resources := resources[w := At(resources, w) + {r}];
      ok := UpdateVolumeMap(info, answer);
      if ok {
        var stale := At(reloaders, r) - current;
        assert stale == Stale(s, r, refs, n + 1);
        ghost var q := Current();
        missed := EraseStale(stale, r);
        assert refs[n] !in stale;
        OneEntry(s, r, refs, mounts, n, old(Current()), q, Current());
        MissesAtPass(s, r, refs, mounts, n, old(Current()));
      }
    }

    /**
     * Appends the workloads mounting v to what the ReloaderReport lists. listed is None when the report could neither
     * be read nor created; report is what is stored in it, None when it is left alone.
     */
    method UpdateReport(v: Ref, listed: Option<seq<ReloaderInfo>>, updateOk: bool, statusOk: bool)
      returns (ok: bool, report: Option<seq<ReloaderInfo>>)
      requires Valid()
      ensures ok <==> v !in volumes || (listed.Some? && updateOk && statusOk)
      ensures report.Some? <==> v in volumes && listed.Some? && updateOk
      ensures report.Some? ==> listed.value < report.value && |report.value| == |listed.value| + |volumes[v]|
      ensures report.Some? ==> ToSet(report.value[|listed.value|..]) == set w | w in volumes[v] :: WorkloadInfo(w)
      ensures report.Some? ==> volumes[v] <= resources.Keys
    {
      if v !in volumes {
        return true, None;
      }
      if listed.None? {
        return false, None;
      }
      var added := ListWorkloads(volumes[v]);
      if !updateOk {
        return false, None;
      }
      assert (listed.value + added)[|listed.value|..] == added;
      return statusOk, Some(listed.value + added);
    }
  }
}
