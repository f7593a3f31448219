/**
 * The reloader queue: its jobs are kept as text keys, "kind:name" for a Reloader and "kind:namespace/name" for a
 * ConfigMap or Secret, and every round takes the keys apart again.
 */
module JobKeys {
  import opened Prelude
  import opened Text

  datatype Job = Reloader(name: string) | Volume(kind: string, namespace: string, name: string)

  /** What a round does with a key; Malformed is handled by evaluateMountedResource, which returns an error. */
  datatype Dispatch = Skip | Evaluate(job: Job) | Malformed

  predicate IsVolumeKind(kind: string) {
    kind == "ConfigMap" || kind == "Secret"
  }

  function Key(job: Job): string {
    match job
    case Reloader(name) => "Reloader:" + name
    case Volume(kind, namespace, name) => kind + ":" + namespace + "/" + name
  }

  function Dispatched(key: string): Dispatch {
    var parts := Split(key, ":");
    if |parts| != 2 then Skip
    else if '/' in parts[1] then
      var names := Split(parts[1], "/");
      if |names| != 2 then Malformed else Evaluate(Volume(parts[0], names[0], names[1]))
    else Evaluate(Reloader(parts[1]))
  }

  /** Free of the two characters that keys are taken apart at. */
  predicate Simple(name: string) {
    ':' !in name && '/' !in name
  }

  predicate WellNamed(job: Job) {
    match job
    case Reloader(name) => Simple(name)
    case Volume(kind, namespace, name) => IsVolumeKind(kind) && Simple(namespace) && Simple(name)
  }

  // ----- printing and parsing -----

  lemma PrefixAddsAPart(kind: string, rest: string)
    requires ':' !in kind
    ensures Split(kind + ":" + rest, ":") == [kind] + Split(rest, ":")
  {
    SplitFirstChar(kind, ':', rest);
  }

  /** A Reloader key is dispatched back to its Reloader exactly when the name has neither ':' nor '/'. */
  lemma ReloaderRoundTrip(name: string)
    ensures Dispatched(Key(Reloader(name))) == Evaluate(Reloader(name)) <==> Simple(name)
  {
    PrefixAddsAPart("Reloader", name);
    SplitOnePart(name, ':');
    assert "Reloader:" + name == "Reloader" + ":" + name;
  }

  /** Splitting "namespace/name" gives the two names back exactly when neither has a '/'. */
  lemma NamespacedRoundTrip(namespace: string, name: string)
    ensures Split(namespace + "/" + name, "/") == [namespace, name] <==> '/' !in namespace && '/' !in name
  {
    if '/' in namespace {
      var head, rest := CutAtFirst(namespace, '/');
      assert namespace + "/" + name == head + "/" + (rest + "/" + name);
      SplitFirstChar(head, '/', rest + "/" + name);
      assert Split(namespace + "/" + name, "/")[0] == head != namespace;
    } else {
      SplitFirstChar(namespace, '/', name);
      SplitOnePart(name, '/');
      assert Split(namespace + "/" + name, "/")[1..] == Split(name, "/");
    }
  }

  lemma DispatchedVolume(kind: string, rest: string)
    requires ':' !in kind && '/' in rest
    ensures Dispatched(kind + ":" + rest) ==
            var names := Split(rest, "/");
            if ':' in rest then Skip
            else if |names| != 2 then Malformed
            else Evaluate(Volume(kind, names[0], names[1]))
  {
    PrefixAddsAPart(kind, rest);
    SplitOnePart(rest, ':');
  }

  lemma NamespacedDispatch(kind: string, namespace: string, name: string)
    requires ':' !in kind
    ensures Dispatched(kind + ":" + (namespace + "/" + name)) == Evaluate(Volume(kind, namespace, name))
            <==> Simple(namespace) && Simple(name)
  {
    var rest := namespace + "/" + name;
    assert rest[|namespace|] == '/';
    assert ':' in rest <==> ':' in namespace || ':' in name;
    DispatchedVolume(kind, rest);
    NamespacedRoundTrip(namespace, name);
    var names := Split(rest, "/");
    assert names == [namespace, name] <==> |names| == 2 && names[0] == namespace && names[1] == name;
  }

  /** A ConfigMap or Secret key is dispatched back to it exactly when both its names are free of ':' and '/'. */
  lemma VolumeRoundTrip(kind: string, namespace: string, name: string)
    requires IsVolumeKind(kind)
    ensures var job := Volume(kind, namespace, name); Dispatched(Key(job)) == Evaluate(job) <==> WellNamed(job)
  {
    assert Key(Volume(kind, namespace, name)) == kind + ":" + (namespace + "/" + name);
    NamespacedDispatch(kind, namespace, name);
  }

  lemma RoundTrip(job: Job)
    requires job.Volume? ==> IsVolumeKind(job.kind)
    ensures Dispatched(Key(job)) == Evaluate(job) <==> WellNamed(job)
  {
    match job
    case Reloader(name) => ReloaderRoundTrip(name);
    case Volume(kind, namespace, name) => VolumeRoundTrip(kind, namespace, name);
  }

  lemma KeysAreDistinct(job: Job, other: Job)
    requires WellNamed(job) && WellNamed(other) && Key(job) == Key(other)
    ensures job == other
  {
    RoundTrip(job);
    RoundTrip(other);
  }

  /**
   * What a round does with any key: it skips the key unless it has exactly one ':'; without a '/' after that it is a
   * Reloader, with one a ConfigMap or Secret, and with more it is malformed.
   */
  lemma DispatchedExactly(key: string, kind: string, rest: string)
    ensures Dispatched(key) == Skip <==> multiset(key)[':'] != 1
    ensures ':' !in kind && ':' !in rest ==>
              && multiset(kind + ":" + rest)[':'] == 1
              && (Dispatched(kind + ":" + rest) == Evaluate(Reloader(rest)) <==> '/' !in rest)
              && (Dispatched(kind + ":" + rest) == Malformed <==> multiset(rest)['/'] > 1)
  {
    SplitCounts(key, ':');
    if ':' !in kind && ':' !in rest {
      PrefixAddsAPart(kind, rest);
      SplitOnePart(rest, ':');
      SplitCounts(kind + ":" + rest, ':');
      SplitCounts(rest, '/');
    }
  }

  // ----- changes of ConfigMaps and Secrets -----

  /** A ConfigMap or Secret; more is its BinaryData or StringData. */
  datatype Object = Object(namespace: string, name: string, data: map<string, string>, more: map<string, string>)

  predicate Changed(before: Option<Object>, after: Object) {
    before.None? || before.value.data != after.data || before.value.more != after.more
  }

  /** What the predicates queue for an update, of a ConfigMap and of a Secret alike. */
  function Queued(before: Option<Object>, after: Object): set<string> {
    if Changed(before, after) then {Key(Volume("ConfigMap", after.namespace, after.name))} else {}
  }

  // ----- rounds of the worker -----

  predicate Returns(key: string, fails: string -> bool) {
    match Dispatched(key)
    case Skip => false
    case Malformed => true
    case Evaluate(_) => fails(key)
  }

  /** The queue after a round: EvaluateReloader puts its prefix before the key of every job that failed. */
  function Requeued(queue: set<string>, fails: string -> bool): set<string> {
    set key | key in queue && Returns(key, fails) :: "Reloader:" + key
  }

  /** A key that was dispatched gets a third part, and such a key is skipped. */
  lemma SecondPrefixIsSkipped(key: string)
    requires Dispatched(key) != Skip
    ensures |Split("Reloader:" + key, ":")| >= 3 && Dispatched("Reloader:" + key) == Skip
  {
    PrefixAddsAPart("Reloader", key);
    assert "Reloader:" + key == "Reloader" + ":" + key;
  }

  /** So a failed job is not retried: whatever fails, two rounds leave nothing of what was queued. */
  lemma FailedJobsAreLost(queue: set<string>, fails: string -> bool, fails': string -> bool)
    ensures Requeued(Requeued(queue, fails), fails') == {}
    ensures forall key <- Requeued(queue, fails) :: Dispatched(key) == Skip
  {
    forall key <- Requeued(queue, fails) ensures Dispatched(key) == Skip {
      var before :| before in queue && Returns(before, fails) && key == "Reloader:" + before;
      SecondPrefixIsSkipped(before);
    }
  }

  /** Queueing the keys unchanged would keep every failed job, and dispatch it the same way the next time. */
  lemma UnchangedKeysWouldBeRetried(jobs: set<Job>, fails: string -> bool, job: Job)
    requires forall j <- jobs :: WellNamed(j)
    ensures var queue := set j | j in jobs :: Key(j);
            var kept := set key | key in queue && Returns(key, fails);
            WellNamed(job) ==> (Key(job) in kept <==> job in jobs && fails(Key(job)))
                               && (Key(job) in kept ==> Dispatched(Key(job)) == Evaluate(job))
  {
    if WellNamed(job) {
      RoundTrip(job);
      forall j <- jobs ensures Key(j) == Key(job) ==> j == job {
        if Key(j) == Key(job) {
          KeysAreDistinct(j, job);
        }
      }
    }
  }

  class ReloaderQueue {
    var jobs: map<string, bool>

    method EvaluateReloader(name: string)
      modifies this
      ensures jobs.Keys == old(jobs).Keys + {Key(Reloader(name))}
    {
      jobs := jobs["Reloader:" + name := true];
    }

    method EvaluateConfigMap(namespace: string, name: string)
      modifies this
      ensures jobs.Keys == old(jobs).Keys + {Key(Volume("ConfigMap", namespace, name))}
    {
      var key := "ConfigMap:" + namespace + "/" + name;
      assert key == "ConfigMap" + ":" + namespace + "/" + name;
      jobs := jobs[key := true];
    }

    method EvaluateSecret(namespace: string, name: string)
      modifies this
      ensures jobs.Keys == old(jobs).Keys + {Key(Volume("Secret", namespace, name))}
    {
      var key := "Secret:" + namespace + "/" + name;
      assert key == "Secret" + ":" + namespace + "/" + name;
      jobs := jobs[key := true];
    }

    /** ConfigMapPredicates on an update; passed tells whether a Reloader is to be reconciled. */
    method ConfigMapUpdated(before: Option<Object>, after: Object) returns (passed: bool)
      modifies this
      ensures !passed
      ensures jobs.Keys == old(jobs).Keys + Queued(before, after)
      ensures before.None? || before.value.data != after.data || before.value.more != after.more
              <==> Queued(before, after) != {}
    {
      if before.None? {
        EvaluateConfigMap(after.namespace, after.name);
        return false;
      }
      if before.value.data != after.data {
        EvaluateConfigMap(after.namespace, after.name);
      }
      if before.value.more != after.more {
        EvaluateConfigMap(after.namespace, after.name);
      }
      return false;
    }

    /** SecretPredicates on an update: it queues a ConfigMap, too. */
    method SecretUpdated(before: Option<Object>, after: Object) returns (passed: bool)
      modifies this
      ensures !passed
      ensures jobs.Keys == old(jobs).Keys + Queued(before, after)
      ensures before.None? || before.value.data != after.data || before.value.more != after.more
              <==> Queued(before, after) != {}
    {
      if before.None? {
        EvaluateConfigMap(after.namespace, after.name);
        return false;
      }
      if before.value.data != after.data {
        EvaluateConfigMap(after.namespace, after.name);
      }
      if before.value.more != after.more {
        EvaluateConfigMap(after.namespace, after.name);
      }
      return false;
    }

    /** Takes one key apart and evaluates it; fails tells which evaluations return an error. */
    method EvaluateKey(key: string, fails: string -> bool) returns (err: bool)
      ensures err == Returns(key, fails)
      ensures err <==> Dispatched(key) == Malformed || (Dispatched(key).Evaluate? && fails(key))
    {
      var parts := Split(key, ":");
      if |parts| != 2 {
        return false;
      }
      if '/' in parts[1] {
        return |Split(parts[1], "/")| != 2 || fails(key);
      }
      return fails(key);
    }

    /** One round: evaluate every key, in any order, and queue the failures again. */
    method Round(fails: string -> bool)
      modifies this
      ensures jobs.Keys == Requeued(old(jobs).Keys, fails)
    {
      var pending := jobs.Keys;
      jobs := map[];
      var failed: set<string> := {};
      while pending != {}
        invariant pending <= old(jobs).Keys && jobs == map[]
        invariant forall key :: key in failed <==> key in old(jobs).Keys && key !in pending && Returns(key, fails)
      {
        var key :| key in pending;
        var err := EvaluateKey(key, fails);
        if err {
          failed := failed + {key};
        }
        pending := pending - {key};
      }
      Requeue(failed);
      assert jobs.Keys == Requeued(old(jobs).Keys, fails);
    }

    method Requeue(failed: set<string>)
      modifies this
      ensures jobs.Keys == old(jobs).Keys + set key | key in failed :: "Reloader:" + key
    {
      var pending := failed;
      while pending != {}
        invariant pending <= failed
        invariant jobs.Keys == old(jobs).Keys + set key | key in failed && key !in pending :: "Reloader:" + key
      {
        var key :| key in pending;
        EvaluateReloader(key);
        pending := pending - {key};
      }
    }
  }
}
