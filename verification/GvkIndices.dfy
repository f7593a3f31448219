/**
 * The controllers' indices from resource kind to the sources that name it, and the lists of kinds the manager builds
 * from all sources. The Reloader controller keeps its index exact; the other three only add until a deletion.
 */
module GvkIndices {
  import opened Prelude
  import opened WatchSet
  import WorkQueues

  // ----- the index -----

  /** What the controllers do to an index: a live source was reconciled, or its deletion was. */
  datatype Event = Reconciled(source: Ref, gvks: set<Gvk>) | Deleted(source: Ref)

  type IndexMap = map<Gvk, set<Ref>>

  ghost predicate Inserted(before: IndexMap, after: IndexMap, source: Ref, gvks: set<Gvk>) {
    forall g :: At(after, g) == At(before, g) + (if g in gvks then {source} else {})
  }

  ghost predicate Erased(before: IndexMap, after: IndexMap, source: Ref, kept: set<Gvk>) {
    forall g :: At(after, g) == At(before, g) - (if g in kept then {} else {source})
  }

  class GvkIndex {
    var index: IndexMap
    /** The events handled so far; exact tells whether updates also erase, as in the Reloader controller. */
    ghost var history: seq<Event>
    const exact: bool

    /** Every lookup gives what the events say. */
    ghost predicate Valid()
      reads this
    {
      forall g, source ::
        source in At(index, g) <==> g in (if exact then LastNamed(history, source) else EverNamed(history, source))
    }

    constructor (exact: bool)
      ensures Valid() && history == [] && this.exact == exact
    {
      this.exact := exact;
      index, history := map[], [];
    }

    /** Inserts source under every listed kind. */
    method Insert(source: Ref, gvks: seq<Gvk>)
      modifies this`index
      ensures Inserted(old(index), index, source, ToSet(gvks))
    {
      for i := 0 to |gvks|
        invariant Inserted(old(index), index, source, ToSet(gvks[..i]))
      {
        assert gvks[..i + 1] == gvks[..i] + [gvks[i]];
        if gvks[i] !in index {
          index := index[gvks[i] := {}];
        }
        index := index[gvks[i] := index[gvks[i]] + {source}];
      }
      assert gvks[..|gvks|] == gvks;
    }

    /** Erases source from every kind of the index that is not kept, in any order. */
    method Erase(source: Ref, kept: set<Gvk>)
      modifies this`index
      ensures Erased(old(index), index, source, kept) && index.Keys == old(index).Keys
    {
      var pending := index.Keys;
      while pending != {}
        invariant pending <= index.Keys == old(index).Keys
        invariant forall g :: At(index, g) == At(old(index), g) - (if g in kept || g in pending then {} else {source})
      {
        var g :| g in pending;
        if g !in kept {
          index := index[g := index[g] - {source}];
        }
        pending := pending - {g};
      }
    }

    method UpdateMaps(source: Ref, gvks: seq<Gvk>)
      requires Valid()
      modifies this
      ensures Valid() && history == old(history) + [Reconciled(source, ToSet(gvks))]
    {
      if exact {
        Erase(source, ToSet(gvks));
      }
      Insert(source, gvks);
      forall other {
        NamedAfter(history, Reconciled(source, ToSet(gvks)), other);
      }
      history := history + [Reconciled(source, ToSet(gvks))];
    }

    /** The Reloader controller's updateMaps: a Reloader is indexed under the kinds of the workloads it names. */
    method UpdateReloader(source: Ref, workloads: seq<string>)
      requires Valid() && exact
      modifies this
      ensures Valid()
      ensures forall g :: source in At(index, g) <==> g.group == "apps" && g.version == "v1" && g.kind in workloads
      ensures forall g, other | other != source :: other in At(index, g) <==> other in At(old(index), g)
    {
      var gvks: seq<Gvk> := [];
      for i := 0 to |workloads|
        invariant |gvks| == i && forall j | 0 <= j < i :: gvks[j] == ReloaderIndexKind(workloads[j])
      {
        gvks := gvks + [ReloaderIndexKind(workloads[i])];
      }
      ghost var before, indexed := history, index;
      UpdateMaps(source, gvks);
      forall g ensures source in At(index, g) <==> g.group == "apps" && g.version == "v1" && g.kind in workloads {
        NamedAfter(before, Reconciled(source, ToSet(gvks)), source);
        assert source in At(index, g) <==> g in gvks;
        if g.group == "apps" && g.version == "v1" && g.kind in workloads {
          var i :| 0 <= i < |workloads| && workloads[i] == g.kind;
          assert gvks[i] == g;
        }
      }
      forall g, other | other != source ensures other in At(index, g) <==> other in At(indexed, g) {
        NamedAfter(before, Reconciled(source, ToSet(gvks)), other);
        assert other in At(indexed, g) <==> g in LastNamed(before, other);
      }
    }

    method CleanMaps(source: Ref)
      requires Valid()
      modifies this
      ensures Valid() && history == old(history) + [Deleted(source)]
    {
      Erase(source, {});
      forall other {
        NamedAfter(history, Deleted(source), other);
      }
      history := history + [Deleted(source)];
    }

    /** A resource of kind g changed: every source indexed under it is queued. */
    method React(g: Gvk, queue: WorkQueues.JobQueue)
      requires Valid()
      modifies queue
      ensures queue.jobs.Keys == old(queue.jobs).Keys + (set source | source in At(index, g) :: source.name)
      ensures forall source :: g in LastNamed(history, source) ==> source.name in queue.jobs
      ensures forall name <- queue.jobs.Keys - old(queue.jobs).Keys ::
                exists source: Ref :: source.name == name && g in EverNamed(history, source) && !DeletedLast(history, source)
    {
      forall source {
        AddingFindsAllLive(history, source);
      }
      if g in index {
        var pending := index[g];
        while pending != {}
          invariant pending <= index[g]
          invariant queue.jobs.Keys ==
                    old(queue.jobs).Keys + (set source | source in index[g] && source !in pending :: source.name)
        {
          var source :| source in pending;
          queue.Enqueue(source.name);
          pending := pending - {source};
        }
      }
    }
  }

  // ----- what the events say -----

  /** The kinds the last reconciled spec of the source names; none once its deletion was reconciled. */
  function LastNamed(run: seq<Event>, source: Ref): set<Gvk> {
    if run == [] then {}
    else
      var e := run[|run| - 1];
      if e.source != source then LastNamed(run[..|run| - 1], source)
      else if e.Reconciled? then e.gvks
      else {}
  }

  /** All kinds named by any spec of the source reconciled since its last deletion. */
  function EverNamed(run: seq<Event>, source: Ref): set<Gvk> {
    if run == [] then {}
    else
      var e, before := run[|run| - 1], EverNamed(run[..|run| - 1], source);
      if e.source != source then before
      else if e.Reconciled? then before + e.gvks
      else {}
  }

  lemma NamedAfter(run: seq<Event>, e: Event, source: Ref)
    ensures LastNamed(run + [e], source) ==
            if e.source != source then LastNamed(run, source) else if e.Reconciled? then e.gvks else {}
    ensures EverNamed(run + [e], source) ==
            if e.source != source then EverNamed(run, source) else if e.Reconciled? then EverNamed(run, source) + e.gvks else {}
  {
    assert (run + [e])[..|run|] == run;
  }

  ghost predicate DeletedLast(run: seq<Event>, source: Ref) {
    run != [] && if run[|run| - 1].source == source then run[|run| - 1].Deleted? else DeletedLast(run[..|run| - 1], source)
  }

  /**
   * An index that only adds still finds every source whose last reconciled spec names the kind, and none whose
   * deletion was reconciled last; it differs from the exact index exactly by kinds of earlier specs.
   */
  lemma {:induction false} AddingFindsAllLive(run: seq<Event>, source: Ref)
    ensures LastNamed(run, source) <= EverNamed(run, source)
    ensures DeletedLast(run, source) ==> EverNamed(run, source) == {}
  {
    if run != [] {
      AddingFindsAllLive(run[..|run| - 1], source);
    }
  }

  /** Reconciling a spec makes the index that only adds exact for the source if and only if no earlier kind is dropped. */
  lemma AddingIsExactExactly(run: seq<Event>, source: Ref, gvks: set<Gvk>)
    ensures var run' := run + [Reconciled(source, gvks)];
            EverNamed(run', source) == LastNamed(run', source) <==> EverNamed(run, source) <= gvks
  {
    NamedAfter(run, Reconciled(source, gvks), source);
  }

  // ----- the lists of kinds to watch -----

  /** A source as listed: whether it is being deleted and the resource kinds its selectors name, in order. */
  datatype Instance = Instance(deleting: bool, gvks: seq<Gvk>)

  function KindsOf(items: seq<Instance>): set<Gvk> {
    set i, g | 0 <= i < |items| && !items[i].deleting && g in items[i].gvks :: g
  }

  /** buildListForClassifiers and its three siblings: exactly the kinds that undeleted instances name. */
  method BuildListFor(listing: Listing<Instance>) returns (gvks: Option<set<Gvk>>)
    ensures gvks == match listing
                    case Listed(items) => Some(KindsOf(items))
                    case NoSuchKind => Some({})
                    case ListError => None
    ensures gvks.Some? ==> forall g :: g in gvks.value <==> Names(listing, g)
  {
    match listing
    case ListError => return None;
    case NoSuchKind => return Some({});
    case Listed(items) =>
      var resources: set<Gvk> := {};
      for i := 0 to |items|
        invariant resources == KindsOf(items[..i])
      {
        assert items[..i + 1] == items[..i] + [items[i]];
        KindsOfOneMore(items[..i], items[i]);
        if items[i].deleting {
          continue;
        }
        ghost var before := resources;
        for j := 0 to |items[i].gvks|
          invariant resources == before + ToSet(items[i].gvks[..j])
        {
          assert items[i].gvks[..j + 1] == items[i].gvks[..j] + [items[i].gvks[j]];
          resources := resources + {items[i].gvks[j]};
        }
        assert items[i].gvks[..|items[i].gvks|] == items[i].gvks;
      }
      assert items[..|items|] == items;
      return Some(resources);
  }

  lemma KindsOfOneMore(items: seq<Instance>, item: Instance)
    ensures KindsOf(items + [item]) == KindsOf(items) + (if item.deleting then {} else ToSet(item.gvks))
  {
    var all := items + [item];
    forall g ensures g in KindsOf(all) <==> g in KindsOf(items) || (!item.deleting && g in item.gvks) {
      if g in KindsOf(items) {
        var i :| 0 <= i < |items| && !items[i].deleting && g in items[i].gvks;
        assert all[i] == items[i];
      }
      if !item.deleting && g in item.gvks {
        assert all[|items|] == item;
      }
    }
  }

  // ----- Reloaders -----

  /** A Reloader as listed, with the kinds of the workloads it names. */
  datatype Reloader = Reloader(deleting: bool, workloads: seq<string>)

  /** The key a Reloader of workload kind is indexed under. */
  function ReloaderIndexKind(kind: string): Gvk {
    Gvk("apps", "v1", kind)
  }

  /** The kind addGVKsForReloader asks to watch for it: the group stands in the place of the version. */
  function ReloaderWatchKind(kind: string): Gvk {
    Gvk("apps", "apps", kind)
  }

  function WatchKinds(workloads: seq<string>): (gvks: seq<Gvk>)
    ensures |gvks| == |workloads| && forall i | 0 <= i < |gvks| :: gvks[i] == ReloaderWatchKind(workloads[i])
  {
    seq(|workloads|, i requires 0 <= i < |workloads| => ReloaderWatchKind(workloads[i]))
  }

  /** The listed Reloaders, with the kinds addGVKsForReloader adds for each. */
  function Watching(reloaders: Listing<Reloader>): Listing<Instance> {
    match reloaders
    case Listed(items) =>
      Listed(seq(|items|, i requires 0 <= i < |items| => Instance(items[i].deleting, WatchKinds(items[i].workloads))))
    case NoSuchKind => NoSuchKind
    case ListError => ListError
  }

  // ----- the whole list -----

  ghost predicate Names(listing: Listing<Instance>, g: Gvk) {
    listing.Listed? && exists i | 0 <= i < |listing.items| :: !listing.items[i].deleting && g in listing.items[i].gvks
  }

  /** The kinds that undeleted sources of any sort name, and Secrets. */
  ghost predicate IsBuilt(gvks: set<Gvk>, classifiers: Listing<Instance>, healthChecks: Listing<Instance>,
                          eventSources: Listing<Instance>, reloaders: Listing<Reloader>) {
    forall g :: g in gvks <==>
                  || g == SECRET_GVK || Names(classifiers, g) || Names(healthChecks, g) || Names(eventSources, g)
                  || Names(Watching(reloaders), g)
  }

  /** buildList: nothing if a listing fails. */
  method BuildList(classifiers: Listing<Instance>, healthChecks: Listing<Instance>, eventSources: Listing<Instance>,
                   reloaders: Listing<Reloader>) returns (gvks: Option<set<Gvk>>)
    ensures gvks.None? <==>
            classifiers.ListError? || healthChecks.ListError? || eventSources.ListError? || reloaders.ListError?
    ensures gvks.Some? ==> IsBuilt(gvks.value, classifiers, healthChecks, eventSources, reloaders)
  {
    var resources := BuildListFor(classifiers);
    if resources.None? {
      return None;
    }
    var more := BuildListFor(healthChecks);
    if more.None? {
      return None;
    }
    var result := resources.value + more.value;
    more := BuildListFor(eventSources);
    if more.None? {
      return None;
    }
    result := result + more.value;
    more := BuildListFor(Watching(reloaders));
    if more.None? {
      return None;
    }
    return Some(result + more.value + {SECRET_GVK});
  }

  /**
   * Whatever the Reloaders name, the kind a Reloader is indexed under is watched if and only if a Classifier, a
   * HealthCheck or an EventSource names it; what a Reloader adds is a kind no Reloader is indexed under.
   */
  lemma ReloaderKindsWatchedExactly(gvks: set<Gvk>, classifiers: Listing<Instance>, healthChecks: Listing<Instance>,
                                    eventSources: Listing<Instance>, reloaders: Listing<Reloader>, kind: string)
    requires IsBuilt(gvks, classifiers, healthChecks, eventSources, reloaders)
    ensures var g := Gvk("apps", "v1", kind);
            g in gvks <==> Names(classifiers, g) || Names(healthChecks, g) || Names(eventSources, g)
    ensures var g := Gvk("apps", "apps", kind);
            g in gvks <==>
            || Names(classifiers, g) || Names(healthChecks, g) || Names(eventSources, g)
            || (reloaders.Listed? && exists i | 0 <= i < |reloaders.items| ::
                  !reloaders.items[i].deleting && kind in reloaders.items[i].workloads)
  {
    assert "apps"[0] != "v1"[0];
    assert !Names(Watching(reloaders), ReloaderIndexKind(kind));
    if reloaders.Listed? {
      var items := Watching(reloaders).items;
      forall i | 0 <= i < |items|
        ensures ReloaderWatchKind(kind) in items[i].gvks <==> kind in reloaders.items[i].workloads
      {
        WatchesExactly(reloaders.items[i].workloads, kind);
      }
    }
  }

  lemma WatchesExactly(workloads: seq<string>, kind: string)
    ensures ReloaderWatchKind(kind) in WatchKinds(workloads) <==> kind in workloads
  {
    if i :| 0 <= i < |workloads| && workloads[i] == kind {
      assert WatchKinds(workloads)[i] == ReloaderWatchKind(kind);
    }
  }
}
