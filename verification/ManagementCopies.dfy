/**
 * The copies of reports in the management cluster: sending creates the copy or updates some of its fields. Over any
 * run in which only this agent writes them, what the copies say is what the local reports said when last sent.
 */
module ManagementCopies {
  import opened Prelude

  /** The managed cluster a report comes from. */
  datatype Cluster = Cluster(namespace: string, name: string, kind: string)

  /** The Spec of a ClassifierReport or HealthCheckReport; payload is Match or ResourceStatuses. */
  datatype Spec<P> = Spec(cluster: Cluster, source: string, payload: P)

  datatype Event<P> =
    | Evaluated(payload: P)
    | Cleaned
    | Sent(reachable: bool)
    | CopyRemoved

  datatype System<P> = System(here: Cluster, source: string, local: Option<Spec<P>>, copy: Option<Spec<P>>)

  const NOWHERE := Cluster("", "", "")

  /** The copy as sending leaves it: created as a whole, or with the cluster kind and the payload written over. */
  function SentCopy<P>(here: Cluster, local: Spec<P>, copy: Option<Spec<P>>): Spec<P> {
    match copy
    case None => local.(cluster := here)
    case Some(current) => current.(cluster := current.cluster.(kind := here.kind), payload := local.payload)
  }

  predicate SendSucceeds<P>(s: System<P>, e: Event<P>) {
    e.Sent? && e.reachable && s.local.Some?
  }

  function Next<P>(s: System<P>, e: Event<P>): System<P> {
    match e
    case Evaluated(payload) =>
      s.(local := Some(if s.local.Some? then s.local.value.(payload := payload) else Spec(NOWHERE, s.source, payload)))
    case Cleaned => s.(local := None)
    case Sent(reachable) =>
      if SendSucceeds(s, e) then s.(copy := Some(SentCopy(s.here, s.local.value, s.copy))) else s
    case CopyRemoved => s.(copy := None)
  }

  function Exec<P>(here: Cluster, source: string, run: seq<Event<P>>): System<P> {
    if run == [] then System(here, source, None, None)
    else Next(Exec(here, source, run[..|run| - 1]), run[|run| - 1])
  }

  /** What the local report must say: the result of the last evaluation since it was last cleaned. */
  function LastEvaluated<P>(run: seq<Event<P>>): Option<P> {
    if run == [] then None
    else
      match run[|run| - 1]
      case Evaluated(payload) => Some(payload)
      case Cleaned => None
      case _ => LastEvaluated(run[..|run| - 1])
  }

  /** What the copy must say: what was evaluated before the last send that had something to send, and succeeded. */
  function LastSent<P>(run: seq<Event<P>>): Option<P> {
    if run == [] then None
    else
      var before, e := run[..|run| - 1], run[|run| - 1];
      if e.CopyRemoved? then None
      else if e == Sent(true) && LastEvaluated(before).Some? then LastEvaluated(before)
      else LastSent(before)
  }

  lemma {:induction false} LocalIsLastEvaluated<P>(here: Cluster, source: string, run: seq<Event<P>>)
    ensures var s := Exec(here, source, run);
            && s.here == here && s.source == source
            && s.local == match LastEvaluated(run)
                          case None => None
                          case Some(payload) => Some(Spec(Cluster("", "", ""), source, payload))
  {
    if run != [] {
      LocalIsLastEvaluated(here, source, run[..|run| - 1]);
    }
  }

  /** The copy always names this cluster and this source and carries what was last sent, on create and on update. */
  lemma {:induction false} CopyAgrees<P>(here: Cluster, source: string, run: seq<Event<P>>)
    ensures Exec(here, source, run).copy == match LastSent(run)
                                            case None => None
                                            case Some(payload) => Some(Spec(here, source, payload))
  {
    if run != [] {
      CopyAgrees(here, source, run[..|run| - 1]);
      LocalIsLastEvaluated(here, source, run[..|run| - 1]);
    }
  }

  /** Whoever wrote it before: a send makes the copy agree exactly when it creates it, or it is the copy of this source here. */
  lemma SendAgreesExactly<P>(here: Cluster, local: Spec<P>, copy: Option<Spec<P>>)
    ensures SentCopy(here, local, copy) == local.(cluster := here) <==>
            copy.Some? ==>
              && copy.value.source == local.source
              && copy.value.cluster.namespace == here.namespace && copy.value.cluster.name == here.name
  {
    if copy.Some? {
      var sent := SentCopy(here, local, copy);
      assert sent.payload == local.payload && sent.source == copy.value.source;
      assert sent.cluster == Cluster(copy.value.cluster.namespace, copy.value.cluster.name, here.kind);
    }
  }

  /** So right after a successful send the copy agrees with the local report. */
  lemma SendMakesAgree<P>(here: Cluster, source: string, run: seq<Event<P>>, e: Event<P>)
    requires SendSucceeds(Exec(here, source, run), e)
    ensures var s := Exec(here, source, run + [e]);
            s.local.Some? && s.copy == Some(s.local.value.(cluster := here))
  {
    assert (run + [e])[..|run|] == run;
    LocalIsLastEvaluated(here, source, run);
    CopyAgrees(here, source, run + [e]);
  }

  // ----- EventReports: updating copies less -----

  datatype EventSpec = EventSpec(cluster: Cluster, source: string, matching: seq<Ref>, resources: Option<string>, cloudEvents: seq<string>)

  /** The copy of an EventReport as sending leaves it, and whether the local report is then marked Processed. */
  function SentEventCopy(here: Cluster, local: EventSpec, copy: Option<EventSpec>): (EventSpec, bool) {
    match copy
    case None => (local.(cluster := here), false)
    case Some(current) => (current.(cluster := current.cluster.(kind := here.kind), matching := local.matching), true)
  }

  /**
   * A send makes the copy of an EventReport agree exactly when it creates the copy, or the copy already names this
   * cluster and source and holds the same collected resources and CloudEvents.
   */
  lemma EventCopyAgreesExactly(here: Cluster, local: EventSpec, copy: Option<EventSpec>)
    ensures SentEventCopy(here, local, copy).0 == local.(cluster := here) <==>
            copy.Some? ==>
              && copy.value.cluster.(kind := here.kind) == here && copy.value.source == local.source
              && copy.value.resources == local.resources && copy.value.cloudEvents == local.cloudEvents
  {
    if copy.Some? {
      var sent := SentEventCopy(here, local, copy).0;
      assert sent == local.(cluster := here) <==>
        sent.cluster == here && sent.source == local.source && sent.resources == local.resources
        && sent.cloudEvents == local.cloudEvents;
    }
  }

  /** The copy after sending one local report after the other. */
  function SentInTurn(here: Cluster, locals: seq<EventSpec>, copy: Option<EventSpec>): Option<EventSpec> {
    if locals == [] then copy
    else Some(SentEventCopy(here, locals[|locals| - 1], SentInTurn(here, locals[..|locals| - 1], copy)).0)
  }

  /** However often a report is sent, the copy keeps the CloudEvents it was created with: later ones stay local. */
  lemma {:induction false} LaterCloudEventsStayLocal(here: Cluster, locals: seq<EventSpec>, copy: Option<EventSpec>)
    requires locals != [] || copy.Some?
    ensures var first := if copy.Some? then copy.value else locals[0];
            var last := SentInTurn(here, locals, copy);
            && last.Some? && last.value.cloudEvents == first.cloudEvents && last.value.resources == first.resources
            && (locals != [] ==> last.value.matching == locals[|locals| - 1].matching)
  {
    if |locals| > 1 || (locals != [] && copy.Some?) {
      LaterCloudEventsStayLocal(here, locals[..|locals| - 1], copy);
    } else if locals != [] {
      assert SentInTurn(here, locals[..0], copy) == None;
    }
  }

  /**
   * Every send but one that creates the copy marks the local report Processed; so the mark means that the CloudEvents
   * were delivered if and only if they are still those the copy was created with.
   */
  lemma ProcessedMeansDeliveredExactly(here: Cluster, locals: seq<EventSpec>, copy: Option<EventSpec>)
    requires locals != []
    ensures var local := locals[|locals| - 1];
            var (sent, marked) := SentEventCopy(here, local, SentInTurn(here, locals[..|locals| - 1], copy));
            && (marked <==> copy.Some? || |locals| > 1)
            && (marked ==>
                  var first := if copy.Some? then copy.value else locals[0];
                  (sent.cloudEvents == local.cloudEvents <==> first.cloudEvents == local.cloudEvents)
                  && (sent.resources == local.resources <==> first.resources == local.resources))
            && (!marked ==> sent == local.(cluster := here))
  {
    var before := locals[..|locals| - 1];
    if copy.Some? || |locals| > 1 {
      LaterCloudEventsStayLocal(here, before, copy);
    } else {
      assert before == [];
    }
  }
}
