/** A repair replayed across two independent systems: PostgreSQL holds the request, its audit trail and the
    projected ledger, Kafka the event log. Executors, reconcilers, the broker and the projection interleave
    freely, and an executor or reconciler may crash between any two steps. */
module ReplayRequest {
  datatype Event = Event(topic: string, producerRunId: string, eventId: string)

  datatype State = Publishing | Published | Failed

  datatype Request = Request(event: Event, state: State)

  datatype AuditType = RequestedEntry | PublishedEntry | FailedEntry | ReconciledEntry

  type Audit = seq<(string, AuditType)>

  /** The two systems: requests and audit trail, the Kafka log, and the log positions projected so far (the
      ledger has one row for each position). */
  datatype Systems = Systems(requests: map<string, Request>, audit: Audit, kafka: seq<Event>, ledger: set<nat>)

  // ---- transactions -----------------------------------------------------------------------------

  predicate CanCreate(s: Systems, id: string, e: Event) {
    id !in s.requests && forall other :: other in s.requests ==>
      s.requests[other].event.producerRunId != e.producerRunId
  }

  /** INSERT of the request and of its first audit entry in one transaction. */
  function CreateRequest(s: Systems, id: string, e: Event): Systems {
    if !CanCreate(s, id, e) then s
    else s.(requests := s.requests[id := Request(e, Publishing)], audit := s.audit + [(id, RequestedEntry)])
  }

  predicate CanComplete(s: Systems, id: string) {
    id in s.requests && s.requests[id].state == Publishing
  }

  /** The guarded UPDATE and the audit entry; nothing happens when no row is in the publishing state. */
  function CompleteRequest(s: Systems, id: string, state: State, entry: AuditType): Systems {
    if !CanComplete(s, id) then s
    else s.(requests := s.requests[id := s.requests[id].(state := state)], audit := s.audit + [(id, entry)])
  }

  function Deliveries(s: Systems, e: Event): set<nat> {
    set o | o in s.ledger && o < |s.kafka| && s.kafka[o].topic == e.topic && s.kafka[o].producerRunId == e.producerRunId
  }

  function Matching(s: Systems, e: Event): set<nat> {
    set o | o in Deliveries(s, e) && s.kafka[o].eventId == e.eventId
  }

  /** Exactly one delivery under the request's run id, and it is the corrected event. */
  predicate ProvenOnce(s: Systems, e: Event) {
    |Deliveries(s, e)| == 1 && |Matching(s, e)| == 1
  }

  // ---- the interleaving -------------------------------------------------------------------------

  datatype Executor = Sending | Acknowledged | PublishFailed

  datatype Reconciler = Looked(id: string) | Verified(id: string)

  datatype World = World(systems: Systems, executors: map<string, Executor>, reconcilers: map<nat, Reconciler>)

  datatype Step =
    | Create(id: string, event: Event)
    | Deliver(id: string)          // the broker stores one more copy, perhaps after the sender gave up
    | PublishReturns(id: string)   // only after a copy is stored
    | PublishRaises(id: string)
    | Finish(id: string)
    | CrashExecutor(id: string)
    | OtherEvent(event: Event)
    | Project(offset: nat)
    | Look(session: nat, id: string)
    | CountLedger(session: nat)
    | Complete(session: nat)
    | CrashReconciler(session: nat)

  /** One atomic step; a step that is not possible changes nothing. */
  function Next(w: World, step: Step): World {
    var s := w.systems;
    match step
    case Create(id, e) =>
      if CanCreate(s, id, e) then w.(systems := CreateRequest(s, id, e), executors := w.executors[id := Sending]) else w
    case Deliver(id) =>
      if id in s.requests then w.(systems := s.(kafka := s.kafka + [s.requests[id].event])) else w
    case PublishReturns(id) =>
      if id in w.executors && w.executors[id] == Sending && id in s.requests && s.requests[id].event in s.kafka
      then w.(executors := w.executors[id := Acknowledged]) else w
    case PublishRaises(id) =>
      if id in w.executors && w.executors[id] == Sending then w.(executors := w.executors[id := PublishFailed]) else w
    case Finish(id) =>
      if id !in w.executors || w.executors[id] == Sending then w
      else
        var done := if w.executors[id] == Acknowledged
                    then CompleteRequest(s, id, Published, PublishedEntry)
                    else CompleteRequest(s, id, Failed, FailedEntry);
        w.(systems := done, executors := w.executors - {id})
    case CrashExecutor(id) => w.(executors := w.executors - {id})
    case OtherEvent(e) => w.(systems := s.(kafka := s.kafka + [e]))
    case Project(offset) =>
      if offset < |s.kafka| then w.(systems := s.(ledger := s.ledger + {offset})) else w
    case Look(session, id) =>
      if session !in w.reconcilers && CanComplete(s, id)
      then w.(reconcilers := w.reconcilers[session := Looked(id)]) else w
    case CountLedger(session) =>
      if session !in w.reconcilers || !w.reconcilers[session].Looked? then w
      else
        var id := w.reconcilers[session].id;
        if id in s.requests && ProvenOnce(s, s.requests[id].event)
        then w.(reconcilers := w.reconcilers[session := Verified(id)]) else w.(reconcilers := w.reconcilers - {session})
    case Complete(session) =>
      if session !in w.reconcilers || !w.reconcilers[session].Verified? then w
      else w.(systems := CompleteRequest(s, w.reconcilers[session].id, Published, ReconciledEntry),
              reconcilers := w.reconcilers - {session})
    case CrashReconciler(session) => w.(reconcilers := w.reconcilers - {session})
  }

  function Start(): World {
    World(Systems(map[], [], [], {}), map[], map[])
  }

  function Run(w: World, steps: seq<Step>): World {
    if steps == [] then w else Next(Run(w, steps[..|steps| - 1]), steps[|steps| - 1])
  }

  // ---- what every step keeps --------------------------------------------------------------------

  /** The audit entries of one request, in order. */
  function Trail(audit: Audit, id: string): seq<AuditType> {
    if audit == [] then []
    else
      var last := audit[|audit| - 1];
      Trail(audit[..|audit| - 1], id) + if last.0 == id then [last.1] else []
  }

  lemma TrailSnoc(audit: Audit, id: string, entry: AuditType, other: string)
    ensures Trail(audit + [(id, entry)], other) == Trail(audit, other) + if id == other then [entry] else []
  {
    assert (audit + [(id, entry)])[..|audit|] == audit;
  }

  /** One 'requested', and one completion exactly when the request is no longer publishing. */
  predicate Tells(trail: seq<AuditType>, state: State) {
    match state
    case Publishing => trail == [RequestedEntry]
    case Published => trail == [RequestedEntry, PublishedEntry] || trail == [RequestedEntry, ReconciledEntry]
    case Failed => trail == [RequestedEntry, FailedEntry]
  }

  ghost predicate Audited(s: Systems) {
    && (forall id :: id in s.requests ==> Tells(Trail(s.audit, id), s.requests[id].state))
    && (forall id :: id !in s.requests ==> Trail(s.audit, id) == [])
  }

  /** Whoever may still publish the request's completion has its event in the Kafka log behind it. */
  ghost predicate Backed(w: World) {
    && (forall id :: id in w.systems.requests && w.systems.requests[id].state == Published ==>
          w.systems.requests[id].event in w.systems.kafka)
    && (forall id :: id in w.executors ==> id in w.systems.requests)
    && (forall id :: id in w.executors && w.executors[id] == Acknowledged ==>
          w.systems.requests[id].event in w.systems.kafka)
    && (forall r :: r in w.reconcilers ==> w.reconcilers[r].id in w.systems.requests)
    && (forall r :: r in w.reconcilers && w.reconcilers[r].Verified? ==>
          w.systems.requests[w.reconcilers[r].id].event in w.systems.kafka)
  }

  ghost predicate Inv(w: World) {
    Audited(w.systems) && Backed(w)
  }

  lemma CreateAudited(s: Systems, id: string, e: Event)
    requires Audited(s)
    ensures Audited(CreateRequest(s, id, e))
  {
    forall other
      ensures Trail(s.audit + [(id, RequestedEntry)], other)
        == Trail(s.audit, other) + if id == other then [RequestedEntry] else []
    {
      TrailSnoc(s.audit, id, RequestedEntry, other);
    }
    hide Trail;
  }

  lemma CompleteAudited(s: Systems, id: string, state: State, entry: AuditType)
    requires Audited(s)
    requires (state == Published && (entry == PublishedEntry || entry == ReconciledEntry))
      || (state == Failed && entry == FailedEntry)
    ensures Audited(CompleteRequest(s, id, state, entry))
  {
    forall other
      ensures Trail(s.audit + [(id, entry)], other) == Trail(s.audit, other) + if id == other then [entry] else []
    {
      TrailSnoc(s.audit, id, entry, other);
    }
    hide Trail;
  }

  lemma ProvenIsStored(s: Systems, e: Event)
    requires ProvenOnce(s, e)
    ensures e in s.kafka
  {
    var o :| o in Matching(s, e);
    assert s.kafka[o] == e;
  }

  lemma NextAudited(w: World, step: Step)
    requires Audited(w.systems)
    ensures Audited(Next(w, step).systems)
  {
    hide Trail;
    match step
    case Create(id, e) => CreateAudited(w.systems, id, e);
    case Finish(id) =>
      CompleteAudited(w.systems, id, Published, PublishedEntry);
      CompleteAudited(w.systems, id, Failed, FailedEntry);
    case Complete(session) =>
      if session in w.reconcilers {
        CompleteAudited(w.systems, w.reconcilers[session].id, Published, ReconciledEntry);
      }
    case _ =>
  }

  lemma FinishBacked(w: World, id: string)
    requires Backed(w)
    ensures Backed(Next(w, Finish(id)))
  {
  }

  lemma CompleteBacked(w: World, session: nat)
    requires Backed(w)
    ensures Backed(Next(w, Complete(session)))
  {
  }

  lemma CreateBacked(w: World, id: string, e: Event)
    requires Backed(w)
    ensures Backed(Next(w, Create(id, e)))
  {
  }

  lemma CountBacked(w: World, session: nat)
    requires Backed(w)
    ensures Backed(Next(w, CountLedger(session)))
  {
    hide ProvenOnce;
    if session in w.reconcilers && w.reconcilers[session].id in w.systems.requests {
      var e := w.systems.requests[w.reconcilers[session].id].event;
      if ProvenOnce(w.systems, e) {
        ProvenIsStored(w.systems, e);
      }
    }
  }

  lemma NextBacked(w: World, step: Step)
    requires Backed(w)
    ensures Backed(Next(w, step))
  {
    match step
    case Create(id, e) => CreateBacked(w, id, e);
    case Finish(id) => FinishBacked(w, id);
    case Complete(session) => CompleteBacked(w, session);
    case CountLedger(session) => CountBacked(w, session);
    case _ =>
    hide CreateRequest;
    hide CompleteRequest;
    hide ProvenOnce;
  }

  lemma {:induction false} RunKeeps(steps: seq<Step>)
    ensures Inv(Run(Start(), steps))
    decreases |steps|
  {
    if steps != [] {
      var before := Run(Start(), steps[..|steps| - 1]);
      RunKeeps(steps[..|steps| - 1]);
      NextAudited(before, steps[|steps| - 1]);
      NextBacked(before, steps[|steps| - 1]);
    }
  }

  // ---- the guarantees ---------------------------------------------------------------------------

  /** After any interleaving, a request's trail is one 'requested' followed by at most one completion, which is
      there exactly when the request is published or failed and says which. */
  lemma TrailTellsTheState(steps: seq<Step>, id: string)
    requires id in Run(Start(), steps).systems.requests
    ensures var s := Run(Start(), steps).systems;
      Tells(Trail(s.audit, id), s.requests[id].state)
  {
    RunKeeps(steps);
  }

  /** A published request has its corrected event in the Kafka log. */
  lemma PublishedIsDelivered(steps: seq<Step>, id: string)
    requires id in Run(Start(), steps).systems.requests
    requires Run(Start(), steps).systems.requests[id].state == Published
    ensures Run(Start(), steps).systems.requests[id].event in Run(Start(), steps).systems.kafka
  {
    RunKeeps(steps);
  }

  /** Completed requests stay as they are; a request keeps its event; the Kafka log, the ledger and the audit
      trail only grow. */
  ghost predicate Forward(a: Systems, b: Systems) {
    && (forall id :: id in a.requests ==> id in b.requests && b.requests[id].event == a.requests[id].event)
    && (forall id :: id in a.requests && a.requests[id].state != Publishing ==> b.requests[id] == a.requests[id])
    && a.kafka <= b.kafka && a.ledger <= b.ledger && a.audit <= b.audit
  }

  lemma TransactionsForward(s: Systems, id: string, e: Event, state: State, entry: AuditType)
    ensures Forward(s, s)
    ensures Forward(s, CreateRequest(s, id, e))
    ensures Forward(s, CompleteRequest(s, id, state, entry))
  {
  }

  lemma NextForward(w: World, step: Step)
    ensures Forward(w.systems, Next(w, step).systems)
  {
    var s := w.systems;
    match step
    case Create(id, e) => TransactionsForward(s, id, e, Failed, FailedEntry);
    case Finish(id) =>
      TransactionsForward(s, id, Event("", "", ""), Published, PublishedEntry);
      TransactionsForward(s, id, Event("", "", ""), Failed, FailedEntry);
    case Complete(session) =>
      if session in w.reconcilers {
        TransactionsForward(s, w.reconcilers[session].id, Event("", "", ""), Published, ReconciledEntry);
      }
    case _ =>
    hide CreateRequest;
    hide CompleteRequest;
    hide CanCreate;
    hide ProvenOnce;
  }

  /** A request leaves the publishing state at most once, and never leaves the published or failed state. */
  lemma {:induction false} RunForward(w: World, steps: seq<Step>)
    ensures Forward(w.systems, Run(w, steps).systems)
    decreases |steps|
  {
    if steps != [] {
      var front := steps[..|steps| - 1];
      RunForward(w, front);
      NextForward(Run(w, front), steps[|steps| - 1]);
      hide Next;
    }
  }

  /** The projection never runs ahead of the log. */
  lemma {:induction false} LedgerBehindLog(steps: seq<Step>, o: nat)
    requires o in Run(Start(), steps).systems.ledger
    ensures o < |Run(Start(), steps).systems.kafka|
    decreases |steps|
  {
    hide Next;
    if steps != [] {
      var front, step := steps[..|steps| - 1], steps[|steps| - 1];
      var before := Run(Start(), front);
      NextForward(before, step);
      LedgerStep(before, step);
      if o in before.systems.ledger {
        LedgerBehindLog(front, o);
      }
    }
  }

  lemma LedgerStep(w: World, step: Step)
    ensures forall o :: o in Next(w, step).systems.ledger && o !in w.systems.ledger ==>
      step == Project(o) && o < |w.systems.kafka|
  {
    hide ProvenOnce;
  }

  predicate Reconciles(step: Step) {
    step.Look? || step.CountLedger? || step.Complete? || step.CrashReconciler?
  }

  /** Reconciling never publishes: no reconciler step touches the Kafka log or the ledger, and the only one
      that touches a request moves it from publishing to published with a 'reconciled' entry. */
  lemma ReconcileNeverPublishes(w: World, step: Step)
    requires Reconciles(step)
    ensures var s, t := w.systems, Next(w, step).systems;
      && t.kafka == s.kafka && t.ledger == s.ledger && t.requests.Keys == s.requests.Keys
      && (forall id :: id in s.requests && t.requests[id] != s.requests[id] ==>
            s.requests[id].state == Publishing && t.requests[id].state == Published
            && t.audit == s.audit + [(id, ReconciledEntry)])
  {
  }

  // ---- what may still go wrong ------------------------------------------------------------------

  lemma LedgerGrows(a: Systems, b: Systems, e: Event)
    requires Forward(a, b)
    ensures Deliveries(a, e) <= Deliveries(b, e)
  {
  }

  lemma SetsGrow(a: set<nat>, b: set<nat>)
    requires a <= b
    ensures |a| <= |b|
  {
    assert b == a + (b - a);
  }

  /** Once two deliveries under its run id are projected, the ledger never again proves exactly one. */
  lemma TwiceDeliveredNeverProven(w: World, steps: seq<Step>, e: Event)
    requires |Deliveries(w.systems, e)| > 1
    ensures !ProvenOnce(Run(w, steps).systems, e)
  {
    RunForward(w, steps);
    LedgerGrows(w.systems, Run(w, steps).systems, e);
    SetsGrow(Deliveries(w.systems, e), Deliveries(Run(w, steps).systems, e));
  }

  predicate Verifying(w: World, id: string) {
    exists r :: r in w.reconcilers && w.reconcilers[r] == Verified(id)
  }

  lemma ReconciledStep(w: World, step: Step, id: string)
    requires id in w.systems.requests
    ensures var next := Next(w, step);
      && (ReconciledEntry in Trail(next.systems.audit, id) ==>
            ReconciledEntry in Trail(w.systems.audit, id) || Verifying(w, id))
      && (Verifying(next, id) ==> Verifying(w, id) || ProvenOnce(w.systems, w.systems.requests[id].event))
  {
    hide ProvenOnce;
    hide Trail;
    match step
    case Create(i, e) => TrailSnoc(w.systems.audit, i, RequestedEntry, id);
    case Finish(i) =>
      TrailSnoc(w.systems.audit, i, PublishedEntry, id);
      TrailSnoc(w.systems.audit, i, FailedEntry, id);
    case Complete(session) =>
      if session in w.reconcilers {
        TrailSnoc(w.systems.audit, w.reconcilers[session].id, ReconciledEntry, id);
      }
    case _ =>
  }

  /** After two projected deliveries, a request that no session has verified yet is never reconciled, whatever
      happens later. */
  lemma {:induction false} TwiceDeliveredNeverReconciles(w: World, steps: seq<Step>, id: string)
    requires id in w.systems.requests && |Deliveries(w.systems, w.systems.requests[id].event)| > 1
    requires !Verifying(w, id)
    ensures var after := Run(w, steps);
      && !Verifying(after, id)
      && (ReconciledEntry in Trail(after.systems.audit, id) ==> ReconciledEntry in Trail(w.systems.audit, id))
    decreases |steps|
  {
    if steps != [] {
      var front := steps[..|steps| - 1];
      TwiceDeliveredNeverReconciles(w, front, id);
      RunForward(w, front);
      TwiceDeliveredNeverProven(w, front, w.systems.requests[id].event);
      ReconciledStep(Run(w, front), steps[|steps| - 1], id);
      hide Next;
      hide ProvenOnce;
      hide Verifying;
      hide Trail;
    }
  }

  lemma CompletedStep(w: World, step: Step, id: string)
    requires id in w.systems.requests && !CanComplete(w.systems, id)
    ensures Trail(Next(w, step).systems.audit, id) == Trail(w.systems.audit, id)
  {
    hide ProvenOnce;
    hide Trail;
    match step
    case Create(i, e) => TrailSnoc(w.systems.audit, i, RequestedEntry, id);
    case Finish(i) =>
      TrailSnoc(w.systems.audit, i, PublishedEntry, id);
      TrailSnoc(w.systems.audit, i, FailedEntry, id);
    case Complete(session) =>
      if session in w.reconcilers {
        TrailSnoc(w.systems.audit, w.reconcilers[session].id, ReconciledEntry, id);
      }
    case _ =>
  }

  /** The trail of a request that left the publishing state never changes again. */
  lemma {:induction false} CompletedTrailStays(w: World, steps: seq<Step>, id: string)
    requires id in w.systems.requests && !CanComplete(w.systems, id)
    ensures Trail(Run(w, steps).systems.audit, id) == Trail(w.systems.audit, id)
    decreases |steps|
  {
    hide Next;
    hide Trail;
    if steps != [] {
      var front := steps[..|steps| - 1];
      CompletedTrailStays(w, front, id);
      RunForward(w, front);
      CompletedStep(Run(w, front), steps[|steps| - 1], id);
    }
  }

  lemma OneCompletionReconciles(w: World, session: nat, id: string)
    requires session in w.reconcilers && w.reconcilers[session] == Verified(id) && CanComplete(w.systems, id)
    ensures ReconciledEntry in Trail(Run(w, [Complete(session)]).systems.audit, id)
  {
    RunsOn(w, [], Complete(session));
    assert [] + [Complete(session)] == [Complete(session)];
    TrailSnoc(w.systems.audit, id, ReconciledEntry, id);
    hide Trail;
  }

  /** A request delivered twice can still be reconciled later if and only if it is publishing and some session
      verified it before. */
  lemma ReconcilableIffVerified(w: World, id: string)
    requires id in w.systems.requests && |Deliveries(w.systems, w.systems.requests[id].event)| > 1
    requires ReconciledEntry !in Trail(w.systems.audit, id)
    ensures (exists steps :: ReconciledEntry in Trail(Run(w, steps).systems.audit, id))
      <==> CanComplete(w.systems, id) && Verifying(w, id)
  {
    hide Trail;
    hide Run;
    if steps :| ReconciledEntry in Trail(Run(w, steps).systems.audit, id) {
      if !Verifying(w, id) {
        TwiceDeliveredNeverReconciles(w, steps, id);
      }
      if !CanComplete(w.systems, id) {
        CompletedTrailStays(w, steps, id);
      }
    }
    if CanComplete(w.systems, id) && Verifying(w, id) {
      var session :| session in w.reconcilers && w.reconcilers[session] == Verified(id);
      OneCompletionReconciles(w, session, id);
    }
  }

  /** At some moment of the run the ledger proved exactly one delivery for the request. */
  ghost predicate EverProven(steps: seq<Step>, id: string) {
    exists k :: 0 <= k <= |steps| && ProvenAt(steps, k, id)
  }

  predicate ProvenAt(steps: seq<Step>, k: nat, id: string)
    requires k <= |steps|
  {
    var s := Run(Start(), steps[..k]).systems;
    id in s.requests && ProvenOnce(s, s.requests[id].event)
  }

  lemma EverProvenStays(steps: seq<Step>, id: string)
    requires steps != [] && EverProven(steps[..|steps| - 1], id)
    ensures EverProven(steps, id)
  {
    var front := steps[..|steps| - 1];
    var k :| 0 <= k <= |front| && ProvenAt(front, k, id);
    assert steps[..k] == front[..k];
    assert ProvenAt(steps, k, id);
  }

  /** A request is reconciled, or verified by a session, only after such a moment. */
  lemma {:induction false} ReconciledWasProven(steps: seq<Step>, id: string)
    ensures var w := Run(Start(), steps);
      ReconciledEntry in Trail(w.systems.audit, id) || Verifying(w, id) ==> EverProven(steps, id)
    decreases |steps|
  {
    hide Next;
    hide Verifying;
    hide Trail;
    hide EverProven;
    hide Audited;
    hide Backed;
    if steps == [] {
      NothingReconciled(id);
    } else {
      var front, step := steps[..|steps| - 1], steps[|steps| - 1];
      var before, w := Run(Start(), front), Run(Start(), steps);
      ReconciledWasProven(front, id);
      RunKeeps(front);
      RunKeeps(steps);
      if ReconciledEntry in Trail(w.systems.audit, id) || Verifying(w, id) {
        if id in before.systems.requests {
          ReconciledStep(before, step, id);
        } else {
          NotYetReconciled(before, step, id);
        }
        if EverProven(front, id) {
          EverProvenStays(steps, id);
        } else {
          ProvenBeforeLast(steps, id);
        }
      }
    }
  }

  lemma NothingReconciled(id: string)
    ensures ReconciledEntry !in Trail(Start().systems.audit, id) && !Verifying(Start(), id)
  {
  }

  lemma ProvenBeforeLast(steps: seq<Step>, id: string)
    requires steps != [] && ProvenAt(steps, |steps| - 1, id)
    ensures EverProven(steps, id)
  {
  }

  lemma NotYetReconciled(w: World, step: Step, id: string)
    requires Inv(w) && id !in w.systems.requests
    ensures ReconciledEntry !in Trail(Next(w, step).systems.audit, id) && !Verifying(Next(w, step), id)
  {
    hide ProvenOnce;
    hide Trail;
    match step
    case Create(i, e) => TrailSnoc(w.systems.audit, i, RequestedEntry, id);
    case Finish(i) =>
      TrailSnoc(w.systems.audit, i, PublishedEntry, id);
      TrailSnoc(w.systems.audit, i, FailedEntry, id);
    case Complete(session) =>
      if session in w.reconcilers {
        TrailSnoc(w.systems.audit, w.reconcilers[session].id, ReconciledEntry, id);
      }
    case _ =>
  }

  /** A session that verified the request before the second delivery was projected completes it afterwards: the
      count and the completion are separate transactions, and the update is guarded by the state alone. */
  lemma LateCompletion(id: string, e: Event)
    ensures var w := Run(Start(), [Create(id, e), Deliver(id), Deliver(id), Project(0), Look(0, id), CountLedger(0),
                                   Project(1), Complete(0)]);
      && id in w.systems.requests && w.systems.requests[id].state == Published
      && |Deliveries(w.systems, e)| == 2 && ReconciledEntry in Trail(w.systems.audit, id)
  {
    hide Next;
    hide Run;
    hide Deliveries;
    hide Trail;
    var first := [Create(id, e), Deliver(id), Deliver(id)];
    var second := [Project(0), Look(0, id), CountLedger(0)];
    Three(Start(), first[0], first[1], first[2]);
    FirstCopies(id, e);
    Three(TwoCopies(id, e), second[0], second[1], second[2]);
    OneProven(id, e);
    RunAppend(Start(), first, second);
    RunsOn(Start(), first + second, Project(1));
    RunsOn(Start(), first + second + [Project(1)], Complete(0));
    CompletedLate(id, e);
    assert [Create(id, e), Deliver(id), Deliver(id), Project(0), Look(0, id), CountLedger(0), Project(1), Complete(0)]
      == first + second + [Project(1)] + [Complete(0)];
  }

  lemma CompletedLate(id: string, e: Event)
    ensures var w := Next(Next(VerifiedOnce(id, e), Project(1)), Complete(0));
      && id in w.systems.requests && w.systems.requests[id].state == Published
      && |Deliveries(w.systems, e)| == 2 && ReconciledEntry in Trail(w.systems.audit, id)
  {
    var w := Next(Next(VerifiedOnce(id, e), Project(1)), Complete(0));
    assert [(id, RequestedEntry)] + [(id, ReconciledEntry)] == w.systems.audit;
    TrailSnoc([(id, RequestedEntry)], id, ReconciledEntry, id);
    assert Deliveries(w.systems, e) == {0, 1};
  }

  function TwoCopies(id: string, e: Event): World {
    World(Systems(map[id := Request(e, Publishing)], [(id, RequestedEntry)], [e, e], {}), map[id := Sending], map[])
  }

  function VerifiedOnce(id: string, e: Event): World {
    TwoCopies(id, e).(systems := TwoCopies(id, e).systems.(ledger := {0}), reconcilers := map[0 := Verified(id)])
  }

  lemma FirstCopies(id: string, e: Event)
    ensures Next(Next(Next(Start(), Create(id, e)), Deliver(id)), Deliver(id)) == TwoCopies(id, e)
  {
    var w1 := Next(Start(), Create(id, e));
    assert w1 == TwoCopies(id, e).(systems := TwoCopies(id, e).systems.(kafka := []));
    assert [] + [e] + [e] == [e, e];
  }

  lemma OneProven(id: string, e: Event)
    ensures Next(Next(Next(TwoCopies(id, e), Project(0)), Look(0, id)), CountLedger(0)) == VerifiedOnce(id, e)
  {
    var w4 := Next(TwoCopies(id, e), Project(0));
    assert w4.systems.ledger == {0};
    assert Deliveries(w4.systems, e) == {0} && Matching(w4.systems, e) == {0};
    var w5 := Next(w4, Look(0, id));
    assert w5.reconcilers == map[0 := Looked(id)];
    assert Next(w5, CountLedger(0)).reconcilers == map[0 := Verified(id)];
  }

  lemma {:induction false} RunAppend(w: World, front: seq<Step>, back: seq<Step>)
    ensures Run(w, front + back) == Run(Run(w, front), back)
    decreases |back|
  {
    hide Next;
    if back == [] {
      assert front + back == front;
    } else {
      RunAppend(w, front, back[..|back| - 1]);
      assert front + back == (front + back[..|back| - 1]) + [back[|back| - 1]];
      RunsOn(w, front + back[..|back| - 1], back[|back| - 1]);
    }
  }

  lemma RunsOn(w: World, front: seq<Step>, step: Step)
    ensures Run(w, front + [step]) == Next(Run(w, front), step)
  {
    hide Next;
    assert (front + [step])[..|front|] == front;
  }

  /** With exactly one projected delivery, and nothing in between, reconciling completes a request that is
      still publishing; otherwise it changes nothing. */
  lemma ReconcileCompletesIffProven(w: World, session: nat, id: string)
    requires session !in w.reconcilers
    ensures var after := Run(w, [Look(session, id), CountLedger(session), Complete(session)]);
      after.systems ==
        if CanComplete(w.systems, id) && ProvenOnce(w.systems, w.systems.requests[id].event)
        then CompleteRequest(w.systems, id, Published, ReconciledEntry) else w.systems
  {
    hide ProvenOnce;
    var steps := [Look(session, id), CountLedger(session), Complete(session)];
    Three(w, steps[0], steps[1], steps[2]);
  }

  /** The ledger holds a row for the corrected event, and no other row of its topic under its run id, whatever
      event that would be. */
  ghost predicate OnlyDelivery(s: Systems, e: Event) {
    exists o :: o in s.ledger && o < |s.kafka| && s.kafka[o] == e
      && forall p :: p in s.ledger && p != o && p < |s.kafka| && s.kafka[p].topic == e.topic ==>
           s.kafka[p].producerRunId != e.producerRunId
  }

  lemma ProvenMeansOnly(s: Systems, e: Event)
    ensures ProvenOnce(s, e) <==> OnlyDelivery(s, e)
  {
    if ProvenOnce(s, e) {
      var o :| o in Matching(s, e);
      OneElement(Deliveries(s, e), o);
      assert s.kafka[o] == e;
      forall p | p in s.ledger && p != o && p < |s.kafka| && s.kafka[p].topic == e.topic
        ensures s.kafka[p].producerRunId != e.producerRunId
      {
        assert p !in Deliveries(s, e);
      }
    }
    if OnlyDelivery(s, e) {
      var o :| o in s.ledger && o < |s.kafka| && s.kafka[o] == e
        && forall p :: p in s.ledger && p != o && p < |s.kafka| && s.kafka[p].topic == e.topic ==>
             s.kafka[p].producerRunId != e.producerRunId;
      assert Deliveries(s, e) == {o};
      assert Matching(s, e) == {o};
    }
  }

  lemma OneElement(a: set<nat>, o: nat)
    requires |a| == 1 && o in a
    ensures a == {o}
  {
    assert |a - {o}| == 0;
  }

  /** An undisturbed reconcile, from the tables alone: a publishing request whose event is the only delivery under
      its run id becomes published with a 'reconciled' entry, and in every other case nothing changes. */
  lemma ReconcilesExactly(w: World, session: nat, id: string)
    requires session !in w.reconcilers
    ensures var s := w.systems;
      var after := Run(w, [Look(session, id), CountLedger(session), Complete(session)]).systems;
      after ==
        if id in s.requests && s.requests[id].state == Publishing && OnlyDelivery(s, s.requests[id].event)
        then s.(requests := s.requests[id := Request(s.requests[id].event, Published)],
                audit := s.audit + [(id, ReconciledEntry)])
        else s
  {
    ReconcileCompletesIffProven(w, session, id);
    if id in w.systems.requests {
      ProvenMeansOnly(w.systems, w.systems.requests[id].event);
    }
    hide Run;
    hide ProvenOnce;
    hide OnlyDelivery;
  }

  /** Over any interleaving two requests never share a run id. */
  lemma {:induction false} RunIdsNeverShared(steps: seq<Step>, a: string, b: string)
    requires var requests := Run(Start(), steps).systems.requests; a in requests && b in requests && a != b
    ensures var requests := Run(Start(), steps).systems.requests;
      requests[a].event.producerRunId != requests[b].event.producerRunId
    decreases |steps|
  {
    hide Next;
    if steps != [] {
      var front, step := steps[..|steps| - 1], steps[|steps| - 1];
      var before := Run(Start(), front);
      RunForward(Start(), front);
      NextForward(before, step);
      RequestsAppear(before, step);
      if a in before.systems.requests && b in before.systems.requests {
        RunIdsNeverShared(front, a, b);
      }
    }
  }

  /** A request appears by being created, under a new id and a run id no other request has. */
  lemma RequestsAppear(w: World, step: Step)
    ensures forall id :: id in Next(w, step).systems.requests && id !in w.systems.requests ==>
      step.Create? && step.id == id && Next(w, step).systems.requests[id] == Request(step.event, Publishing)
      && forall other :: other in w.systems.requests ==>
           w.systems.requests[other].event.producerRunId != step.event.producerRunId
  {
    hide ProvenOnce;
  }

  predicate Concerns(step: Step, session: nat) {
    (step.Look? || step.CountLedger? || step.Complete? || step.CrashReconciler?) && step.session == session
  }

  lemma {:induction false} SessionWaits(w: World, steps: seq<Step>, session: nat)
    requires forall i :: 0 <= i < |steps| ==> !Concerns(steps[i], session)
    ensures session in Run(w, steps).reconcilers <==> session in w.reconcilers
    ensures session in w.reconcilers ==> Run(w, steps).reconcilers[session] == w.reconcilers[session]
    decreases |steps|
  {
    hide Next;
    if steps != [] {
      SessionWaits(w, steps[..|steps| - 1], session);
      SessionStep(Run(w, steps[..|steps| - 1]), steps[|steps| - 1], session);
    }
  }

  lemma SessionStep(w: World, step: Step, session: nat)
    requires !Concerns(step, session)
    ensures session in Next(w, step).reconcilers <==> session in w.reconcilers
    ensures session in w.reconcilers ==> Next(w, step).reconcilers[session] == w.reconcilers[session]
  {
    hide CanCreate;
    hide CanComplete;
    hide CreateRequest;
    hide CompleteRequest;
    hide ProvenOnce;
  }

  lemma LookStep(w: World, session: nat, id: string)
    requires session !in w.reconcilers && CanComplete(w.systems, id)
    ensures var next := Next(w, Look(session, id));
      next.systems == w.systems && session in next.reconcilers && next.reconcilers[session] == Looked(id)
  {
  }

  lemma CountStep(w: World, session: nat, id: string)
    requires session in w.reconcilers && w.reconcilers[session] == Looked(id) && id in w.systems.requests
    ensures var next := Next(w, CountLedger(session));
      && next.systems == w.systems
      && (session in next.reconcilers <==> ProvenOnce(w.systems, w.systems.requests[id].event))
      && (session in next.reconcilers ==> next.reconcilers[session] == Verified(id))
  {
    hide ProvenOnce;
  }

  lemma CompleteStep(w: World, session: nat)
    requires session in w.reconcilers ==> w.reconcilers[session].Verified?
    ensures Next(w, Complete(session)).systems ==
      if session in w.reconcilers then CompleteRequest(w.systems, w.reconcilers[session].id, Published, ReconciledEntry)
      else w.systems
  {
    hide CompleteRequest;
  }

  /** A reconcile with other steps at each of its awaits: it decides on the ledger at the count and completes
      if the request is still publishing at the end. */
  lemma ReconcileAmidst(w: World, session: nat, id: string, meanwhile: seq<Step>, later: seq<Step>)
    requires session !in w.reconcilers && CanComplete(w.systems, id)
    requires forall i :: 0 <= i < |meanwhile| ==> !Concerns(meanwhile[i], session)
    requires forall i :: 0 <= i < |later| ==> !Concerns(later[i], session)
    ensures var atCount := Run(Next(w, Look(session, id)), meanwhile);
      var atEnd := Run(Next(atCount, CountLedger(session)), later);
      Next(atEnd, Complete(session)).systems ==
        if ProvenOnce(atCount.systems, w.systems.requests[id].event)
        then CompleteRequest(atEnd.systems, id, Published, ReconciledEntry) else atEnd.systems
  {
    hide Next;
    hide Run;
    hide ProvenOnce;
    hide CompleteRequest;
    var looked := Next(w, Look(session, id));
    LookStep(w, session, id);
    var atCount := Run(looked, meanwhile);
    RunForward(looked, meanwhile);
    SessionWaits(looked, meanwhile, session);
    CountStep(atCount, session, id);
    SessionWaits(Next(atCount, CountLedger(session)), later, session);
    CompleteStep(Run(Next(atCount, CountLedger(session)), later), session);
  }

  lemma Three(w: World, a: Step, b: Step, c: Step)
    ensures Run(w, [a, b, c]) == Next(Next(Next(w, a), b), c)
  {
    hide Next;
    var steps := [a, b, c];
    assert steps[..2] == [a, b] && steps[..2][..1] == [a] && steps[..2][..1][..0] == [];
    assert Run(w, []) == w;
    assert Run(w, [a]) == Next(Run(w, [a][..0]), a);
    assert Run(w, [a, b]) == Next(Run(w, [a, b][..1]), b);
  }

  /** The step stores the event: the broker's copy of an existing request, or an equal event from elsewhere. */
  predicate Stores(w: World, step: Step, e: Event) {
    step == OtherEvent(e)
    || (step.Deliver? && step.id in w.systems.requests && w.systems.requests[step.id].event == e)
  }

  ghost predicate SomeStepStores(steps: seq<Step>, e: Event) {
    exists i :: 0 <= i < |steps| && StoresAt(steps, i, e)
  }

  predicate StoresAt(steps: seq<Step>, i: nat, e: Event)
    requires i < |steps|
  {
    Stores(Run(Start(), steps[..i]), steps[i], e)
  }

  lemma LogStep(w: World, step: Step, e: Event)
    ensures e in Next(w, step).systems.kafka <==> e in w.systems.kafka || Stores(w, step, e)
  {
  }

  /** An event is in the log exactly when some step stored it; no completion or reconciliation puts it there. */
  lemma {:induction false} InLogIffStored(steps: seq<Step>, e: Event)
    ensures e in Run(Start(), steps).systems.kafka <==> SomeStepStores(steps, e)
    decreases |steps|
  {
    hide Next;
    hide Stores;
    if steps != [] {
      var front, step := steps[..|steps| - 1], steps[|steps| - 1];
      InLogIffStored(front, e);
      var before := Run(Start(), front);
      LogStep(before, step, e);
      assert forall i :: 0 <= i < |front| ==> front[..i] == steps[..i] && front[i] == steps[i];
      assert forall i :: 0 <= i < |front| ==> (StoresAt(front, i, e) <==> StoresAt(steps, i, e));
      assert StoresAt(steps, |front|, e) <==> Stores(before, step, e);
    }
  }

  /** A failed request may still have been delivered: the broker stores the event and the publish raises. */
  lemma FailedMayBeDelivered(id: string, e: Event)
    ensures var s := Run(Start(), [Create(id, e), Deliver(id), PublishRaises(id), Finish(id)]).systems;
      id in s.requests && s.requests[id].state == Failed && e in s.kafka
  {
    var steps := [Create(id, e), Deliver(id), PublishRaises(id), Finish(id)];
    assert steps[..3] == [Create(id, e), Deliver(id), PublishRaises(id)];
    Three(Start(), steps[0], steps[1], steps[2]);
    var w1 := Next(Start(), steps[0]);
    var w2 := Next(w1, steps[1]);
    var w3 := Next(w2, steps[2]);
    assert w1.systems.requests == map[id := Request(e, Publishing)] && w1.executors == map[id := Sending];
    assert w2.systems.kafka == [e] && w2.executors == w1.executors && w2.systems.requests == w1.systems.requests;
    assert w3.systems == w2.systems && w3.executors == map[id := PublishFailed];
  }

  // ---- the commands -----------------------------------------------------------------------------

  /** What happens around one execution: how many copies the broker stores, whether the publish returns, and
      where the executor crashes. */
  datatype Crash = Never | AfterCreate | AfterPublish

  datatype Fate = Fate(copies: nat, acked: bool, crash: Crash)

  function Delivered(w: World, id: string, copies: nat): World {
    if copies == 0 then w else Next(Delivered(w, id, copies - 1), Deliver(id))
  }

  function PublishStep(id: string, fate: Fate): Step {
    if fate.acked && fate.copies > 0 then PublishReturns(id) else PublishRaises(id)
  }

  /** An execution as steps of the machine, with the steps of others before the publish and before the
      completion. */
  function Execution(w: World, id: string, e: Event, fate: Fate, meanwhile: seq<Step>, later: seq<Step>): World {
    var created := Next(w, Create(id, e));
    if !CanCreate(w.systems, id, e) then w
    else if fate.crash == AfterCreate then Next(created, CrashExecutor(id))
    else
      var sent := Delivered(Run(created, meanwhile), id, fate.copies);
      if fate.crash == AfterPublish then Next(sent, CrashExecutor(id))
      else Next(Run(Next(sent, PublishStep(id, fate)), later), Finish(id))
  }

  lemma {:induction false} DeliveredIsARun(w: World, id: string, copies: nat) returns (steps: seq<Step>)
    ensures Delivered(w, id, copies) == Run(w, steps)
  {
    hide Next;
    steps := [];
    if copies > 0 {
      var front := DeliveredIsARun(w, id, copies - 1);
      RunsOn(w, front, Deliver(id));
      steps := front + [Deliver(id)];
    }
  }

  /** Hence everything proved of all interleavings holds of it. */
  lemma ExecutionIsARun(w: World, id: string, e: Event, fate: Fate, meanwhile: seq<Step>, later: seq<Step>)
    returns (steps: seq<Step>)
    ensures Execution(w, id, e, fate, meanwhile, later) == Run(w, steps)
  {
    hide Next;
    hide Delivered;
    if !CanCreate(w.systems, id, e) {
      return [];
    }
    steps := [Create(id, e)];
    RunsOn(w, [], Create(id, e));
    assert [] + [Create(id, e)] == steps;
    if fate.crash == AfterCreate {
      RunsOn(w, steps, CrashExecutor(id));
      return steps + [CrashExecutor(id)];
    }
    RunAppend(w, steps, meanwhile);
    var copies := DeliveredIsARun(Run(w, steps + meanwhile), id, fate.copies);
    RunAppend(w, steps + meanwhile, copies);
    steps := steps + meanwhile + copies;
    if fate.crash == AfterPublish {
      RunsOn(w, steps, CrashExecutor(id));
      return steps + [CrashExecutor(id)];
    }
    RunsOn(w, steps, PublishStep(id, fate));
    RunAppend(w, steps + [PublishStep(id, fate)], later);
    RunsOn(w, steps + [PublishStep(id, fate)] + later, Finish(id));
    return steps + [PublishStep(id, fate)] + later + [Finish(id)];
  }

  predicate Executes(step: Step, id: string) {
    && (step.Create? || step.PublishReturns? || step.PublishRaises? || step.Finish? || step.CrashExecutor?)
    && step.id == id
  }

  lemma ExecutorStep(w: World, step: Step, id: string)
    requires !Executes(step, id)
    ensures id in Next(w, step).executors <==> id in w.executors
    ensures id in w.executors ==> Next(w, step).executors[id] == w.executors[id]
  {
    hide CanCreate;
    hide CanComplete;
    hide CreateRequest;
    hide CompleteRequest;
    hide ProvenOnce;
  }

  lemma {:induction false} ExecutorWaits(w: World, steps: seq<Step>, id: string)
    requires forall i :: 0 <= i < |steps| ==> !Executes(steps[i], id)
    ensures id in Run(w, steps).executors <==> id in w.executors
    ensures id in w.executors ==> Run(w, steps).executors[id] == w.executors[id]
    decreases |steps|
  {
    hide Next;
    if steps != [] {
      ExecutorWaits(w, steps[..|steps| - 1], id);
      ExecutorStep(Run(w, steps[..|steps| - 1]), steps[|steps| - 1], id);
    }
  }

  lemma CreateStep(w: World, id: string, e: Event)
    requires CanCreate(w.systems, id, e)
    ensures var next := Next(w, Create(id, e));
      && next.systems == CreateRequest(w.systems, id, e)
      && id in next.executors && next.executors[id] == Sending
      && id in next.systems.requests && next.systems.requests[id].event == e
  {
  }

  lemma PublishedStep(w: World, id: string, fate: Fate)
    requires id in w.executors && w.executors[id] == Sending && id in w.systems.requests
    requires fate.copies > 0 ==> w.systems.requests[id].event in w.systems.kafka
    ensures var next := Next(w, PublishStep(id, fate));
      && next.systems == w.systems && id in next.executors
      && next.executors[id] == if fate.acked && fate.copies > 0 then Acknowledged else PublishFailed
  {
  }

  lemma FinishStep(w: World, id: string)
    requires id in w.executors && w.executors[id] != Sending
    ensures Next(w, Finish(id)).systems ==
      if w.executors[id] == Acknowledged then CompleteRequest(w.systems, id, Published, PublishedEntry)
      else CompleteRequest(w.systems, id, Failed, FailedEntry)
  {
  }

  /** What an execution amid others leaves: the request, the copies, and the completion that matches how the
      publish went, unless the request was completed by somebody else before. */
  lemma ExecutionAmidst(w: World, id: string, e: Event, fate: Fate, meanwhile: seq<Step>, later: seq<Step>)
    requires CanCreate(w.systems, id, e) && fate.crash == Never
    requires forall i :: 0 <= i < |meanwhile| ==> !Executes(meanwhile[i], id)
    requires forall i :: 0 <= i < |later| ==> !Executes(later[i], id)
    ensures var atPublish := Run(Next(w, Create(id, e)), meanwhile);
      var sent := Delivered(atPublish, id, fate.copies);
      var atEnd := Run(Next(sent, PublishStep(id, fate)), later);
      && sent.systems == atPublish.systems.(kafka := atPublish.systems.kafka + Copies(e, fate.copies))
      && Execution(w, id, e, fate, meanwhile, later).systems ==
           if fate.acked && fate.copies > 0 then CompleteRequest(atEnd.systems, id, Published, PublishedEntry)
           else CompleteRequest(atEnd.systems, id, Failed, FailedEntry)
  {
    hide Next;
    hide Run;
    hide Delivered;
    hide CompleteRequest;
    hide CreateRequest;
    var created := Next(w, Create(id, e));
    CreateStep(w, id, e);
    var atPublish := Run(created, meanwhile);
    RunForward(created, meanwhile);
    ExecutorWaits(created, meanwhile, id);
    var sent := Delivered(atPublish, id, fate.copies);
    DeliveredIs(atPublish, id, fate.copies);
    CopiesHold(e, fate.copies);
    PublishedStep(sent, id, fate);
    ExecutorWaits(Next(sent, PublishStep(id, fate)), later, id);
    FinishStep(Run(Next(sent, PublishStep(id, fate)), later), id);
  }

  lemma PublishLeavesSystems(w: World, step: Step)
    requires step.PublishReturns? || step.PublishRaises?
    ensures Next(w, step).systems == w.systems
  {
  }

  /** An undisturbed execution, from the tables alone: the request, all copies in the log, and the entry and state
      that say how the publish went. */
  lemma ExecutesExactly(w: World, id: string, e: Event, fate: Fate)
    requires id !in w.systems.requests && fate.crash == Never
    requires forall other :: other in w.systems.requests ==>
      w.systems.requests[other].event.producerRunId != e.producerRunId
    ensures var s, after := w.systems, Execution(w, id, e, fate, [], []).systems;
      var published := fate.acked && fate.copies > 0;
      && after.requests == s.requests[id := Request(e, if published then Published else Failed)]
      && after.audit == s.audit + [(id, RequestedEntry), (id, if published then PublishedEntry else FailedEntry)]
      && after.kafka == s.kafka + Copies(e, fate.copies) && after.ledger == s.ledger
  {
    hide Next;
    ExecutionAmidst(w, id, e, fate, [], []);
    CreateStep(w, id, e);
    PublishLeavesSystems(Delivered(Next(w, Create(id, e)), id, fate.copies), PublishStep(id, fate));
    hide Execution;
    var entry := if fate.acked && fate.copies > 0 then PublishedEntry else FailedEntry;
    assert (w.systems.audit + [(id, RequestedEntry)]) + [(id, entry)]
      == w.systems.audit + [(id, RequestedEntry), (id, entry)];
  }

  datatype Outcome = Completed | NotFound | AlreadyPublished | NotPublishing | NotProven | Raised | Crashed

  class ReplayDesk {
    var requests: map<string, Request>
    var audit: Audit
    var kafka: seq<Event>
    var ledger: set<nat>

    function View(): Systems
      reads this
    {
      Systems(requests, audit, kafka, ledger)
    }

    constructor ()
      ensures View() == Start().systems
    {
      requests, audit, kafka, ledger := map[], [], [], {};
    }

    method CreateReplayRequest(id: string, e: Event) returns (created: bool)
      modifies this`requests, this`audit
      ensures created == CanCreate(old(View()), id, e) && View() == CreateRequest(old(View()), id, e)
      ensures created <==> (id !in old(requests)
        && forall other :: other in old(requests) ==> old(requests[other].event).producerRunId != e.producerRunId)
      ensures created ==> requests == old(requests)[id := Request(e, Publishing)]
      ensures created ==> audit == old(audit) + [(id, RequestedEntry)]
    {
      if id in requests {
        return false;
      }
      if other :| other in requests && requests[other].event.producerRunId == e.producerRunId {
        return false;
      }
      requests := requests[id := Request(e, Publishing)];
      audit := audit + [(id, RequestedEntry)];
      return true;
    }

    method CompleteReplayRequest(id: string, state: State, entry: AuditType) returns (completed: bool)
      modifies this`requests, this`audit
      ensures completed == CanComplete(old(View()), id) && View() == CompleteRequest(old(View()), id, state, entry)
      ensures completed <==> id in old(requests) && old(requests[id].state) == Publishing
      ensures completed ==> requests == old(requests)[id := Request(old(requests[id].event), state)]
      ensures completed ==> audit == old(audit) + [(id, entry)]
    {
      var updated := 0;
      if id in requests && requests[id].state == Publishing {
        requests := requests[id := requests[id].(state := state)];
        updated := 1;
      }
      if updated != 1 {
        return false;
      }
      audit := audit + [(id, entry)];
      return true;
    }

    method PublishEvent(e: Event, copies: nat, acked: bool) returns (ok: bool)
      modifies this`kafka
      ensures kafka == old(kafka) + Copies(e, copies) && ok == (acked && copies > 0)
    {
      for i := 0 to copies
        invariant kafka == old(kafka) + Copies(e, i)
      {
        kafka := kafka + [e];
      }
      ok := acked && copies > 0;
    }

    /** Durable request first, then the publish, then the completion that matches how the publish went. Others
        act before the publish and before the completion; one of them may have completed the request, and then
        the guarded update raises. */
    method ExecuteReplay(id: string, e: Event, fate: Fate, beforePublish: Systems -> Systems,
                         beforeComplete: Systems -> Systems) returns (outcome: Outcome)
      modifies this
      ensures !CanCreate(old(View()), id, e) ==> outcome == Raised && View() == old(View())
      ensures CanCreate(old(View()), id, e) ==>
        var created := CreateRequest(old(View()), id, e);
        var atPublish := beforePublish(created);
        var sent := atPublish.(kafka := atPublish.kafka + Copies(e, fate.copies));
        var atEnd := beforeComplete(sent);
        var acked := fate.acked && fate.copies > 0;
        match fate.crash
        case AfterCreate => outcome == Crashed && View() == created
        case AfterPublish => outcome == Crashed && View() == sent
        case Never =>
          && outcome == (if acked && CanComplete(atEnd, id) then Completed else Raised)
          && View() == (if acked then CompleteRequest(atEnd, id, Published, PublishedEntry)
                        else CompleteRequest(atEnd, id, Failed, FailedEntry))
          && (outcome == Completed && Forward(sent, atEnd) ==> e in kafka)
    {
      var created := CreateReplayRequest(id, e);
      if !created {
        return Raised;
      }
      if fate.crash == AfterCreate {
        return Crashed;
      }
      Await(beforePublish);
      var ok := PublishEvent(e, fate.copies, fate.acked);
      if fate.crash == AfterPublish {
        return Crashed;
      }
      CopiesHold(e, fate.copies);
      ghost var sent := View();
      assert ok ==> e in sent.kafka;
      Await(beforeComplete);
      if !ok {
        var _ := CompleteReplayRequest(id, Failed, FailedEntry);
        return Raised;
      }
      var completed := CompleteReplayRequest(id, Published, PublishedEntry);
      return if completed then Completed else Raised;
    }

    /** What everybody else does while this coroutine waits. */
    method Await(others: Systems -> Systems)
      modifies this
      ensures View() == others(old(View()))
    {
      var after := others(View());
      requests, audit, kafka, ledger := after.requests, after.audit, after.kafka, after.ledger;
    }

    /** Completes an interrupted request only when the ledger proves exactly one delivery. Others act before the
        count and before the completion. */
    method ReconcileReplay(id: string, beforeCount: Systems -> Systems, beforeComplete: Systems -> Systems)
      returns (outcome: Outcome)
      modifies this
      ensures outcome == NotFound <==> id !in old(requests)
      ensures outcome == AlreadyPublished <==> id in old(requests) && old(requests[id].state) == Published
      ensures outcome == NotPublishing <==> id in old(requests) && old(requests[id].state) == Failed
      ensures !CanComplete(old(View()), id) ==> View() == old(View())
      ensures CanComplete(old(View()), id) ==>
        var atCount := beforeCount(old(View()));
        var atEnd := beforeComplete(atCount);
        && (outcome == NotProven <==> !OnlyDelivery(atCount, old(requests[id].event)))
        && (outcome == NotProven ==> View() == atCount)
        && (outcome != NotProven ==> View() == CompleteRequest(atEnd, id, Published, ReconciledEntry))
        && (outcome != NotProven ==> outcome == if CanComplete(atEnd, id) then Completed else Raised)
    {
      if id !in requests {
        return NotFound;
      }
      if requests[id].state == Published {
        return AlreadyPublished;
      }
      if requests[id].state != Publishing {
        return NotPublishing;
      }
      var e := requests[id].event;
      Await(beforeCount);
      ProvenMeansOnly(View(), e);
      if |Deliveries(View(), e)| != 1 || |Matching(View(), e)| != 1 {
        return NotProven;
      }
      Await(beforeComplete);
      var completed := CompleteReplayRequest(id, Published, ReconciledEntry);
      return if completed then Completed else Raised;
    }
  }

  function Copies(e: Event, n: nat): (copies: seq<Event>)
    ensures |copies| == n && forall i :: 0 <= i < n ==> copies[i] == e
  {
    if n == 0 then [] else Copies(e, n - 1) + [e]
  }

  lemma CopiesHold(e: Event, n: nat)
    ensures n > 0 ==> e in Copies(e, n)
  {
  }

  lemma {:induction false} DeliveredIs(w: World, id: string, copies: nat)
    requires id in w.systems.requests
    ensures Delivered(w, id, copies)
      == w.(systems := w.systems.(kafka := w.systems.kafka + Copies(w.systems.requests[id].event, copies)))
  {
    if copies > 0 {
      DeliveredIs(w, id, copies - 1);
      var k, e := w.systems.kafka, w.systems.requests[id].event;
      assert k + (Copies(e, copies - 1) + [e]) == (k + Copies(e, copies - 1)) + [e];
    } else {
      assert w.systems.kafka + [] == w.systems.kafka;
    }
  }
}
