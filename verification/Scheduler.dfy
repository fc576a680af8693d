/** The scheduler loop with lease gating wired into it: acquire before a run, fence during it, release after
    it. What the coordinator, the user's hooks, the run and the event loop do comes from outside. */
module Scheduler {
  import opened Options

  datatype Fence = Fence(workerId: string, token: int)

  /** Pre-run hooks as objects. A user hook may call another hook after its own answer; a gate is the hook the
      worker pool wires around whatever hook was there. */
  datatype Hook = NoHook | UserHook(id: nat, inner: Hook) | Gate(id: nat, existing: Hook)

  datatype Observer = UserObserver(id: nat) | ReleaseObserver

  datatype Outcome = Succeeds | FailsWithError | LosesLease | IsCancelled

  datatype RunRecord = RunRecord(run: nat, outcome: Outcome)

  datatype Entry =
    | Acquire(run: nat, granted: bool, lease: Option<Fence>)
    | Release
    | Started(run: nat, fence: Option<Fence>)
    | Ended(run: nat, outcome: Outcome)

  /** The scheduler's state and everything that happened. */
  datatype Sched = Sched(runNumber: nat, errors: nat, history: seq<RunRecord>, fence: Option<Fence>, log: seq<Entry>)

  // ---- what comes from outside ------------------------------------------------------------------

  datatype Answer = Allows | Refuses | Throws

  /** `try_acquire_lease` and what follows it: the coordinator may offer no lease details or no validation, and
      a cancelled or failing call may still have taken the lease. */
  datatype Grant =
    | Denied
    | AcquireThrows(taken: bool)
    | DetailsThrow
    | WithoutDetails
    | WithLease(lease: Fence)

  /** Where the notification after a run is cancelled: before some observer, or while the observer at that
      place is running, which may have done its work. */
  datatype Interruption = Interruption(observer: nat, done: bool)

  /** `release_lease` may fail before or after the lease is returned; the failure is logged and passed over. */
  datatype Effect = Works | ThrowsBefore | ThrowsAfter

  datatype Fate = Fate(answers: nat -> Answer, grants: nat -> Grant, outcome: Outcome,
                       backoffCancelled: bool, release: Effect, interruption: Option<Interruption>)

  /** The run, or the wait after a failed one, was cancelled. */
  predicate CancelledInside(fate: Fate) {
    fate.outcome == IsCancelled || (fate.outcome == FailsWithError && fate.backoffCancelled)
  }

  // ---- one tick ---------------------------------------------------------------------------------

  datatype HookResult = Proceeds | Declines | Raises

  function Log(s: Sched, e: Entry): Sched {
    s.(log := s.log + [e])
  }

  function Taken(g: Grant): bool {
    g.DetailsThrow? || g.WithoutDetails? || g.WithLease? || (g.AcquireThrows? && g.taken)
  }

  /** What the gate does once the hook it wraps has let the run through. */
  function Pass(s: Sched, g: Grant): (Sched, HookResult) {
    var lease := if g.WithLease? then Some(g.lease) else None;
    var asked := Log(s.(fence := None), Acquire(s.runNumber + 1, Taken(g), lease));
    match g
    case Denied => (asked, Declines)
    case AcquireThrows(_) => (asked, Raises)
    case DetailsThrow => (asked, Raises)
    case WithoutDetails => (asked, Proceeds)
    case WithLease(lease) => (asked.(fence := Some(lease)), Proceeds)
  }

  function Ask(s: Sched, hook: Hook, fate: Fate): (Sched, HookResult) {
    match hook
    case NoHook => (s, Proceeds)
    case UserHook(id, inner) =>
      (match fate.answers(id)
       case Allows => Ask(s, inner, fate)
       case Refuses => (s, Declines)
       case Throws => (s, Raises))
    case Gate(id, existing) =>
      var (before, result) := Ask(s, existing, fate);
      if result != Proceeds then (before, result) else Pass(before, fate.grants(id))
  }

  const HISTORY := 100

  function Remember(history: seq<RunRecord>, record: RunRecord): seq<RunRecord> {
    if |history| < HISTORY then history + [record] else history[1..] + [record]
  }

  function Errors(errors: nat, outcome: Outcome): nat {
    match outcome
    case Succeeds => 0
    case FailsWithError => errors + 1
    case LosesLease => errors
    case IsCancelled => errors
  }

  function Observe(s: Sched, o: Observer, release: Effect): Sched {
    if o.ReleaseObserver? && release != ThrowsBefore then Log(s, Release) else s
  }

  /** The observers from the `i`th on, up to the interruption; says whether the last one was reached. */
  function Notify(s: Sched, observers: seq<Observer>, i: nat, release: Effect, cut: Option<Interruption>): (Sched, bool)
    decreases |observers| - i
  {
    if i >= |observers| then (s, true)
    else if cut.Some? && cut.value.observer == i then
      (if cut.value.done then Observe(s, observers[i], Works) else s, false)
    else Notify(Observe(s, observers[i], release), observers, i + 1, release, cut)
  }

  /** The run itself, from its number to its record. */
  function Performed(s: Sched, outcome: Outcome): Sched {
    var run := s.runNumber + 1;
    Log(Log(s, Started(run, s.fence)), Ended(run, outcome)).(
      runNumber := run, errors := Errors(s.errors, outcome), history := Remember(s.history, RunRecord(run, outcome)))
  }

  datatype Ticked = Ran | Skipped | Escaped

  /** `_run_once`. The cancellation of a run comes out of it after the clean-up. */
  function Tick(s: Sched, hook: Hook, observers: seq<Observer>, fate: Fate): (Sched, Ticked) {
    var (asked, result) := Ask(s, hook, fate);
    if result == Declines then (asked, Skipped)
    else if result == Raises then (asked, Escaped)
    else
      var (notified, reached) := Notify(Performed(asked, fate.outcome), observers, 0, fate.release, fate.interruption);
      if !reached then (notified, Escaped)
      else (notified.(fence := None), if CancelledInside(fate) then Escaped else Ran)
  }

  /** `_should_continue`. */
  predicate ShouldContinue(s: Sched, repeats: bool, maxErrors: int) {
    repeats && s.errors < maxErrors
  }

  /** `run`, seen for as long as `moments` last: each says whether the stop event is set and what the tick meets. */
  function Loop(s: Sched, hook: Hook, observers: seq<Observer>, repeats: bool, maxErrors: int,
                moments: seq<(bool, Fate)>): Sched
    decreases |moments|
  {
    if moments == [] || moments[0].0 then s
    else
      var (ticked, how) := Tick(s, hook, observers, moments[0].1);
      if how == Escaped || !ShouldContinue(ticked, repeats, maxErrors) then ticked
      else Loop(ticked, hook, observers, repeats, maxErrors, moments[1..])
  }

  /** The hooks and observers of one pipeline, and what the worker pool remembers of its own wiring. */
  datatype Wiring = Wiring(hook: Hook, observers: seq<Observer>, wired: Option<Hook>, releaseAdded: bool, gates: nat)

  /** `_wire_lease_gating`. A gate is a new object each time. */
  function Wire(w: Wiring): Wiring {
    var observers := if w.releaseAdded then w.observers else w.observers + [ReleaseObserver];
    if w.wired == Some(w.hook) then w.(observers := observers, releaseAdded := true)
    else
      var gate := Gate(w.gates, w.hook);
      Wiring(gate, observers, Some(gate), true, w.gates + 1)
  }

  // ---- the objects ------------------------------------------------------------------------------

  class ScheduledPipeline {
    var hook: Hook
    var observers: seq<Observer>
    var runNumber: nat
    var errors: nat
    var history: seq<RunRecord>
    var fence: Option<Fence>
    ghost var log: seq<Entry>

    ghost function View(): Sched
      reads this
    {
      Sched(runNumber, errors, history, fence, log)
    }

    constructor (hook: Hook, observers: seq<Observer>)
      ensures this.hook == hook && this.observers == observers && View() == Sched(0, 0, [], None, [])
      ensures Kept(View())
    {
      this.hook, this.observers := hook, observers;
      runNumber, errors, history, fence, log := 0, 0, [], None, [];
    }

    method CallGate(grant: Grant) returns (result: HookResult)
      modifies this`fence, this`log
      ensures (View(), result) == Pass(old(View()), grant)
    {
      fence := None;
      log := log + [Acquire(runNumber + 1, Taken(grant), if grant.WithLease? then Some(grant.lease) else None)];
      if grant.AcquireThrows? {
        return Raises;
      }
      if grant.Denied? {
        return Declines;
      }
      if grant.DetailsThrow? {
        return Raises;
      }
      if grant.WithoutDetails? {
        return Proceeds;
      }
      fence := Some(grant.lease);
      return Proceeds;
    }

    method CallHook(called: Hook, fate: Fate) returns (result: HookResult)
      modifies this`fence, this`log
      ensures (View(), result) == Ask(old(View()), called, fate)
    {
      match called {
        case NoHook =>
          return Proceeds;
        case UserHook(id, inner) =>
          var answer := fate.answers(id);
          if answer == Allows {
            result := CallHook(inner, fate);
          } else {
            result := if answer == Refuses then Declines else Raises;
          }
        case Gate(id, existing) =>
          result := CallHook(existing, fate);
          if result == Proceeds {
            result := CallGate(fate.grants(id));
          }
      }
    }

    /** Observers that fail are passed over; a cancellation is not caught. */
    method NotifyRunComplete(release: Effect, cut: Option<Interruption>) returns (reached: bool)
      modifies this`log
      ensures (View(), reached) == Notify(old(View()), observers, 0, release, cut)
    {
      for i := 0 to |observers|
        modifies this`log
        invariant Notify(View(), observers, i, release, cut) == Notify(old(View()), observers, 0, release, cut)
      {
        var here := cut.Some? && cut.value.observer == i;
        var takesEffect := if here then cut.value.done else release != ThrowsBefore;
        if observers[i].ReleaseObserver? && takesEffect {
          log := log + [Release];
        }
        if here {
          return false;
        }
      }
      return true;
    }

    method RunOnce(fate: Fate) returns (ticked: Ticked)
      modifies this`fence, this`log, this`runNumber, this`errors, this`history
      ensures (View(), ticked) == Tick(old(View()), hook, observers, fate)
    {
      var result := CallHook(hook, fate);
      if result == Declines {
        return Skipped;
      }
      if result == Raises {
        return Escaped;
      }
      runNumber := runNumber + 1;
      log := log + [Started(runNumber, fence)];
      match fate.outcome {
        case Succeeds => errors := 0;
        case FailsWithError => errors := errors + 1;
        case LosesLease =>
        case IsCancelled =>
      }
      log := log + [Ended(runNumber, fate.outcome)];
      history := history + [RunRecord(runNumber, fate.outcome)];
      if |history| > HISTORY {
        history := history[1..];
      }
      assert history == Remember(old(history), RunRecord(runNumber, fate.outcome));
      var reached := NotifyRunComplete(fate.release, fate.interruption);
      if !reached {
        return Escaped;
      }
      fence := None;
      return if CancelledInside(fate) then Escaped else Ran;
    }

    method Run(repeats: bool, maxErrors: int, moments: seq<(bool, Fate)>)
      modifies this`fence, this`log, this`runNumber, this`errors, this`history
      ensures View() == Loop(old(View()), hook, observers, repeats, maxErrors, moments)
    {
      hide Tick;
      assert moments[0..] == moments;
      for i := 0 to |moments|
        modifies this`fence, this`log, this`runNumber, this`errors, this`history
        invariant Loop(View(), hook, observers, repeats, maxErrors, moments[i..])
          == Loop(old(View()), hook, observers, repeats, maxErrors, moments)
      {
        assert moments[i..][1..] == moments[i + 1..];
        if moments[i].0 {
          return;
        }
        var ticked := RunOnce(moments[i].1);
        if ticked == Escaped {
          return;
        }
        if !(repeats && errors < maxErrors) {
          return;
        }
      }
    }
  }

  class LeaseGating {
    const pipeline: ScheduledPipeline
    var wired: Option<Hook>
    var releaseAdded: bool
    var gates: nat

    ghost function View(): Wiring
      reads this, pipeline
    {
      Wiring(pipeline.hook, pipeline.observers, wired, releaseAdded, gates)
    }

    constructor (pipeline: ScheduledPipeline)
      ensures this.pipeline == pipeline && View() == Wiring(pipeline.hook, pipeline.observers, None, false, 0)
    {
      this.pipeline := pipeline;
      wired, releaseAdded, gates := None, false, 0;
    }

    method WireLeaseGating()
      modifies this, pipeline`hook, pipeline`observers
      ensures View() == Wire(old(View()))
    {
      if wired == Some(pipeline.hook) {
        if !releaseAdded {
          AddReleaseObserver();
        }
        return;
      }
      var gate := Gate(gates, pipeline.hook);
      gates := gates + 1;
      pipeline.hook := gate;
      wired := Some(gate);
      if !releaseAdded {
        AddReleaseObserver();
      }
    }

    method AddReleaseObserver()
      modifies this`releaseAdded, pipeline`observers
      ensures releaseAdded && pipeline.observers == old(pipeline.observers) + [ReleaseObserver]
    {
      pipeline.observers := pipeline.observers + [ReleaseObserver];
      releaseAdded := true;
    }
  }

  // ---- errors and history -----------------------------------------------------------------------

  /** Failures since the last success; lost leases and cancellations count as neither. */
  function FailuresSince(log: seq<Entry>): nat {
    if log == [] then 0
    else
      var before, last := FailuresSince(log[..|log| - 1]), log[|log| - 1];
      if !last.Ended? then before
      else match last.outcome
        case Succeeds => 0
        case FailsWithError => before + 1
        case LosesLease => before
        case IsCancelled => before
  }

  function RunsOf(log: seq<Entry>): seq<RunRecord> {
    if log == [] then []
    else
      var last := log[|log| - 1];
      RunsOf(log[..|log| - 1]) + if last.Ended? then [RunRecord(last.run, last.outcome)] else []
  }

  /** The error count, the run numbers and the bounded history all follow the log. */
  ghost predicate Kept(s: Sched) {
    && s.errors == FailuresSince(s.log)
    && |RunsOf(s.log)| == s.runNumber
    && (forall i :: 0 <= i < s.runNumber ==> RunsOf(s.log)[i].run == i + 1)
    && s.history == RunsOf(s.log)[if s.runNumber < 100 then 0 else s.runNumber - 100..]
  }

  lemma LogSnoc(log: seq<Entry>, e: Entry)
    ensures FailuresSince(log + [e]) == if e.Ended? then Errors(FailuresSince(log), e.outcome) else FailuresSince(log)
    ensures RunsOf(log + [e]) == RunsOf(log) + if e.Ended? then [RunRecord(e.run, e.outcome)] else []
  {
    assert (log + [e])[..|log|] == log;
  }

  lemma LoggedKept(s: Sched, e: Entry, fence: Option<Fence>)
    requires Kept(s) && !e.Ended?
    ensures Kept(Log(s.(fence := fence), e))
  {
    LogSnoc(s.log, e);
  }

  lemma PerformedKept(s: Sched, outcome: Outcome)
    requires Kept(s)
    ensures Kept(Performed(s, outcome))
  {
    hide FailuresSince;
    hide RunsOf;
    hide Errors;
    var started, ended := Started(s.runNumber + 1, s.fence), Ended(s.runNumber + 1, outcome);
    LogSnoc(s.log, started);
    LogSnoc(s.log + [started], ended);
  }

  lemma AskKept(s: Sched, hook: Hook, fate: Fate)
    requires Kept(s)
    ensures Kept(Ask(s, hook, fate).0) && Ask(s, hook, fate).0.runNumber == s.runNumber
  {
    hide Kept;
    match hook
    case NoHook =>
    case UserHook(id, inner) => AskKept(s, inner, fate);
    case Gate(id, existing) =>
      AskKept(s, existing, fate);
      var before, g := Ask(s, existing, fate).0, fate.grants(id);
      var e := Acquire(before.runNumber + 1, Taken(g), if g.WithLease? then Some(g.lease) else None);
      LoggedKept(before, e, None);
      LoggedKept(before, e, if g.WithLease? then Some(g.lease) else None);
  }

  lemma {:induction false} NotifyKept(s: Sched, observers: seq<Observer>, i: nat, release: Effect,
                                      cut: Option<Interruption>)
    requires Kept(s)
    ensures Kept(Notify(s, observers, i, release, cut).0)
    decreases |observers| - i
  {
    hide Kept;
    if i < |observers| {
      LoggedKept(s, Release, s.fence);
      assert s.(fence := s.fence) == s;
      NotifyKept(Observe(s, observers[i], release), observers, i + 1, release, cut);
    }
  }

  lemma FenceKept(s: Sched, fence: Option<Fence>)
    requires Kept(s)
    ensures Kept(s.(fence := fence))
  {
  }

  /** Whatever hooks, observers and fates: the error count is the failures since the last success, and the
      history is the last hundred runs, numbered without a gap up to the current run number. */
  lemma TickKept(s: Sched, hook: Hook, observers: seq<Observer>, fate: Fate)
    requires Kept(s)
    ensures Kept(Tick(s, hook, observers, fate).0)
  {
    hide Kept;
    AskKept(s, hook, fate);
    var asked := Ask(s, hook, fate).0;
    PerformedKept(asked, fate.outcome);
    hide Performed;
    hide Ask;
    hide Notify;
    var ended := Performed(asked, fate.outcome);
    NotifyKept(ended, observers, 0, fate.release, fate.interruption);
    FenceKept(Notify(ended, observers, 0, fate.release, fate.interruption).0, None);
  }

  /** The loop goes on only below the error limit, so the count never passes it; a loop started again at or above
      the limit adds at most the one failure of its first tick. */
  lemma {:induction false} LoopBoundsErrors(s: Sched, hook: Hook, observers: seq<Observer>, repeats: bool,
                                            maxErrors: int, moments: seq<(bool, Fate)>)
    ensures Loop(s, hook, observers, repeats, maxErrors, moments).errors
      <= if s.errors < maxErrors then maxErrors else s.errors + 1
    decreases |moments|
  {
    if moments != [] && !moments[0].0 {
      TickErrors(s, hook, observers, moments[0].1);
      var (ticked, how) := Tick(s, hook, observers, moments[0].1);
      hide Tick;
      if how != Escaped && ShouldContinue(ticked, repeats, maxErrors) {
        LoopBoundsErrors(ticked, hook, observers, repeats, maxErrors, moments[1..]);
      }
    }
  }

  lemma AskErrors(s: Sched, hook: Hook, fate: Fate)
    ensures Ask(s, hook, fate).0.errors == s.errors
  {
  }

  lemma {:induction false} NotifyErrors(s: Sched, observers: seq<Observer>, i: nat, release: Effect,
                                        cut: Option<Interruption>)
    ensures Notify(s, observers, i, release, cut).0.errors == s.errors
    decreases |observers| - i
  {
    if i < |observers| {
      NotifyErrors(Observe(s, observers[i], release), observers, i + 1, release, cut);
    }
  }

  lemma TickErrors(s: Sched, hook: Hook, observers: seq<Observer>, fate: Fate)
    ensures Tick(s, hook, observers, fate).0.errors <= s.errors + 1
  {
    AskErrors(s, hook, fate);
    hide Ask;
    hide Notify;
    NotifyErrors(Performed(Ask(s, hook, fate).0, fate.outcome), observers, 0, fate.release, fate.interruption);
  }

  /** The state after the first `k` moments, if the loop ticked at each of them. */
  function Through(s: Sched, hook: Hook, observers: seq<Observer>, moments: seq<(bool, Fate)>, k: nat): Sched
    requires k <= |moments|
  {
    if k == 0 then s else Tick(Through(s, hook, observers, moments, k - 1), hook, observers, moments[k - 1].1).0
  }

  /** What the loop asks after tick `k`: it was not cancelled, the schedule repeats, and the errors are below the
      limit. */
  ghost predicate GoesOn(s: Sched, hook: Hook, observers: seq<Observer>, repeats: bool, maxErrors: int,
                         moments: seq<(bool, Fate)>, k: nat)
    requires k < |moments|
  {
    && Tick(Through(s, hook, observers, moments, k), hook, observers, moments[k].1).1 != Escaped
    && repeats && Through(s, hook, observers, moments, k + 1).errors < maxErrors
  }

  lemma {:induction false} ThroughRest(s: Sched, hook: Hook, observers: seq<Observer>, moments: seq<(bool, Fate)>,
                                       k: nat)
    requires k < |moments|
    ensures Through(s, hook, observers, moments, k + 1)
      == Through(Tick(s, hook, observers, moments[0].1).0, hook, observers, moments[1..], k)
  {
    hide Tick;
    if k > 0 {
      ThroughRest(s, hook, observers, moments, k - 1);
    } else {
      assert Through(s, hook, observers, moments, 0) == s;
    }
  }

  /** The loop ticks at every moment up to the first at which the stop event is set or after which it does not
      go on, and at no later one. */
  lemma {:induction false} LoopTicks(s: Sched, hook: Hook, observers: seq<Observer>, repeats: bool, maxErrors: int,
                                     moments: seq<(bool, Fate)>) returns (k: nat)
    ensures k <= |moments|
    ensures Loop(s, hook, observers, repeats, maxErrors, moments) == Through(s, hook, observers, moments, k)
    ensures forall j :: 0 <= j < k ==> !moments[j].0
    ensures forall j :: 0 <= j < k - 1 ==> GoesOn(s, hook, observers, repeats, maxErrors, moments, j)
    ensures k < |moments| ==>
      moments[k].0 || (k > 0 && !GoesOn(s, hook, observers, repeats, maxErrors, moments, k - 1))
    decreases |moments|
  {
    hide Tick;
    k := 0;
    if moments != [] && !moments[0].0 {
      var (ticked, how) := Tick(s, hook, observers, moments[0].1);
      ThroughRest(s, hook, observers, moments, 0);
      k := 1;
      if how != Escaped && repeats && ticked.errors < maxErrors {
        var more := LoopTicks(ticked, hook, observers, repeats, maxErrors, moments[1..]);
        forall j: nat | j < |moments| - 1
          ensures Through(s, hook, observers, moments, j + 1) == Through(ticked, hook, observers, moments[1..], j)
        {
          ThroughRest(s, hook, observers, moments, j);
        }
        GoesOnRest(s, hook, observers, repeats, maxErrors, moments);
        k := more + 1;
        if more > 0 {
          ThroughRest(s, hook, observers, moments, more - 1);
        }
      }
    }
  }

  lemma GoesOnRest(s: Sched, hook: Hook, observers: seq<Observer>, repeats: bool, maxErrors: int,
                   moments: seq<(bool, Fate)>)
    requires moments != []
    ensures forall j :: 1 <= j < |moments| ==>
      (GoesOn(s, hook, observers, repeats, maxErrors, moments, j) <==>
       GoesOn(Tick(s, hook, observers, moments[0].1).0, hook, observers, repeats, maxErrors, moments[1..], j - 1))
  {
    hide Tick;
    forall j | 1 <= j < |moments|
      ensures GoesOn(s, hook, observers, repeats, maxErrors, moments, j) <==>
        GoesOn(Tick(s, hook, observers, moments[0].1).0, hook, observers, repeats, maxErrors, moments[1..], j - 1)
    {
      ThroughRest(s, hook, observers, moments, j - 1);
      ThroughRest(s, hook, observers, moments, j);
    }
  }

  // ---- lease gating -----------------------------------------------------------------------------

  function Gates(hook: Hook): nat {
    match hook
    case NoHook => 0
    case UserHook(_, inner) => Gates(inner)
    case Gate(_, existing) => 1 + Gates(existing)
  }

  function Releases(observers: seq<Observer>): nat {
    if observers == [] then 0
    else Releases(observers[..|observers| - 1]) + if observers[|observers| - 1].ReleaseObserver? then 1 else 0
  }

  /** A hook without a gate lets the run through. */
  predicate Lets(hook: Hook, fate: Fate) {
    match hook
    case NoHook => true
    case UserHook(id, inner) => fate.answers(id) == Allows && Lets(inner, fate)
    case Gate(_, _) => false
  }

  /** What the only gate of the hook got, if it was reached. */
  function GrantOf(hook: Hook, fate: Fate): Option<Grant> {
    match hook
    case NoHook => None
    case UserHook(id, inner) => if fate.answers(id) == Allows then GrantOf(inner, fate) else None
    case Gate(id, existing) => if Lets(existing, fate) then Some(fate.grants(id)) else None
  }

  lemma AskWithoutGate(s: Sched, hook: Hook, fate: Fate)
    requires Gates(hook) == 0
    ensures Ask(s, hook, fate).0 == s && (Ask(s, hook, fate).1 == Proceeds <==> Lets(hook, fate))
  {
  }

  lemma {:induction false} AskOneGate(s: Sched, hook: Hook, fate: Fate)
    requires Gates(hook) == 1
    ensures var g := GrantOf(hook, fate);
      (g.Some? ==> Ask(s, hook, fate) == Pass(s, g.value))
      && (g.None? ==> Ask(s, hook, fate).0 == s && Ask(s, hook, fate).1 != Proceeds)
  {
    match hook
    case UserHook(id, inner) => AskOneGate(s, inner, fate);
    case Gate(id, existing) => AskWithoutGate(s, existing, fate);
  }

  /** The lease is returned: the release observer is reached and takes effect. */
  predicate Released(observers: seq<Observer>, i: nat, release: Effect, cut: Option<Interruption>)
    decreases |observers| - i
  {
    i < |observers| &&
    if cut.Some? && cut.value.observer == i then cut.value.done && observers[i].ReleaseObserver?
    else (observers[i].ReleaseObserver? && release != ThrowsBefore) || Released(observers, i + 1, release, cut)
  }

  function ReleasesFrom(observers: seq<Observer>, i: nat): nat
    decreases |observers| - i
  {
    if i >= |observers| then 0
    else ReleasesFrom(observers, i + 1) + if observers[i].ReleaseObserver? then 1 else 0
  }

  lemma {:induction false} ReleasesCount(observers: seq<Observer>, i: nat)
    requires i <= |observers|
    ensures Releases(observers) == Releases(observers[..i]) + ReleasesFrom(observers, i)
    decreases |observers| - i
  {
    if i < |observers| {
      ReleasesCount(observers, i + 1);
      assert observers[..i + 1][..i] == observers[..i];
    } else {
      assert observers[..i] == observers;
    }
  }

  lemma {:induction false} NotifyNone(s: Sched, observers: seq<Observer>, i: nat, release: Effect,
                                      cut: Option<Interruption>)
    requires ReleasesFrom(observers, i) == 0
    ensures Notify(s, observers, i, release, cut).0 == s && !Released(observers, i, release, cut)
    decreases |observers| - i
  {
    if i < |observers| {
      NotifyNone(s, observers, i + 1, release, cut);
    }
  }

  lemma {:induction false} NotifyOne(s: Sched, observers: seq<Observer>, i: nat, release: Effect,
                                     cut: Option<Interruption>)
    requires ReleasesFrom(observers, i) == 1
    ensures Notify(s, observers, i, release, cut).0
      == if Released(observers, i, release, cut) then Log(s, Release) else s
    decreases |observers| - i
  {
    if observers[i].ReleaseObserver? {
      NotifyNone(Observe(s, observers[i], release), observers, i + 1, release, cut);
    } else {
      NotifyOne(s, observers, i + 1, release, cut);
    }
  }

  function LeaseOf(g: Grant): Option<Fence> {
    if g.WithLease? then Some(g.lease) else None
  }

  predicate Runs(g: Option<Grant>) {
    g.Some? && (g.value.WithoutDetails? || g.value.WithLease?)
  }

  /** Everything one tick of a gated pipeline logs. */
  function TickEntries(run: nat, hook: Hook, observers: seq<Observer>, fate: Fate): seq<Entry> {
    match GrantOf(hook, fate)
    case None => []
    case Some(g) =>
      [Acquire(run, Taken(g), LeaseOf(g))] +
      if !Runs(Some(g)) then []
      else [Started(run, LeaseOf(g)), Ended(run, fate.outcome)]
           + if Released(observers, 0, fate.release, fate.interruption) then [Release] else []
  }

  lemma PerformedLog(s: Sched, outcome: Outcome)
    ensures var after := Performed(s, outcome);
      && after.log == s.log + [Started(s.runNumber + 1, s.fence), Ended(s.runNumber + 1, outcome)]
      && after.runNumber == s.runNumber + 1 && after.fence == s.fence
  {
  }

  /** One tick of a gated pipeline. The run starts with the fence of the lease acquired for its own number just
      before it, or with none when the coordinator offers no details; and no fence is left behind unless the
      notification was cut short. */
  lemma TickIs(s: Sched, hook: Hook, observers: seq<Observer>, fate: Fate)
    requires Gates(hook) == 1 && Releases(observers) == 1
    ensures var after := Tick(s, hook, observers, fate).0;
      && after.log == s.log + TickEntries(s.runNumber + 1, hook, observers, fate)
      && (Runs(GrantOf(hook, fate)) ==> after.runNumber == s.runNumber + 1)
      && (!Runs(GrantOf(hook, fate)) ==> after.runNumber == s.runNumber)
      && after.fence == (if GrantOf(hook, fate).None? then s.fence
                         else if Runs(GrantOf(hook, fate)) && CutShort(observers, fate)
                         then LeaseOf(GrantOf(hook, fate).value) else None)
  {
    hide Ask;
    hide Notify;
    hide Performed;
    hide Released;
    hide GrantOf;
    hide Gates;
    hide Releases;
    AskOneGate(s, hook, fate);
    if Runs(GrantOf(hook, fate)) {
      var g := GrantOf(hook, fate).value;
      TickRuns(s, hook, observers, fate, g);
      PerformedLog(Pass(s, g).0, fate.outcome);
      hide Tick;
      hide CutShort;
      RunLog(s.log, Acquire(s.runNumber + 1, Taken(g), LeaseOf(g)), Started(s.runNumber + 1, LeaseOf(g)),
             Ended(s.runNumber + 1, fate.outcome));
    }
  }

  lemma RunLog(log: seq<Entry>, a: Entry, b: Entry, c: Entry)
    ensures log + [a] + [b, c] == log + ([a] + ([b, c] + []))
    ensures log + [a] + [b, c] + [Release] == log + ([a] + ([b, c] + [Release]))
  {
  }

  /** The tick of a run that was let through: performed, notified, and the fence cleared if that went to the end. */
  lemma TickRuns(s: Sched, hook: Hook, observers: seq<Observer>, fate: Fate, g: Grant)
    requires Ask(s, hook, fate) == Pass(s, g) && Runs(Some(g)) && Releases(observers) == 1
    ensures var ended := Performed(Pass(s, g).0, fate.outcome);
      var notified := if Released(observers, 0, fate.release, fate.interruption) then Log(ended, Release) else ended;
      Tick(s, hook, observers, fate).0 == if CutShort(observers, fate) then notified else notified.(fence := None)
  {
    hide Ask;
    hide Notify;
    hide Performed;
    hide Released;
    var ended := Performed(Pass(s, g).0, fate.outcome);
    ReleasesCount(observers, 0);
    assert observers[..0] == [];
    hide Releases;
    NotifyOne(ended, observers, 0, fate.release, fate.interruption);
    NotifyReaches(ended, observers, 0, fate.release, fate.interruption);
  }

  predicate CutShort(observers: seq<Observer>, fate: Fate) {
    fate.interruption.Some? && fate.interruption.value.observer < |observers|
  }

  lemma {:induction false} NotifyReaches(s: Sched, observers: seq<Observer>, i: nat, release: Effect,
                                         cut: Option<Interruption>)
    ensures Notify(s, observers, i, release, cut).1 <==> !(cut.Some? && i <= cut.value.observer < |observers|)
    decreases |observers| - i
  {
    if i < |observers| {
      NotifyReaches(Observe(s, observers[i], release), observers, i + 1, release, cut);
    }
  }

  /** The first answer of a user hook, in the order they are asked, that does not let the run through. */
  function Refusal(hook: Hook, fate: Fate): Option<Answer> {
    match hook
    case NoHook => None
    case UserHook(id, inner) => if fate.answers(id) != Allows then Some(fate.answers(id)) else Refusal(inner, fate)
    case Gate(_, existing) => Refusal(existing, fate)
  }

  lemma {:induction false} AskEndsAs(s: Sched, hook: Hook, fate: Fate)
    requires Gates(hook) <= 1
    ensures var result, g := Ask(s, hook, fate).1, GrantOf(hook, fate);
      && (result == Proceeds <==> Refusal(hook, fate).None? && (Gates(hook) == 0 || Runs(g)))
      && (result == Declines <==> Refusal(hook, fate) == Some(Refuses) || g == Some(Denied))
      && (g.Some? <==> Gates(hook) == 1 && Refusal(hook, fate).None?)
  {
    match hook
    case NoHook =>
    case UserHook(id, inner) => AskEndsAs(s, inner, fate);
    case Gate(id, existing) =>
      AskEndsAs(s, existing, fate);
      AskWithoutGate(s, existing, fate);
  }

  /** How a tick ends, with at most one gate: a run takes place when no user hook objects and the gate, if there is
      one, has the lease; it counts as done unless the notification was cut short or it was cancelled. The tick is
      passed over when the objection or the coordinator's answer was a refusal. */
  lemma TickEndsAs(s: Sched, hook: Hook, observers: seq<Observer>, fate: Fate)
    requires Gates(hook) <= 1
    ensures var (after, how) := Tick(s, hook, observers, fate);
      var runs := Refusal(hook, fate).None? && (Gates(hook) == 0 || Runs(GrantOf(hook, fate)));
      && after.runNumber == s.runNumber + (if runs then 1 else 0)
      && (how == Ran <==>
            && runs && !(fate.interruption.Some? && fate.interruption.value.observer < |observers|)
            && fate.outcome != IsCancelled && !(fate.outcome == FailsWithError && fate.backoffCancelled))
      && (how == Skipped <==> Refusal(hook, fate) == Some(Refuses) || GrantOf(hook, fate) == Some(Denied))
  {
    AskEndsAs(s, hook, fate);
    AskRunNumber(s, hook, fate);
    var asked := Ask(s, hook, fate).0;
    var ended := Performed(asked, fate.outcome);
    PerformedLog(asked, fate.outcome);
    NotifyReaches(ended, observers, 0, fate.release, fate.interruption);
    var _ := NotifyAppends(ended, observers, 0, fate.release, fate.interruption);
    hide Ask;
    hide Notify;
    hide Performed;
    hide Refusal;
    hide GrantOf;
    hide Gates;
  }

  // ---- every lease is released once -------------------------------------------------------------

  /** Broken: an acquire attempt while a lease is out, or a release without one. */
  datatype Lease = Free | Held | Broken

  function Follow(lease: Lease, e: Entry): Lease {
    match e
    case Acquire(_, granted, _) => if lease != Free then Broken else if granted then Held else Free
    case Release => if lease == Held then Free else Broken
    case _ => lease
  }

  function Status(log: seq<Entry>): Lease {
    if log == [] then Free else Follow(Status(log[..|log| - 1]), log[|log| - 1])
  }

  lemma StatusSnoc(log: seq<Entry>, e: Entry)
    ensures Status(log + [e]) == Follow(Status(log), e)
  {
    assert (log + [e])[..|log|] == log;
  }

  /** The lease was taken, but the hook then failed, the notification was cut short before the release, or the
      release itself failed before the lease was returned. */
  predicate Leaks(hook: Hook, observers: seq<Observer>, fate: Fate) {
    var g := GrantOf(hook, fate);
    g.Some? && Taken(g.value) && !(Runs(g) && Released(observers, 0, fate.release, fate.interruption))
  }

  lemma TickStatus(s: Sched, hook: Hook, observers: seq<Observer>, fate: Fate)
    requires Gates(hook) == 1 && Releases(observers) == 1
    ensures var before, after := Status(s.log), Status(Tick(s, hook, observers, fate).0.log);
      after == if GrantOf(hook, fate).None? then before
               else if before != Free then Broken
               else if Leaks(hook, observers, fate) then Held else Free
  {
    TickIs(s, hook, observers, fate);
    hide Tick;
    hide Status;
    var run, g := s.runNumber + 1, GrantOf(hook, fate);
    if g.Some? {
      var acquire := Acquire(run, Taken(g.value), LeaseOf(g.value));
      var asked := s.log + [acquire];
      StatusSnoc(s.log, acquire);
      if Runs(g) {
        var started := Started(run, LeaseOf(g.value));
        var ended := Ended(run, fate.outcome);
        StatusSnoc(asked, started);
        StatusSnoc(asked + [started], ended);
        StatusSnoc(asked + [started] + [ended], Release);
        hide Released;
        if Released(observers, 0, fate.release, fate.interruption) {
          assert s.log + TickEntries(run, hook, observers, fate) == asked + [started] + [ended] + [Release];
        } else {
          assert s.log + TickEntries(run, hook, observers, fate) == asked + [started] + [ended];
        }
      } else {
        assert s.log + TickEntries(run, hook, observers, fate) == asked;
      }
    } else {
      assert s.log + TickEntries(run, hook, observers, fate) == s.log;
    }
  }

  /** A release that fails before the lease is returned: the run is over, the fence is gone, and the lease is
      still out. */
  lemma FailedReleaseLeaks(s: Sched, hook: Hook, observers: seq<Observer>, fate: Fate)
    requires Gates(hook) == 1 && Releases(observers) == 1 && Status(s.log) == Free
    requires Runs(GrantOf(hook, fate)) && fate.release == ThrowsBefore && fate.interruption == None
    ensures var (after, ticked) := Tick(s, hook, observers, fate);
      Status(after.log) == Held && after.fence == None && (ticked == Ran <==> !CancelledInside(fate))
  {
    TickStatus(s, hook, observers, fate);
    TickIs(s, hook, observers, fate);
    AskOneGate(s, hook, fate);
    NotifyReaches(Performed(Ask(s, hook, fate).0, fate.outcome), observers, 0, fate.release, None);
    NeverReleased(observers, 0);
    hide Ask;
    hide Notify;
    hide Status;
    hide Performed;
  }

  lemma {:induction false} NeverReleased(observers: seq<Observer>, i: nat)
    ensures !Released(observers, i, ThrowsBefore, None)
    decreases |observers| - i
  {
    if i < |observers| {
      NeverReleased(observers, i + 1);
    }
  }

  // ---- two gates --------------------------------------------------------------------------------

  /** The outer gate is reached, after the inner one took a lease. */
  predicate Doubled(hook: Hook, fate: Fate) {
    match hook
    case NoHook => false
    case UserHook(id, inner) => fate.answers(id) == Allows && Doubled(inner, fate)
    case Gate(id, existing) => Gates(existing) == 1 && Runs(GrantOf(existing, fate))
  }

  lemma PassStatus(s: Sched, g: Grant)
    ensures Status(Pass(s, g).0.log) == if Status(s.log) != Free then Broken else if Taken(g) then Held else Free
    ensures Pass(s, g).1 == Proceeds <==> Runs(Some(g))
  {
    StatusSnoc(s.log, Acquire(s.runNumber + 1, Taken(g), LeaseOf(g)));
  }

  lemma {:induction false} AskTwoGates(s: Sched, hook: Hook, fate: Fate)
    requires Gates(hook) == 2 && Status(s.log) == Free
    ensures Status(Ask(s, hook, fate).0.log) == Broken <==> Doubled(hook, fate)
    ensures Ask(s, hook, fate).1 == Proceeds ==> Doubled(hook, fate)
  {
    hide Status;
    match hook
    case UserHook(id, inner) => AskTwoGates(s, inner, fate);
    case Gate(id, existing) =>
      AskOneGate(s, existing, fate);
      var g := GrantOf(existing, fate);
      if g.Some? {
        PassStatus(s, g.value);
        PassStatus(Pass(s, g.value).0, fate.grants(id));
      }
      hide Pass;
      hide GrantOf;
  }

  lemma {:induction false} BrokenStays(log: seq<Entry>, more: seq<Entry>)
    requires Status(log) == Broken
    ensures Status(log + more) == Broken
    decreases |more|
  {
    if more == [] {
      assert log + more == log;
    } else {
      BrokenStays(log, more[..|more| - 1]);
      StatusSnoc(log + more[..|more| - 1], more[|more| - 1]);
      assert log + more == (log + more[..|more| - 1]) + [more[|more| - 1]];
    }
  }

  lemma {:induction false} NotifyAppends(s: Sched, observers: seq<Observer>, i: nat, release: Effect,
                                         cut: Option<Interruption>) returns (more: seq<Entry>)
    ensures Notify(s, observers, i, release, cut).0.log == s.log + more
    ensures Notify(s, observers, i, release, cut).0.runNumber == s.runNumber
    decreases |observers| - i
  {
    more := [];
    if i < |observers| {
      if cut.Some? && cut.value.observer == i {
        more := if cut.value.done && observers[i].ReleaseObserver? then [Release] else [];
      } else {
        var first := if observers[i].ReleaseObserver? && release != ThrowsBefore then [Release] else [];
        var rest := NotifyAppends(Observe(s, observers[i], release), observers, i + 1, release, cut);
        assert s.log + (first + rest) == (s.log + first) + rest;
        more := first + rest;
      }
    }
  }

  lemma AskRunNumber(s: Sched, hook: Hook, fate: Fate)
    ensures Ask(s, hook, fate).0.runNumber == s.runNumber
  {
  }

  /** A hook with two gates: a tick breaks the pairing exactly when the outer gate is reached with the inner lease
      out, and no run can take place without that. */
  lemma TwoGatesBreak(s: Sched, hook: Hook, observers: seq<Observer>, fate: Fate)
    requires Gates(hook) == 2 && Status(s.log) == Free
    ensures var after := Tick(s, hook, observers, fate).0;
      && (Status(after.log) == Broken <==> Doubled(hook, fate))
      && (after.runNumber == s.runNumber + 1 ==> Status(after.log) == Broken)
  {
    AskTwoGates(s, hook, fate);
    AskRunNumber(s, hook, fate);
    var asked := Ask(s, hook, fate).0;
    if Ask(s, hook, fate).1 == Proceeds {
      PerformedLog(asked, fate.outcome);
      var ended := Performed(asked, fate.outcome);
      var more := NotifyAppends(ended, observers, 0, fate.release, fate.interruption);
      BrokenStays(asked.log, [Started(asked.runNumber + 1, asked.fence), Ended(asked.runNumber + 1, fate.outcome)]);
      BrokenStays(ended.log, more);
    }
    hide Ask;
    hide Notify;
    hide Status;
    hide Performed;
    hide Doubled;
    hide Gates;
  }

  // ---- whole histories --------------------------------------------------------------------------

  /** The pool wires the pipeline, the user sets another hook, or the scheduler ticks. */
  datatype Event = PoolStarts | SetsHook(hook: Hook) | Ticks(fate: Fate)

  function Rewired(w: Wiring, events: seq<Event>): Wiring {
    if events == [] then w
    else
      var before := Rewired(w, events[..|events| - 1]);
      match events[|events| - 1]
      case PoolStarts => Wire(before)
      case SetsHook(hook) => before.(hook := hook)
      case Ticks(_) => before
  }

  function After(w: Wiring, s: Sched, events: seq<Event>): Sched {
    if events == [] then s
    else
      var front, last := events[..|events| - 1], events[|events| - 1];
      var before, wiring := After(w, s, front), Rewired(w, front);
      if last.Ticks? then Tick(before, wiring.hook, wiring.observers, last.fate).0 else before
  }

  ghost predicate Unwired(w: Wiring) {
    Gates(w.hook) == 0 && Releases(w.observers) == 0 && w.wired == None && !w.releaseAdded
  }

  ghost predicate Wired(w: Wiring) {
    Gates(w.hook) == 1 && Releases(w.observers) == 1 && w.wired == Some(w.hook) && w.releaseAdded
  }

  /** All gates in the hook were made before the `n`th. */
  predicate Below(hook: Hook, n: nat) {
    match hook
    case NoHook => true
    case UserHook(_, inner) => Below(inner, n)
    case Gate(id, existing) => id < n && Below(existing, n)
  }

  /** Every wiring: the current hook ends up under exactly one new gate or is the wired one already, a gate is a
      new object each time, and the release observer is there afterwards, added at most once. */
  lemma WireAlways(w: Wiring)
    ensures var next := Wire(w);
      && next.releaseAdded && next.wired == Some(next.hook)
      && Releases(next.observers) == Releases(w.observers) + (if w.releaseAdded then 0 else 1)
      && (next.hook == w.hook <==> w.wired == Some(w.hook))
      && (next.hook != w.hook ==> next.hook.Gate? && next.hook.existing == w.hook)
      && (Below(w.hook, w.gates) ==>
            Below(next.hook, next.gates) && (next.hook != w.hook ==> !Below(next.hook, w.gates)))
  {
    assert (w.observers + [ReleaseObserver])[..|w.observers|] == w.observers;
    if Below(w.hook, w.gates) {
      BelowMore(w.hook, w.gates, w.gates + 1);
    }
  }

  lemma BelowMore(hook: Hook, n: nat, m: nat)
    requires n <= m && Below(hook, n)
    ensures Below(hook, m)
  {
  }

  /** Wiring gates a pipeline once; wiring it again changes nothing. */
  lemma WiringIsIdempotent(w: Wiring)
    requires Unwired(w)
    ensures Wired(Wire(w)) && Wire(Wire(w)) == Wire(w)
  {
    assert (w.observers + [ReleaseObserver])[..|w.observers|] == w.observers;
  }

  /** When the user has set another hook on a wired pipeline, wiring leaves one gate exactly when that hook is the
      wired one itself or has no gate in it; the release observer is never added twice. */
  lemma RewiringKeepsOneGate(w: Wiring, hook: Hook)
    requires Wired(w)
    ensures var again := Wire(w.(hook := hook));
      && (Gates(again.hook) == 1 <==> hook == w.hook || Gates(hook) == 0)
      && Releases(again.observers) == 1
      && (Gates(again.hook) == 1 ==> Wired(again))
  {
  }

  /** In particular a user hook that calls the wired one gets a second gate around it, and then every run breaks
      the pairing of leases. */
  lemma RewrappingStacksGates(w: Wiring, s: Sched, id: nat, fate: Fate)
    requires Wired(w) && Status(s.log) == Free
    ensures var again := Wire(w.(hook := UserHook(id, w.hook)));
      && Gates(again.hook) == 2
      && (Tick(s, again.hook, again.observers, fate).0.runNumber == s.runNumber + 1 ==>
            Status(Tick(s, again.hook, again.observers, fate).0.log) == Broken)
  {
    assert Gates(UserHook(id, w.hook)) == 1;
    assert w.hook != UserHook(id, w.hook);
    var again := Wire(w.(hook := UserHook(id, w.hook)));
    TwoGatesBreak(s, again.hook, again.observers, fate);
    hide Tick;
    hide Status;
  }

  /** Whenever the scheduler ticks, the hook has one gate and one observer releases. */
  ghost predicate Gated(w: Wiring, events: seq<Event>) {
    forall i :: 0 <= i < |events| && events[i].Ticks? ==> OneGateAt(w, events, i)
  }

  predicate OneGateAt(w: Wiring, events: seq<Event>, i: nat)
    requires i < |events|
  {
    Gates(Rewired(w, events[..i]).hook) == 1 && Releases(Rewired(w, events[..i]).observers) == 1
  }

  /** The event is a tick that reaches its gate. */
  predicate Attempts(w: Wiring, events: seq<Event>, i: nat)
    requires i < |events|
  {
    events[i].Ticks? && GrantOf(Rewired(w, events[..i]).hook, events[i].fate).Some?
  }

  predicate LeaksAt(w: Wiring, events: seq<Event>, i: nat)
    requires i < |events|
  {
    var wiring := Rewired(w, events[..i]);
    events[i].Ticks? && Leaks(wiring.hook, wiring.observers, events[i].fate)
  }

  /** The event is a tick that runs with a lease and whose notification is cut short. */
  predicate LeavesFence(w: Wiring, events: seq<Event>, i: nat)
    requires i < |events|
  {
    var wiring := Rewired(w, events[..i]);
    events[i].Ticks? && CutShort(wiring.observers, events[i].fate)
    && var g := GrantOf(wiring.hook, events[i].fate); g.Some? && g.value.WithLease?
  }

  ghost predicate SomeLeak(w: Wiring, events: seq<Event>) {
    exists i :: 0 <= i < |events| && LeaksAt(w, events, i)
  }

  ghost predicate AttemptAfterLeak(w: Wiring, events: seq<Event>) {
    exists i, j :: 0 <= i < j < |events| && LeaksAt(w, events, i) && Attempts(w, events, j)
  }

  /** The last tick that reached its gate left its fence behind. */
  ghost predicate FenceLeft(w: Wiring, events: seq<Event>) {
    exists i :: 0 <= i < |events| && LeavesFence(w, events, i) && NoAttemptAfter(w, events, i)
  }

  /** What an event meets does not depend on later events. */
  lemma FrontAgrees(w: Wiring, events: seq<Event>, i: nat)
    requires i < |events| - 1
    ensures var front := events[..|events| - 1];
      && front[i] == events[i]
      && (LeaksAt(w, front, i) <==> LeaksAt(w, events, i)) && (Attempts(w, front, i) <==> Attempts(w, events, i))
      && (LeavesFence(w, front, i) <==> LeavesFence(w, events, i))
      && (OneGateAt(w, front, i) <==> OneGateAt(w, events, i))
  {
    assert events[..|events| - 1][..i] == events[..i];
  }

  lemma LeakSplit(w: Wiring, events: seq<Event>)
    requires events != []
    ensures SomeLeak(w, events) <==> SomeLeak(w, events[..|events| - 1]) || LeaksAt(w, events, |events| - 1)
  {
    hide LeaksAt;
    hide Attempts;
    var front := events[..|events| - 1];
    forall i | 0 <= i < |front|
      ensures LeaksAt(w, front, i) <==> LeaksAt(w, events, i)
    {
      FrontAgrees(w, events, i);
    }
  }

  lemma AttemptSplit(w: Wiring, events: seq<Event>)
    requires events != []
    ensures var front, n := events[..|events| - 1], |events| - 1;
      AttemptAfterLeak(w, events) <==> AttemptAfterLeak(w, front) || (SomeLeak(w, front) && Attempts(w, events, n))
  {
    hide LeaksAt;
    hide Attempts;
    var front, n := events[..|events| - 1], |events| - 1;
    forall i | 0 <= i < |front|
      ensures LeaksAt(w, front, i) <==> LeaksAt(w, events, i)
      ensures Attempts(w, front, i) <==> Attempts(w, events, i)
    {
      FrontAgrees(w, events, i);
    }
    if i, j :| 0 <= i < j < |events| && LeaksAt(w, events, i) && Attempts(w, events, j) {
      assert LeaksAt(w, front, i);
      assert j < n ==> Attempts(w, front, j);
    }
  }

  lemma GatedSplit(w: Wiring, events: seq<Event>)
    requires events != [] && Gated(w, events)
    ensures Gated(w, events[..|events| - 1])
    ensures events[|events| - 1].Ticks? ==> OneGateAt(w, events, |events| - 1)
  {
    hide OneGateAt;
    forall i | 0 <= i < |events| - 1
      ensures events[..|events| - 1][i] == events[i]
      ensures OneGateAt(w, events[..|events| - 1], i) <==> OneGateAt(w, events, i)
    {
      FrontAgrees(w, events, i);
    }
  }

  /** Over any history of a gated pipeline: every lease acquired is released exactly once before the next acquire
      attempt, unless an attempt follows a tick that leaked its lease; and a lease is still out exactly when some
      tick leaked. Without leaks, every lease is returned. */
  lemma {:induction false} LeasesPaired(w: Wiring, s: Sched, events: seq<Event>)
    requires Gated(w, events) && Status(s.log) == Free
    ensures var after := After(w, s, events);
      && (Status(after.log) == Broken <==> AttemptAfterLeak(w, events))
      && (Status(after.log) == Held <==> SomeLeak(w, events) && !AttemptAfterLeak(w, events))
    decreases |events|
  {
    hide Status;
    hide Tick;
    hide SomeLeak;
    hide AttemptAfterLeak;
    hide Gated;
    hide Rewired;
    if events == [] {
      NothingHappened(w);
    } else {
      var front, last := events[..|events| - 1], events[|events| - 1];
      LeakSplit(w, events);
      AttemptSplit(w, events);
      GatedSplit(w, events);
      LeasesPaired(w, s, front);
      if last.Ticks? {
        TickStatus(After(w, s, front), Rewired(w, front).hook, Rewired(w, front).observers, last.fate);
      }
      hide GrantOf;
      hide Gates;
      hide Releases;
    }
  }

  lemma NothingHappened(w: Wiring)
    ensures !SomeLeak(w, []) && !AttemptAfterLeak(w, []) && !FenceLeft(w, [])
  {
  }

  /** The error count and the history follow the runs over any history, gated or not. */
  lemma {:induction false} HistoryKept(w: Wiring, s: Sched, events: seq<Event>)
    requires Kept(s)
    ensures Kept(After(w, s, events))
    decreases |events|
  {
    hide Kept;
    hide Tick;
    if events != [] {
      var front, last := events[..|events| - 1], events[|events| - 1];
      HistoryKept(w, s, front);
      if last.Ticks? {
        TickKept(After(w, s, front), Rewired(w, front).hook, Rewired(w, front).observers, last.fate);
      }
    }
  }

  /** Each run starts right after a successful acquire for its own number, with the fence that acquire gave. */
  ghost predicate RunsFenced(log: seq<Entry>) {
    forall n :: 0 <= n < |log| && log[n].Started? ==>
      n > 0 && log[n - 1] == Acquire(log[n].run, true, log[n].fence)
  }

  lemma RunsFencedMore(log: seq<Entry>, run: nat, hook: Hook, observers: seq<Observer>, fate: Fate)
    requires RunsFenced(log)
    ensures RunsFenced(log + TickEntries(run, hook, observers, fate))
  {
    hide GrantOf;
    hide Released;
    var entries := TickEntries(run, hook, observers, fate);
    var more := log + entries;
    forall n | 0 <= n < |more| && more[n].Started?
      ensures n > 0 && more[n - 1] == Acquire(more[n].run, true, more[n].fence)
    {
      if n >= |log| {
        assert more[n] == entries[n - |log|];
        assert n == |log| + 1 && more[n - 1] == entries[0];
      }
    }
  }

  predicate NoAttemptAfter(w: Wiring, events: seq<Event>, i: nat) {
    forall j :: i < j < |events| ==> !Attempts(w, events, j)
  }

  lemma NoAttemptSplit(w: Wiring, events: seq<Event>, i: nat)
    requires i < |events| - 1
    ensures NoAttemptAfter(w, events, i) <==>
      NoAttemptAfter(w, events[..|events| - 1], i) && !Attempts(w, events, |events| - 1)
  {
    hide Attempts;
    var front := events[..|events| - 1];
    forall j | 0 <= j < |front|
      ensures Attempts(w, front, j) <==> Attempts(w, events, j)
    {
      FrontAgrees(w, events, j);
    }
  }

  lemma FenceSplit(w: Wiring, events: seq<Event>)
    requires events != []
    ensures var front, n := events[..|events| - 1], |events| - 1;
      FenceLeft(w, events) <==> LeavesFence(w, events, n) || (FenceLeft(w, front) && !Attempts(w, events, n))
  {
    hide LeavesFence;
    hide Attempts;
    var front, n := events[..|events| - 1], |events| - 1;
    forall i | 0 <= i < |front|
      ensures LeavesFence(w, front, i) <==> LeavesFence(w, events, i)
      ensures NoAttemptAfter(w, events, i) <==> NoAttemptAfter(w, front, i) && !Attempts(w, events, n)
    {
      FrontAgrees(w, events, i);
      NoAttemptSplit(w, events, i);
    }
    assert NoAttemptAfter(w, events, n);
    hide NoAttemptAfter;
  }

  /** Over any history of a gated pipeline each run carries the fence of the lease acquired for its own number;
      and a fence is left behind exactly when the last tick that reached its gate ran with a lease and had its
      notification cut short. */
  lemma {:induction false} FenceFollowsTheLease(w: Wiring, s: Sched, events: seq<Event>)
    requires Gated(w, events) && RunsFenced(s.log) && s.fence == None
    ensures RunsFenced(After(w, s, events).log)
    ensures After(w, s, events).fence.Some? <==> FenceLeft(w, events)
    decreases |events|
  {
    hide RunsFenced;
    hide Tick;
    hide Rewired;
    hide FenceLeft;
    hide Gated;
    if events == [] {
      NothingHappened(w);
    } else {
      var front, last, n := events[..|events| - 1], events[|events| - 1], |events| - 1;
      GatedSplit(w, events);
      FenceSplit(w, events);
      FenceFollowsTheLease(w, s, front);
      var before, wiring := After(w, s, front), Rewired(w, front);
      if last.Ticks? {
        TickIs(before, wiring.hook, wiring.observers, last.fate);
        RunsFencedMore(before.log, before.runNumber + 1, wiring.hook, wiring.observers, last.fate);
      }
      hide GrantOf;
      hide CutShort;
      hide Gates;
      hide Releases;
      hide TickEntries;
    }
  }

  /** The shortest such history: a cut notification leaves the lease's fence, and a refused attempt keeps it. */
  lemma StaleFence(w: Wiring, s: Sched, fate: Fate, lease: Fence, refused: Fate)
    requires Wired(w) && CutShort(w.observers, fate) && GrantOf(w.hook, fate) == Some(WithLease(lease))
    requires GrantOf(w.hook, refused).None?
    ensures After(w, s, [Ticks(fate), Ticks(refused)]).fence == Some(lease)
  {
    hide Tick;
    var events := [Ticks(fate), Ticks(refused)];
    assert events[..1] == [Ticks(fate)] && [Ticks(fate)][..0] == [];
    assert Rewired(w, []) == w && After(w, s, []) == s;
    assert Rewired(w, [Ticks(fate)]) == w;
    TickIs(s, w.hook, w.observers, fate);
    TickIs(After(w, s, [Ticks(fate)]), w.hook, w.observers, refused);
  }

  /** As long as no hook is set from outside, a wired pipeline stays gated whatever the pool and the scheduler do. */
  lemma {:induction false} StaysGated(w: Wiring, events: seq<Event>)
    requires Wired(w) && forall i :: 0 <= i < |events| ==> !events[i].SetsHook?
    ensures Rewired(w, events) == w && Gated(w, events)
    decreases |events|
  {
    hide Gates;
    hide Releases;
    if events != [] {
      var front := events[..|events| - 1];
      StaysGated(w, front);
      forall i | 0 <= i < |front|
        ensures OneGateAt(w, front, i) <==> OneGateAt(w, events, i)
      {
        FrontAgrees(w, events, i);
      }
      assert events[..|front|] == front;
    }
  }
}
