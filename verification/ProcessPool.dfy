/** The worker-pool lifecycle between `on_start` and `on_stop`: every stretch of code between two awaits
    is one atomic step, and any number of batch tasks interleave. What `runner.submit` does is a step
    outcome chosen by the environment. */
module ProcessPool {
  import opened Options

  datatype Reason = Timeout | Cancellation | Requested

  datatype Kind = Recycled | Aborted

  /** A pool object; `serial` tells apart the pools opened one after another. */
  datatype Runner = Runner(serial: nat, closed: bool)

  /** How an awaited `submit` ends. */
  datatype Submission = Succeeded | Cancelled | CodecFailed | TimedOut | WorkerFailed | OtherFailure

  datatype Result = Returned | RaisedInvalidated(reason: Reason) | RaisedCancelled | RaisedTimeout | RaisedError

  /** A batch task; `accepted` says that its pool was open when it submitted. */
  datatype Task =
    | Rejected
    | InFlight(generation: nat, index: nat, serial: nat, accepted: bool)
    | Finished(generation: nat, index: nat, result: Result)

  datatype Retirement = Retirement(generation: nat, reason: Reason, kind: Kind)

  datatype State = State(
    runner: Option<Runner>,
    generation: nat,
    invalidated: map<nat, Reason>,
    generationTasks: map<nat, set<nat>>,
    batchIndex: nat,
    pools: nat,
    tasks: map<nat, Task>,
    cancelRequested: set<nat>,
    retired: seq<Retirement>)

  function Init(): State {
    State(Some(Runner(0, false)), 0, map[], map[], 0, 1, map[], {}, [])
  }

  function TasksOf(registry: map<nat, set<nat>>, generation: nat): set<nat> {
    if generation in registry then registry[generation] else {}
  }

  /** `_require_live_runner`, registration, and the batch index, up to the await. */
  function Begin(s: State, t: nat): State {
    match s.runner
    case None => s.(tasks := s.tasks[t := Rejected])
    case Some(runner) =>
      s.(generationTasks := s.generationTasks[s.generation := TasksOf(s.generationTasks, s.generation) + {t}],
         batchIndex := s.batchIndex + 1,
         tasks := s.tasks[t := InFlight(s.generation, s.batchIndex, runner.serial, !runner.closed)])
  }

  /** `_recycle_runner` on behalf of task `t`; opening the new pool may raise after the old one is closed. */
  function Recycle(s: State, t: nat, generation: nat, reason: Reason, reopens: bool): State {
    if s.runner.None? || generation != s.generation then s
    else
      s.(invalidated := s.invalidated[generation := reason],
         cancelRequested := s.cancelRequested + (TasksOf(s.generationTasks, generation) - {t}),
         generation := s.generation + 1,
         runner := Some(if reopens then Runner(s.pools, false) else s.runner.value.(closed := true)),
         pools := if reopens then s.pools + 1 else s.pools,
         retired := s.retired + [Retirement(generation, reason, Recycled)])
  }

  /** `_abort_runner`: always the current generation, whoever asks. */
  function AbortRunner(s: State, reason: Reason): State {
    if s.runner.None? then s
    else
      s.(invalidated := s.invalidated[s.generation := reason],
         cancelRequested := s.cancelRequested + TasksOf(s.generationTasks, s.generation),
         runner := None,
         generation := s.generation + 1,
         retired := s.retired + [Retirement(s.generation, reason, Aborted)])
  }

  function Unregister(s: State, generation: nat, t: nat): State {
    var left := TasksOf(s.generationTasks, generation) - {t};
    if TasksOf(s.generationTasks, generation) == {} then s
    else s.(generationTasks :=
        if left == {} then s.generationTasks - {generation} else s.generationTasks[generation := left])
  }

  function Checked(s: State, generation: nat, otherwise: Result): Result {
    if generation in s.invalidated then RaisedInvalidated(s.invalidated[generation]) else otherwise
  }

  /** The stretch after the await: the except clauses, `finally`, and the check before returning. */
  function Finish(s: State, t: nat, outcome: Submission, reopens: bool): State
    requires t in s.tasks && s.tasks[t].InFlight?
  {
    var task := s.tasks[t];
    var g := task.generation;
    var (next, result) :=
      match outcome
      case Succeeded => (s, Checked(s, g, Returned))
      case Cancelled =>
        if g in s.invalidated then (s, RaisedInvalidated(s.invalidated[g]))
        else (AbortRunner(s, Cancellation), RaisedCancelled)
      case CodecFailed => (s, RaisedError)
      case TimedOut =>
        var next := Recycle(s, t, g, Timeout, reopens);
        (next, if next != s && !reopens then RaisedError else RaisedTimeout)
      case WorkerFailed => (s, Checked(s, g, RaisedError))
      case OtherFailure => (s, RaisedError);
    Unregister(next, g, t).(tasks := s.tasks[t := Finished(g, task.index, result)])
  }

  // ---- runs -------------------------------------------------------------------------------------

  datatype Step =
    | BeginBatch(t: nat)
    | FinishBatch(t: nat, outcome: Submission, reopens: bool)
    | AbortInFlight

  predicate Enabled(s: State, step: Step) {
    match step
    case BeginBatch(t) => t !in s.tasks
    case FinishBatch(t, outcome, _) =>
      t in s.tasks && s.tasks[t].InFlight? && (outcome == Succeeded ==> s.tasks[t].accepted)
    case AbortInFlight => true
  }

  function Next(s: State, step: Step): State
    requires Enabled(s, step)
  {
    match step
    case BeginBatch(t) => Begin(s, t)
    case FinishBatch(t, outcome, reopens) => Finish(s, t, outcome, reopens)
    case AbortInFlight => AbortRunner(s, Requested)
  }

  /** `steps` is one possible interleaving from a freshly started middleware. */
  predicate Legal(steps: seq<Step>) {
    steps == [] || (Legal(steps[..|steps| - 1]) && Enabled(Run(steps[..|steps| - 1]), steps[|steps| - 1]))
  }

  function Run(steps: seq<Step>): State {
    if steps == [] then Init()
    else
      var s := Run(steps[..|steps| - 1]);
      if Enabled(s, steps[|steps| - 1]) then Next(s, steps[|steps| - 1]) else s
  }

  // ---- the invariant ----------------------------------------------------------------------------

  /** The invalidated generations are exactly those below the current one, each retired once, in order,
      and only the last retirement can be an abort; the pool is gone exactly when it was. */
  ghost predicate GenerationsInv(s: State) {
    && (forall g: nat :: g in s.invalidated <==> g < s.generation)
    && |s.retired| == s.generation
    && (forall i :: 0 <= i < |s.retired| ==>
          s.retired[i].generation == i && s.retired[i].reason == s.invalidated[i])
    && (forall i :: 0 <= i < |s.retired| && s.retired[i].kind == Aborted ==> i == |s.retired| - 1)
    && (s.runner.None? <==> s.retired != [] && s.retired[|s.retired| - 1].kind == Aborted)
  }

  ghost predicate TaskInv(s: State, t: nat)
    requires t in s.tasks
  {
    match s.tasks[t]
    case Rejected => s.runner.None?
    case Finished(g, index, _) => index < s.batchIndex && g <= s.generation
    case InFlight(g, index, serial, accepted) =>
      && index < s.batchIndex && g <= s.generation && serial < s.pools
      && (g == s.generation ==>
            s.runner.Some? && s.runner.value.serial == serial && (accepted <==> !s.runner.value.closed))
      && (g < s.generation ==> t in s.cancelRequested)
  }

  /** `_generation_tasks` lists exactly the in-flight tasks of each generation and no empty set. */
  ghost predicate RegistryInv(registry: map<nat, set<nat>>, tasks: map<nat, Task>) {
    && (forall g :: g in registry ==> registry[g] != {})
    && (forall g, t :: t in TasksOf(registry, g) <==> t in tasks && tasks[t].InFlight? && tasks[t].generation == g)
  }

  ghost predicate IndicesInv(tasks: map<nat, Task>) {
    forall t, u ::
      (t in tasks && u in tasks && !tasks[t].Rejected? && !tasks[u].Rejected? && tasks[t].index == tasks[u].index)
      ==> t == u
  }

  ghost predicate Inv(s: State) {
    && GenerationsInv(s)
    && RegistryInv(s.generationTasks, s.tasks)
    && IndicesInv(s.tasks)
    && (forall t :: t in s.tasks ==> TaskInv(s, t))
    && (s.runner.Some? ==> s.runner.value.serial < s.pools)
  }

  lemma BeginKeepsRegistry(s: State, t: nat)
    requires RegistryInv(s.generationTasks, s.tasks) && t !in s.tasks
    ensures RegistryInv(Begin(s, t).generationTasks, Begin(s, t).tasks)
  {
    var next := Begin(s, t);
    forall g, u
      ensures u in TasksOf(next.generationTasks, g)
        <==> u in next.tasks && next.tasks[u].InFlight? && next.tasks[u].generation == g
    {
      assert u in TasksOf(s.generationTasks, g) <==> u in s.tasks && s.tasks[u].InFlight? && s.tasks[u].generation == g;
      assert u != t ==> (u in TasksOf(next.generationTasks, g) <==> u in TasksOf(s.generationTasks, g));
    }
  }

  lemma BeginKeepsInv(s: State, t: nat)
    requires Inv(s) && t !in s.tasks
    ensures Inv(Begin(s, t))
  {
    BeginKeepsRegistry(s, t);
    hide RegistryInv;
    hide TasksOf;
    assert forall u :: u in s.tasks ==> TaskInv(s, u);
    assert forall u :: u in s.tasks ==> TaskInv(Begin(s, t), u);
  }

  lemma RecycleKeepsInv(s: State, t: nat, reopens: bool)
    requires Inv(s) && t in s.tasks && s.tasks[t].InFlight? && s.tasks[t].generation == s.generation
    ensures var next := Recycle(s, t, s.generation, Timeout, reopens);
      && GenerationsInv(next) && RegistryInv(next.generationTasks, next.tasks) && IndicesInv(next.tasks)
      && (forall u :: u in s.tasks && u != t ==> TaskInv(next, u))
      && next.tasks == s.tasks && next.batchIndex == s.batchIndex && next.generation == s.generation + 1
      && next.runner.Some? && next.runner.value.serial < next.pools
  {
  }

  lemma AbortKeepsInv(s: State, reason: Reason)
    requires Inv(s)
    ensures Inv(AbortRunner(s, reason)) && AbortRunner(s, reason).tasks == s.tasks
  {
  }

  /** Taking a finished task out of the registry. */
  lemma FinishedKeepsInv(s: State, t: nat, result: Result)
    requires GenerationsInv(s) && RegistryInv(s.generationTasks, s.tasks) && IndicesInv(s.tasks)
    requires t in s.tasks && s.tasks[t].InFlight?
    requires s.tasks[t].index < s.batchIndex && s.tasks[t].generation <= s.generation
    requires forall u :: u in s.tasks && u != t ==> TaskInv(s, u)
    requires s.runner.Some? ==> s.runner.value.serial < s.pools
    ensures var task := s.tasks[t];
      Inv(Unregister(s, task.generation, t).(tasks := s.tasks[t := Finished(task.generation, task.index, result)]))
  {
    var task := s.tasks[t];
    var finished := s.tasks[t := Finished(task.generation, task.index, result)];
    var next := Unregister(s, task.generation, t).(tasks := finished);
    forall g, u
      ensures u in TasksOf(next.generationTasks, g) <==>
        u in next.tasks && next.tasks[u].InFlight? && next.tasks[u].generation == g
    {
      assert u in TasksOf(next.generationTasks, g) <==> u in TasksOf(s.generationTasks, g) && u != t;
    }
    forall u | u in next.tasks
      ensures TaskInv(next, u)
    {
      assert u != t ==> TaskInv(s, u);
    }
  }

  lemma FinishKeepsInv(s: State, t: nat, outcome: Submission, reopens: bool)
    requires Inv(s) && Enabled(s, FinishBatch(t, outcome, reopens))
    ensures Inv(Finish(s, t, outcome, reopens))
  {
    var g := s.tasks[t].generation;
    assert TaskInv(s, t);
    var result := Finish(s, t, outcome, reopens).tasks[t].result;
    if outcome == Cancelled && g !in s.invalidated {
      AbortKeepsInv(s, Cancellation);
      FinishedKeepsInv(AbortRunner(s, Cancellation), t, result);
    } else if outcome == TimedOut && g == s.generation {
      RecycleKeepsInv(s, t, reopens);
      FinishedKeepsInv(Recycle(s, t, g, Timeout, reopens), t, result);
    } else {
      FinishedKeepsInv(s, t, result);
    }
  }

  /** Every state of every interleaving satisfies the invariant. */
  lemma {:induction false} RunInv(steps: seq<Step>)
    requires Legal(steps)
    ensures Inv(Run(steps))
  {
    if steps != [] {
      var s, step := Run(steps[..|steps| - 1]), steps[|steps| - 1];
      RunInv(steps[..|steps| - 1]);
      match step {
        case BeginBatch(t) => BeginKeepsInv(s, t);
        case FinishBatch(t, outcome, reopens) => FinishKeepsInv(s, t, outcome, reopens);
        case AbortInFlight => AbortKeepsInv(s, Requested);
      }
    }
  }

  // ---- what the invariant gives -----------------------------------------------------------------

  ghost predicate Prefix(steps: seq<Step>, i: nat) {
    i < |steps| && Legal(steps[..i + 1])
  }

  lemma PrefixStep(steps: seq<Step>, i: nat)
    requires Prefix(steps, i)
    ensures Legal(steps[..i]) && Enabled(Run(steps[..i]), steps[i])
    ensures Run(steps[..i + 1]) == Next(Run(steps[..i]), steps[i])
  {
    assert steps[..i + 1][..i] == steps[..i];
  }

  /** The state in which step `i` of the run is taken. */
  ghost function Before(steps: seq<Step>, i: nat): (s: State)
    requires Prefix(steps, i)
    ensures Enabled(s, steps[i]) && Run(steps[..i + 1]) == Next(s, steps[i])
  {
    PrefixStep(steps, i);
    Run(steps[..i])
  }

  /** A batch result is handed out only while the batch's generation is current and the pool it was
      submitted to is still the open one. */
  lemma ReturnedWhileCurrent(steps: seq<Step>, i: nat)
    requires Prefix(steps, i) && steps[i].FinishBatch?
    requires Next(Before(steps, i), steps[i]).tasks[steps[i].t].result == Returned
    ensures var s := Before(steps, i); var task := s.tasks[steps[i].t];
      && task.generation == s.generation
      && s.runner == Some(Runner(task.serial, false))
  {
    PrefixStep(steps, i);
    RunInv(steps[..i]);
    assert TaskInv(Before(steps, i), steps[i].t);
  }

  /** A task can retire only its own generation: if a finished task moved the generation on, it was the
      current one. */
  lemma RetiresOnlyItsOwn(steps: seq<Step>, i: nat)
    requires Prefix(steps, i) && steps[i].FinishBatch?
    ensures var s, next := Before(steps, i), Run(steps[..i + 1]); var g := s.tasks[steps[i].t].generation;
      if next.generation == s.generation then next.retired == s.retired && next.runner == s.runner
      else
        && g == s.generation && next.generation == s.generation + 1
        && next.retired == s.retired + [Retirement(g, if steps[i].outcome == TimedOut then Timeout else Cancellation,
                                                    if steps[i].outcome == TimedOut then Recycled else Aborted)]
  {
    PrefixStep(steps, i);
    RunInv(steps[..i]);
    FinishRetires(Before(steps, i), steps[i].t, steps[i].outcome, steps[i].reopens);
  }

  lemma FinishRetires(s: State, t: nat, outcome: Submission, reopens: bool)
    requires Inv(s) && Enabled(s, FinishBatch(t, outcome, reopens))
    ensures var next, g := Finish(s, t, outcome, reopens), s.tasks[t].generation;
      if next.generation == s.generation then next.retired == s.retired && next.runner == s.runner
      else
        && g == s.generation && next.generation == s.generation + 1
        && next.retired == s.retired + [Retirement(g, if outcome == TimedOut then Timeout else Cancellation,
                                                    if outcome == TimedOut then Recycled else Aborted)]
  {
    assert TaskInv(s, t);
  }

  /** A finishing task moves the generation exactly when its own is current and it timed out or was cancelled. A
      timeout then leaves an open pool, or the old one closed when no new one could be opened; a cancellation
      leaves none. */
  lemma MovesIffOwnFailure(steps: seq<Step>, i: nat)
    requires Prefix(steps, i) && steps[i].FinishBatch?
    ensures var s, next, outcome := Before(steps, i), Run(steps[..i + 1]), steps[i].outcome;
      var task := s.tasks[steps[i].t];
      && (next.generation != s.generation
          <==> task.generation == s.generation && (outcome == TimedOut || outcome == Cancelled))
      && (task.generation == s.generation && outcome == TimedOut ==>
            if steps[i].reopens then next.runner.Some? && !next.runner.value.closed
            else next.runner == Some(Runner(task.serial, true)))
      && (task.generation == s.generation && outcome == Cancelled ==> next.runner == None)
  {
    PrefixStep(steps, i);
    RunInv(steps[..i]);
    assert TaskInv(Before(steps, i), steps[i].t);
  }

  lemma {:induction false} PoolsGrow(steps: seq<Step>, i: nat)
    requires Legal(steps) && i <= |steps|
    ensures Legal(steps[..i]) && Run(steps[..i]).pools <= Run(steps).pools
    decreases |steps|
  {
    if i == |steps| {
      assert steps[..i] == steps;
    } else {
      var front := steps[..|steps| - 1];
      assert front[..i] == steps[..i];
      PoolsGrow(front, i);
    }
  }

  /** The pool a timeout opens is a new one: no task at any earlier moment of the run was submitted to it. */
  lemma TimeoutOpensNewPool(steps: seq<Step>, i: nat, j: nat, u: nat)
    requires Prefix(steps, i) && steps[i].FinishBatch? && steps[i].outcome == TimedOut && steps[i].reopens
    requires Before(steps, i).tasks[steps[i].t].generation == Before(steps, i).generation
    requires j <= i && u in Run(steps[..j]).tasks && Run(steps[..j]).tasks[u].InFlight?
    ensures Run(steps[..i + 1]).runner.Some?
    ensures Run(steps[..i + 1]).runner.value.serial != Run(steps[..j]).tasks[u].serial
  {
    PrefixStep(steps, i);
    assert steps[..i][..j] == steps[..j];
    PoolsGrow(steps[..i], j);
    RunInv(steps[..j]);
    RunInv(steps[..i]);
    assert TaskInv(Run(steps[..j]), u);
    assert TaskInv(Before(steps, i), steps[i].t);
  }

  /** The in-flight tasks of one generation. */
  ghost function InFlightOf(s: State, generation: nat): set<nat> {
    set t | t in s.tasks && s.tasks[t].InFlight? && s.tasks[t].generation == generation
  }

  /** Who is asked to cancel: a timeout asks every other in-flight task of the generation it retires, a
      cancellation and an abort from outside ask all of them, and nothing else asks anybody. */
  lemma AsksExactlyTheRetired(steps: seq<Step>, i: nat)
    requires Prefix(steps, i)
    ensures var s, next, step := Before(steps, i), Run(steps[..i + 1]), steps[i];
      var all := InFlightOf(s, s.generation);
      next.cancelRequested - s.cancelRequested ==
        (if next.generation == s.generation then {}
         else if step.FinishBatch? && step.outcome == TimedOut then all - {step.t} else all) - s.cancelRequested
    ensures Before(steps, i).cancelRequested <= Run(steps[..i + 1]).cancelRequested
  {
    PrefixStep(steps, i);
    RunInv(steps[..i]);
    var s := Before(steps, i);
    assert RegistryInv(s.generationTasks, s.tasks);
    assert InFlightOf(s, s.generation) == TasksOf(s.generationTasks, s.generation);
    if steps[i].FinishBatch? {
      assert TaskInv(s, steps[i].t);
    }
  }

  /** How every outcome of the await ends the batch: it returns exactly on success in the current generation, and
      learns of an invalidation exactly when its generation was retired before and it neither timed out nor
      failed outside the pool; a timeout is reported as such unless reopening the pool raised. */
  lemma FinishAnswers(steps: seq<Step>, i: nat)
    requires Prefix(steps, i) && steps[i].FinishBatch?
    ensures var s, outcome := Before(steps, i), steps[i].outcome;
      var g, result := s.tasks[steps[i].t].generation, Run(steps[..i + 1]).tasks[steps[i].t].result;
      var current := g == s.generation;
      && (result == Returned <==> outcome == Succeeded && current)
      && (result.RaisedInvalidated?
          <==> !current && (outcome == Succeeded || outcome == Cancelled || outcome == WorkerFailed))
      && (result.RaisedInvalidated? ==> g < |s.retired| && result.reason == s.retired[g].reason)
      && (result == RaisedCancelled <==> outcome == Cancelled && current)
      && (result == RaisedTimeout <==> outcome == TimedOut && (current ==> steps[i].reopens))
  {
    PrefixStep(steps, i);
    RunInv(steps[..i]);
    assert TaskInv(Before(steps, i), steps[i].t);
  }

  /** An abort from outside closes whatever pool is there. */
  lemma AbortCloses(steps: seq<Step>, i: nat)
    requires Prefix(steps, i) && steps[i].AbortInFlight?
    ensures var s, next := Before(steps, i), Run(steps[..i + 1]);
      && next.runner.None?
      && next.retired == if s.runner.None? then s.retired
                         else s.retired + [Retirement(s.generation, Requested, Aborted)]
  {
    PrefixStep(steps, i);
  }

  /** Each generation is recycled or aborted at most once over the whole run. */
  lemma RetiredAtMostOnce(steps: seq<Step>, i: nat, j: nat)
    requires Legal(steps)
    requires i < j < |Run(steps).retired|
    ensures Run(steps).retired[i].generation != Run(steps).retired[j].generation
    ensures Run(steps).retired[i].kind == Recycled
  {
    RunInv(steps);
  }

  /** No two batches of a run ever carry the same index. */
  lemma IndicesNeverReused(steps: seq<Step>, t: nat, u: nat)
    requires Legal(steps)
    requires var tasks := Run(steps).tasks;
      t in tasks && u in tasks && t != u && !tasks[t].Rejected? && !tasks[u].Rejected?
    ensures Run(steps).tasks[t].index != Run(steps).tasks[u].index
  {
    RunInv(steps);
  }

  /** Nobody is left waiting on a retired pool: its in-flight tasks have all been asked to cancel. */
  lemma NoOrphans(steps: seq<Step>, t: nat)
    requires Legal(steps)
    requires var s := Run(steps); t in s.tasks && s.tasks[t].InFlight? && s.tasks[t].generation != s.generation
    ensures t in Run(steps).cancelRequested
    ensures Run(steps).tasks[t].generation in Run(steps).invalidated
  {
    RunInv(steps);
    assert TaskInv(Run(steps), t);
  }

  lemma AbortedStepIsFinal(s: State, step: Step)
    requires Inv(s) && Enabled(s, step) && s.runner.None?
    ensures var next := Next(s, step);
      && next.runner.None? && next.generation == s.generation && next.batchIndex == s.batchIndex
      && next.retired == s.retired
  {
    if step.FinishBatch? {
      assert TaskInv(s, step.t);
    }
  }

  /** After an abort no later step opens a pool, starts a batch or moves the generation. */
  lemma {:induction false} AbortIsFinal(steps: seq<Step>, i: nat)
    requires Legal(steps) && i <= |steps| && Run(steps[..i]).runner.None?
    ensures var s, last := Run(steps[..i]), Run(steps);
      && last.runner.None? && last.generation == s.generation && last.batchIndex == s.batchIndex
      && last.retired == s.retired
    decreases |steps|
  {
    if i == |steps| {
      assert steps[..i] == steps;
    } else {
      var front := steps[..|steps| - 1];
      assert front[..i] == steps[..i];
      AbortIsFinal(front, i);
      RunInv(front);
      AbortedStepIsFinal(Run(front), steps[|steps| - 1]);
    }
  }

  // ---- the object -------------------------------------------------------------------------------

  /** The mutable middleware. The table of batch tasks, the cancellation requests and the retirement log are the
      event loop's side of the state and are kept as ghosts; `pools` hands out pool identities. */
  class ProcessPoolLifecycle {
    var runner: Option<Runner>
    var runnerGeneration: nat
    var invalidatedGenerations: map<nat, Reason>
    var generationTasks: map<nat, set<nat>>
    var batchIndex: nat
    var pools: nat
    ghost var tasks: map<nat, Task>
    ghost var cancelRequested: set<nat>
    ghost var retired: seq<Retirement>

    ghost function View(): State
      reads this
    {
      State(runner, runnerGeneration, invalidatedGenerations, generationTasks, batchIndex,
            pools, tasks, cancelRequested, retired)
    }

    constructor OnStart()
      ensures View() == Init() && Inv(View())
      ensures runner.Some? && !runner.value.closed && (runnerGeneration, batchIndex) == (0, 0)
    {
      runner, pools := Some(Runner(0, false)), 1;
      batchIndex, runnerGeneration := 0, 0;
      invalidatedGenerations, generationTasks := map[], map[];
      tasks, cancelRequested, retired := map[], {}, [];
    }

    /** Asks the registered tasks of a generation to cancel; the caller itself only when not spared. */
    method CancelGenerationTasks(generation: nat, spared: Option<nat>)
      modifies this`cancelRequested
      ensures cancelRequested == old(cancelRequested)
        + (TasksOf(generationTasks, generation) - if spared.Some? then {spared.value} else {})
    {
      var pending := if generation in generationTasks then generationTasks[generation] else {};
      ghost var all, before := pending, cancelRequested;
      while pending != {}
        invariant pending <= all
        invariant cancelRequested == before + ((all - pending) - if spared.Some? then {spared.value} else {})
        decreases pending
      {
        var t :| t in pending;
        pending := pending - {t};
        if spared != Some(t) {
          cancelRequested := cancelRequested + {t};
        }
      }
    }

    method OpenRunner()
      modifies this`runner, this`pools
      ensures runner == Some(Runner(old(pools), false)) && pools == old(pools) + 1
    {
      runner := Some(Runner(pools, false));
      pools := pools + 1;
    }

    method RecycleRunner(t: nat, generation: nat, reason: Reason, reopens: bool) returns (raised: bool)
      modifies this
      ensures View() == Recycle(old(View()), t, generation, reason, reopens)
      ensures raised <==> View() != old(View()) && !reopens
    {
      if runner.None? || generation != runnerGeneration {
        return false;
      }
      invalidatedGenerations := invalidatedGenerations[generation := reason];
      CancelGenerationTasks(generation, Some(t));
      runner := Some(runner.value.(closed := true));
      runnerGeneration := runnerGeneration + 1;
      retired := retired + [Retirement(generation, reason, Recycled)];
      if reopens {
        OpenRunner();
      }
      raised := !reopens;
    }

    method AbortInFlightBatches(reason: Reason)
      modifies this
      ensures View() == AbortRunner(old(View()), reason)
    {
      if runner.None? {
        return;
      }
      invalidatedGenerations := invalidatedGenerations[runnerGeneration := reason];
      CancelGenerationTasks(runnerGeneration, None);
      retired := retired + [Retirement(runnerGeneration, reason, Aborted)];
      runner := None;
      runnerGeneration := runnerGeneration + 1;
    }

    /** `process_batch` up to the await; no generation means the RuntimeError of a missing runner. */
    method StartBatch(t: nat) returns (generation: Option<nat>, index: nat)
      requires t !in tasks
      modifies this
      ensures View() == Begin(old(View()), t)
      ensures old(runner).Some? ==> generation == Some(old(runnerGeneration)) && index == old(batchIndex)
      ensures old(runner).None? ==> generation == None
      ensures batchIndex == old(batchIndex) + if old(runner).Some? then 1 else 0
    {
      index := batchIndex;
      if runner.None? {
        tasks := tasks[t := Rejected];
        return None, index;
      }
      generation := Some(runnerGeneration);
      var registered := if runnerGeneration in generationTasks then generationTasks[runnerGeneration] else {};
      generationTasks := generationTasks[runnerGeneration := registered + {t}];
      batchIndex := batchIndex + 1;
      tasks := tasks[t := InFlight(runnerGeneration, index, runner.value.serial, !runner.value.closed)];
    }

    /** `process_batch` after the await. */
    method EndBatch(t: nat, generation: nat, outcome: Submission, reopens: bool) returns (result: Result)
      requires t in tasks && tasks[t].InFlight? && tasks[t].generation == generation
      modifies this
      ensures View() == Finish(old(View()), t, outcome, reopens)
      ensures result == tasks[t].result
    {
      match outcome {
        case Succeeded => result := Returned;
        case Cancelled =>
          if generation in invalidatedGenerations {
            result := RaisedInvalidated(invalidatedGenerations[generation]);
          } else {
            AbortInFlightBatches(Cancellation);
            result := RaisedCancelled;
          }
        case CodecFailed => result := RaisedError;
        case TimedOut =>
          var raised := RecycleRunner(t, generation, Timeout, reopens);
          result := if raised then RaisedError else RaisedTimeout;
        case WorkerFailed =>
          result := if generation in invalidatedGenerations
            then RaisedInvalidated(invalidatedGenerations[generation]) else RaisedError;
        case OtherFailure => result := RaisedError;
      }
      UnregisterGenerationTask(generation, t);
      if result == Returned && generation in invalidatedGenerations {
        result := RaisedInvalidated(invalidatedGenerations[generation]);
      }
      tasks := tasks[t := Finished(generation, tasks[t].index, result)];
    }

    method UnregisterGenerationTask(generation: nat, t: nat)
      modifies this`generationTasks
      ensures View() == Unregister(old(View()), generation, t)
    {
      if generation !in generationTasks || generationTasks[generation] == {} {
        return;
      }
      generationTasks := generationTasks[generation := generationTasks[generation] - {t}];
      if generationTasks[generation] == {} {
        generationTasks := generationTasks - {generation};
      }
    }
  }
}
