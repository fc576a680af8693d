/** What one middleware stage computes, and what a chain of stages does to one record and to a batch.

    User callables are pure functions with an explicit outcome; a `Custom` stage may also register
    success hooks, on the record it was given and on the one it returns. */
module Stages {
  import opened Context
  import opened Options

  datatype Outcome<+R> = Value(record: R) | Drop | Error
  datatype Verdict = Keep | Reject | Raise
  datatype BatchOutcome<+R> = Ok(results: seq<Option<R>>) | Raised

  datatype Stage<!R> =
    | Custom(name: string, process: R -> Outcome<R>, onInput: R -> seq<HookEntry>, onOutput: R -> seq<HookEntry>)
    | SyncMap(name: string, fn: R -> Outcome<R>)
    | SyncFilter(name: string, test: R -> Verdict)
    | Batch(name: string, processBatch: seq<R> -> BatchOutcome<R>)

  function ToOption<R>(o: Outcome<R>): Option<R> {
    if o.Value? then Some(o.record) else None
  }

  function FromOption<R>(o: Option<R>): Outcome<R> {
    if o.Some? then Value(o.value) else Drop
  }

  /** One record through one stage; a batch stage wraps the record in a list of one. */
  function Apply<R>(stage: Stage<R>, r: R): Outcome<R> {
    match stage
    case Custom(_, process, _, _) => process(r)
    case SyncMap(_, fn) => fn(r)
    case SyncFilter(_, test) =>
      (match test(r) case Keep => Value(r) case Reject => Drop case Raise => Error)
    case Batch(_, processBatch) =>
      match processBatch([r])
      case Raised => Error
      case Ok(results) => if results == [] then Drop else FromOption(results[0])
  }

  // ---- one record through stages lo..hi ---------------------------------------------------------

  datatype RowResult<+R> = Passed(value: R) | Discarded | Failed(record: R, middleware: string)

  function RowRun<R>(stages: seq<Stage<R>>, lo: nat, hi: nat, origin: R, r: R): RowResult<R>
    requires lo <= hi <= |stages|
    decreases hi - lo
  {
    if lo == hi then Passed(r)
    else
      match Apply(stages[lo], r)
      case Error => Failed(origin, stages[lo].name)
      case Drop => Discarded
      case Value(v) => RowRun(stages, lo + 1, hi, origin, v)
  }

  function RowValue<R>(stages: seq<Stage<R>>, lo: nat, hi: nat, r: R): Option<R>
    requires lo <= hi <= |stages|
  {
    var result := RowRun(stages, lo, hi, r, r);
    if result.Passed? then Some(result.value) else None
  }

  function StepLog<R>(stage: Stage<R>, r: R): Log {
    multiset{(stage.name, In)} +
    match Apply(stage, r)
    case Error => multiset{(stage.name, Errored)}
    case Drop => multiset{(stage.name, Dropped)}
    case Value(_) => multiset{(stage.name, Out)}
  }

  function RowLog<R>(stages: seq<Stage<R>>, lo: nat, hi: nat, r: R): Log
    requires lo <= hi <= |stages|
    decreases hi - lo
  {
    if lo == hi then multiset{}
    else
      var o := Apply(stages[lo], r);
      StepLog(stages[lo], r) + if o.Value? then RowLog(stages, lo + 1, hi, o.record) else multiset{}
  }

  /** The record-by-record run of a batch with holes: the counts of all its live slots. */
  function RowsLog<R>(stages: seq<Stage<R>>, lo: nat, hi: nat, batch: seq<Option<R>>): Log
    requires lo <= hi <= |stages|
  {
    if batch == [] then multiset{}
    else
      (if batch[0].Some? then RowLog(stages, lo, hi, batch[0].value) else multiset{})
      + RowsLog(stages, lo, hi, batch[1..])
  }

  // ---- a batch with holes through one stage -----------------------------------------------------

  function SlotValue<R>(stage: Stage<R>, slot: Option<R>): Option<R> {
    if slot.None? then None else ToOption(Apply(stage, slot.value))
  }

  function StageValues<R>(stage: Stage<R>, batch: seq<Option<R>>): (out: seq<Option<R>>)
    ensures |out| == |batch|
    ensures forall i :: 0 <= i < |batch| ==> out[i] == SlotValue(stage, batch[i])
  {
    seq(|batch|, i requires 0 <= i < |batch| => SlotValue(stage, batch[i]))
  }

  function StageLog<R>(stage: Stage<R>, batch: seq<Option<R>>): Log {
    if batch == [] then multiset{}
    else (if batch[0].Some? then StepLog(stage, batch[0].value) else multiset{}) + StageLog(stage, batch[1..])
  }

  function Live<R>(batch: seq<Option<R>>): seq<R> {
    if batch == [] then []
    else (if batch[0].Some? then [batch[0].value] else []) + Live(batch[1..])
  }

  function Holes<R>(batch: seq<Option<R>>): (n: nat)
    ensures n <= |batch|
  {
    if batch == [] then 0 else (if batch[0].None? then 1 else 0) + Holes(batch[1..])
  }

  /** Puts the results of the live slots back between the holes. */
  function Expand<R>(batch: seq<Option<R>>, results: seq<Option<R>>): seq<Option<R>>
    requires |results| == |Live(batch)|
  {
    if batch == [] then []
    else if batch[0].None? then [None] + Expand(batch[1..], results)
    else [results[0]] + Expand(batch[1..], results[1..])
  }

  datatype BatchResult<+R> =
    | Results(results: seq<Option<R>>)
    | BatchFailure(batch: seq<R>, middleware: string)
    | LengthMismatch(middleware: string)

  function BatchStage<R>(stage: Stage<R>, batch: seq<Option<R>>): BatchResult<R>
    requires stage.Batch?
  {
    match stage.processBatch(Live(batch))
    case Raised => BatchFailure(Live(batch), stage.name)
    case Ok(results) =>
      if |results| != |Live(batch)| then LengthMismatch(stage.name)
      else Results(Expand(batch, results))
  }

  /** What `apply_in_batch` of a batch stage counts: every slot, holes included, on the way in. */
  function BatchCounts<R>(stage: Stage<R>, batch: seq<Option<R>>): Counters
    requires stage.Batch?
  {
    match BatchStage(stage, batch)
    case BatchFailure(live, _) => Counters(|batch|, 0, 0, |live|)
    case LengthMismatch(_) => Counters(|batch|, 0, 0, 0)
    case Results(out) =>
      var dropped := Holes(out) - Holes(batch);
      Counters(|batch|, |out| - Holes(out), if dropped > 0 then dropped else 0, 0)
  }

  function StageRun<R>(stage: Stage<R>, batch: seq<Option<R>>): BatchResult<R> {
    if stage.Batch? then BatchStage(stage, batch) else Results(StageValues(stage, batch))
  }

  function StageRunLog<R>(stage: Stage<R>, batch: seq<Option<R>>): Log {
    if stage.Batch? then LogOf(stage.name, BatchCounts(stage, batch)) else StageLog(stage, batch)
  }

  // ---- a batch through stages lo..hi ------------------------------------------------------------

  function BatchRun<R>(stages: seq<Stage<R>>, lo: nat, hi: nat, batch: seq<Option<R>>): BatchResult<R>
    requires lo <= hi <= |stages|
    decreases hi - lo
  {
    if lo == hi then Results(batch)
    else
      var step := StageRun(stages[lo], batch);
      if step.Results? then BatchRun(stages, lo + 1, hi, step.results) else step
  }

  function BatchLog<R>(stages: seq<Stage<R>>, lo: nat, hi: nat, batch: seq<Option<R>>): Log
    requires lo <= hi <= |stages|
    decreases hi - lo
  {
    if lo == hi then multiset{}
    else
      var step := StageRun(stages[lo], batch);
      StageRunLog(stages[lo], batch)
      + if step.Results? then BatchLog(stages, lo + 1, hi, step.results) else multiset{}
  }

  /** A batch run up to stage `k` continued from there. */
  lemma {:induction false} BatchRunSplit<R>(stages: seq<Stage<R>>, lo: nat, k: nat, hi: nat, batch: seq<Option<R>>)
    requires lo <= k <= hi <= |stages|
    ensures var first := BatchRun(stages, lo, k, batch);
      && BatchRun(stages, lo, hi, batch)
         == (if first.Results? then BatchRun(stages, k, hi, first.results) else first)
      && BatchLog(stages, lo, hi, batch)
         == BatchLog(stages, lo, k, batch)
            + (if first.Results? then BatchLog(stages, k, hi, first.results) else multiset{})
    decreases k - lo
  {
    hide StageRun;
    hide StageRunLog;
    if lo < k {
      var step := StageRun(stages[lo], batch);
      if step.Results? {
        BatchRunSplit(stages, lo + 1, k, hi, step.results);
      }
    }
  }

  lemma OneStage<R>(stages: seq<Stage<R>>, k: nat, batch: seq<Option<R>>)
    requires k < |stages|
    ensures BatchRun(stages, k, k + 1, batch) == StageRun(stages[k], batch)
    ensures BatchLog(stages, k, k + 1, batch) == StageRunLog(stages[k], batch)
  {
    hide StageRun;
    hide StageRunLog;
  }

  /** Where a batch run that does not go through ends: some stage, given what the stages before it left, ended in
      exactly this failure, and nothing after its events was counted. */
  lemma {:induction false} BatchRunStops<R>(stages: seq<Stage<R>>, lo: nat, hi: nat, batch: seq<Option<R>>)
    returns (k: nat, met: seq<Option<R>>)
    requires lo <= hi <= |stages| && !BatchRun(stages, lo, hi, batch).Results?
    ensures lo <= k < hi && BatchRun(stages, lo, k, batch) == Results(met)
    ensures BatchRun(stages, lo, hi, batch) == StageRun(stages[k], met)
    ensures BatchLog(stages, lo, hi, batch) == BatchLog(stages, lo, k, batch) + StageRunLog(stages[k], met)
    decreases hi - lo
  {
    hide StageRun;
    hide StageRunLog;
    BatchRunSplit(stages, lo, hi - 1, hi, batch);
    var first := BatchRun(stages, lo, hi - 1, batch);
    if first.Results? {
      OneStage(stages, hi - 1, first.results);
      k, met := hi - 1, first.results;
    } else {
      k, met := BatchRunStops(stages, lo, hi - 1, batch);
    }
  }

  // ---- lemmas about one batch stage -------------------------------------------------------------

  lemma {:induction false} HolesBound<R>(batch: seq<Option<R>>)
    ensures Holes(batch) + |Live(batch)| == |batch|
  {
    if batch != [] {
      HolesBound(batch[1..]);
    }
  }

  /** The j-th live slot: its position in the batch. */
  function Position<R>(batch: seq<Option<R>>, j: nat): nat
    requires j < |Live(batch)|
  {
    if batch[0].None? then 1 + Position(batch[1..], j)
    else if j == 0 then 0
    else 1 + Position(batch[1..], j - 1)
  }

  /** Compaction and re-expansion: length kept, and holes stay holes. */
  lemma {:induction false} ExpandKeepsHoles<R>(batch: seq<Option<R>>, results: seq<Option<R>>)
    requires |results| == |Live(batch)|
    ensures |Expand(batch, results)| == |batch|
    ensures forall i :: 0 <= i < |batch| && batch[i].None? ==> Expand(batch, results)[i].None?
  {
    if batch != [] {
      ExpandKeepsHoles(batch[1..], if batch[0].None? then results else results[1..]);
    }
  }

  /** The j-th result lands exactly on the slot of the j-th live record. */
  lemma {:induction false} ExpandPlaces<R>(batch: seq<Option<R>>, results: seq<Option<R>>, j: nat)
    requires |results| == |Live(batch)| && j < |results|
    ensures |Expand(batch, results)| == |batch| && Position(batch, j) < |batch|
    ensures batch[Position(batch, j)] == Some(Live(batch)[j])
    ensures Expand(batch, results)[Position(batch, j)] == results[j]
  {
    ExpandKeepsHoles(batch, results);
    if batch[0].None? {
      ExpandPlaces(batch[1..], results, j);
    } else if j > 0 {
      ExpandPlaces(batch[1..], results[1..], j - 1);
    }
  }

  lemma {:induction false} PositionsAscend<R>(batch: seq<Option<R>>, j: nat, k: nat)
    requires j < k < |Live(batch)|
    ensures Position(batch, j) < Position(batch, k)
  {
    if batch[0].None? {
      PositionsAscend(batch[1..], j, k);
    } else if j > 0 {
      PositionsAscend(batch[1..], j - 1, k - 1);
    }
  }

  lemma {:induction false} ExpandHoles<R>(batch: seq<Option<R>>, results: seq<Option<R>>)
    requires |results| == |Live(batch)|
    ensures |Expand(batch, results)| == |batch|
    ensures Holes(Expand(batch, results)) == Holes(batch) + Holes(results)
  {
    if batch != [] {
      if batch[0].None? {
        ExpandHoles(batch[1..], results);
        assert Expand(batch, results)[1..] == Expand(batch[1..], results);
      } else {
        ExpandHoles(batch[1..], results[1..]);
        assert Expand(batch, results)[1..] == Expand(batch[1..], results[1..]);
      }
    }
  }

  /** A batch stage's own accounting: every slot it counts in is counted out, dropped or was a hole;
      when it raises, the live records and only they are counted as errors. */
  lemma BatchStageAccounts<R>(stage: Stage<R>, batch: seq<Option<R>>)
    requires stage.Batch?
    ensures var c := BatchCounts(stage, batch);
      && c.recordsIn == |batch|
      && (BatchStage(stage, batch) == BatchFailure(Live(batch), stage.name)
          <==> stage.processBatch(Live(batch)).Raised?)
      && (BatchStage(stage, batch) == LengthMismatch(stage.name)
          <==> stage.processBatch(Live(batch)).Ok? && |stage.processBatch(Live(batch)).results| != |Live(batch)|)
      && (BatchStage(stage, batch).LengthMismatch? ==> c == Counters(|batch|, 0, 0, 0))
      && (BatchStage(stage, batch).Results? ==>
            c.recordsErrored == 0 && c.recordsIn == c.recordsOut + c.recordsDropped + Holes(batch))
      && (BatchStage(stage, batch).BatchFailure? ==>
            c.recordsOut == c.recordsDropped == 0 && c.recordsErrored == |batch| - Holes(batch))
  {
    HolesBound(batch);
    var step := BatchStage(stage, batch);
    if step.Results? {
      ExpandHoles(batch, stage.processBatch(Live(batch)).results);
      HolesBound(step.results);
    }
  }

  /** Processing this list gives what processing each of its records alone gives. */
  predicate PointwiseOn<R(==)>(stage: Stage<R>, rs: seq<R>) {
    stage.Batch? ==>
      stage.processBatch(rs) == Ok(seq(|rs|, i requires 0 <= i < |rs| => ToOption(Apply(stage, rs[i]))))
  }

  lemma ValuesCons<R>(stage: Stage<R>, batch: seq<Option<R>>)
    requires batch != []
    ensures StageValues(stage, batch) == [SlotValue(stage, batch[0])] + StageValues(stage, batch[1..])
  {
    hide Apply;
  }

  /** The results of the live records are those of the first one and of the rest. */
  lemma LiveTail<R>(stage: Stage<R>, batch: seq<Option<R>>, results: seq<Option<R>>)
    requires batch != [] && batch[0].Some? && |results| == |Live(batch)|
    requires forall j :: 0 <= j < |results| ==> results[j] == ToOption(Apply(stage, Live(batch)[j]))
    ensures |results[1..]| == |Live(batch[1..])|
    ensures forall j :: 0 <= j < |results[1..]| ==> results[1..][j] == ToOption(Apply(stage, Live(batch[1..])[j]))
    ensures results[0] == SlotValue(stage, batch[0])
  {
    hide Apply;
    hide ToOption;
    assert Live(batch) == [batch[0].value] + Live(batch[1..]);
    hide Live;
    forall j | 0 <= j < |results[1..]|
      ensures results[1..][j] == ToOption(Apply(stage, Live(batch[1..])[j]))
    {
      assert Live(batch)[j + 1] == Live(batch[1..])[j];
    }
  }

  lemma {:induction false} ExpandPointwise<R>(stage: Stage<R>, batch: seq<Option<R>>, results: seq<Option<R>>)
    requires |results| == |Live(batch)|
    requires forall j :: 0 <= j < |results| ==> results[j] == ToOption(Apply(stage, Live(batch)[j]))
    ensures Expand(batch, results) == StageValues(stage, batch)
  {
    hide Apply;
    hide ToOption;
    if batch != [] {
      hide StageValues;
      ValuesCons(stage, batch);
      if batch[0].None? {
        ExpandPointwise(stage, batch[1..], results);
      } else {
        LiveTail(stage, batch, results);
        ExpandPointwise(stage, batch[1..], results[1..]);
      }
    }
  }

  lemma {:induction false} ExpandInjective<R>(batch: seq<Option<R>>, left: seq<Option<R>>, right: seq<Option<R>>)
    requires |left| == |right| == |Live(batch)|
    requires Expand(batch, left) == Expand(batch, right)
    ensures left == right
  {
    forall j | 0 <= j < |left|
      ensures left[j] == right[j]
    {
      ExpandPlaces(batch, left, j);
      ExpandPlaces(batch, right, j);
    }
  }

  /** A stage over a batch is the stage over each of its live slots exactly when it is pointwise on the list of
      live records it is given. */
  lemma PointwiseStage<R(!new)>(stage: Stage<R>, batch: seq<Option<R>>)
    ensures StageRun(stage, batch) == Results(StageValues(stage, batch)) <==> PointwiseOn(stage, Live(batch))
  {
    hide Apply;
    if stage.Batch? {
      var live := Live(batch);
      var alone := seq(|live|, i requires 0 <= i < |live| => ToOption(Apply(stage, live[i])));
      ExpandPointwise(stage, batch, alone);
      if StageRun(stage, batch) == Results(StageValues(stage, batch)) {
        ExpandInjective(batch, stage.processBatch(live).results, alone);
      }
    }
  }

  /** BatchMapMiddleware: one raise fails the whole list. */
  function BatchMap<R(!new)>(name: string, fn: R -> Outcome<R>): Stage<R> {
    Batch(name, (rs: seq<R>) =>
      if exists i :: 0 <= i < |rs| && fn(rs[i]).Error? then Raised
      else Ok(seq(|rs|, i requires 0 <= i < |rs| => ToOption(fn(rs[i])))))
  }

  /** BatchFilterMiddleware. */
  function BatchFilter<R(!new)>(name: string, test: R -> Verdict): Stage<R> {
    Batch(name, (rs: seq<R>) =>
      if exists i :: 0 <= i < |rs| && test(rs[i]).Raise? then Raised
      else Ok(seq(|rs|, i requires 0 <= i < |rs| => if test(rs[i]).Keep? then Some(rs[i]) else None)))
  }

  lemma BatchMapOn<R(!new)>(name: string, fn: R -> Outcome<R>, rs: seq<R>)
    ensures forall r :: Apply(BatchMap(name, fn), r) == fn(r)
    ensures if exists r :: r in rs && fn(r).Error? then BatchMap(name, fn).processBatch(rs) == Raised
            else PointwiseOn(BatchMap(name, fn), rs)
  {
    var stage := BatchMap(name, fn);
    forall r
      ensures Apply(stage, r) == fn(r)
    {
      assert [r][0] == r;
    }
    if !exists r :: r in rs && fn(r).Error? {
      assert stage.processBatch(rs).results == seq(|rs|, i requires 0 <= i < |rs| => ToOption(Apply(stage, rs[i])));
    }
  }

  lemma BatchFilterOn<R(!new)>(name: string, test: R -> Verdict, rs: seq<R>)
    ensures forall r :: Apply(BatchFilter(name, test), r) == Apply(SyncFilter(name, test), r)
    ensures if exists r :: r in rs && test(r).Raise? then BatchFilter(name, test).processBatch(rs) == Raised
            else PointwiseOn(BatchFilter(name, test), rs)
  {
    var stage := BatchFilter(name, test);
    forall r
      ensures Apply(stage, r) == Apply(SyncFilter(name, test), r)
    {
      assert [r][0] == r;
    }
    if !exists r :: r in rs && test(r).Raise? {
      assert stage.processBatch(rs).results == seq(|rs|, i requires 0 <= i < |rs| => ToOption(Apply(stage, rs[i])));
    }
  }

  /** The built-in batch map over a batch: record-by-record processing when its function raises on no live
      record of this batch, and the failure of the whole list when it raises on one. */
  lemma BatchMapPointwise<R(!new)>(name: string, fn: R -> Outcome<R>, batch: seq<Option<R>>)
    ensures forall r :: Apply(BatchMap(name, fn), r) == fn(r)
    ensures StageRun(BatchMap(name, fn), batch) ==
      if exists r :: r in Live(batch) && fn(r).Error? then BatchFailure(Live(batch), name)
      else Results(StageValues(BatchMap(name, fn), batch))
  {
    BatchMapOn(name, fn, Live(batch));
    PointwiseStage(BatchMap(name, fn), batch);
  }

  /** The built-in batch filter likewise. */
  lemma BatchFilterPointwise<R(!new)>(name: string, test: R -> Verdict, batch: seq<Option<R>>)
    ensures forall r :: Apply(BatchFilter(name, test), r) == Apply(SyncFilter(name, test), r)
    ensures StageRun(BatchFilter(name, test), batch) ==
      if exists r :: r in Live(batch) && test(r).Raise? then BatchFailure(Live(batch), name)
      else Results(StageValues(BatchFilter(name, test), batch))
  {
    BatchFilterOn(name, test, Live(batch));
    PointwiseStage(BatchFilter(name, test), batch);
  }

  // ---- loop interchange -------------------------------------------------------------------------

  /** Only a failure remembers the record the row run started from. */
  lemma {:induction false} Origin<R>(stages: seq<Stage<R>>, lo: nat, hi: nat, o1: R, o2: R, r: R)
    requires lo <= hi <= |stages|
    ensures var r1, r2 := RowRun(stages, lo, hi, o1, r), RowRun(stages, lo, hi, o2, r);
      && (!r1.Failed? ==> r1 == r2)
      && (r1.Failed? ==> r2 == Failed(o2, r1.middleware))
    decreases hi - lo
  {
    if lo < hi {
      var o := Apply(stages[lo], r);
      if o.Value? {
        Origin(stages, lo + 1, hi, o1, o2, o.record);
      }
    }
  }

  lemma RowValueStep<R>(stages: seq<Stage<R>>, lo: nat, k: nat, r: R)
    requires lo < k <= |stages|
    ensures RowValue(stages, lo, k, r)
      == if Apply(stages[lo], r).Value? then RowValue(stages, lo + 1, k, Apply(stages[lo], r).record) else None
  {
    hide Apply;
    if Apply(stages[lo], r).Value? {
      var v := Apply(stages[lo], r).record;
      Origin(stages, lo + 1, k, r, v, v);
    }
  }

  /** Processing at stage `k` what the stages before it made of `r` ends in `o`. */
  ghost predicate EndsAt<R>(stages: seq<Stage<R>>, lo: nat, k: nat, r: R, o: Outcome<R>)
    requires lo <= k < |stages|
  {
    var v := RowValue(stages, lo, k, r);
    v.Some? && Apply(stages[k], v.value) == o
  }

  ghost predicate MadeBy<R>(stages: seq<Stage<R>>, lo: nat, k: nat, r: R)
    requires lo <= k < |stages|
  {
    var v := RowValue(stages, lo, k + 1, r);
    v.Some? && EndsAt(stages, lo, k, r, Value(v.value))
  }

  lemma EndsAtStep<R>(stages: seq<Stage<R>>, lo: nat, k: nat, r: R)
    requires lo < k < |stages| && Apply(stages[lo], r).Value?
    ensures var v := Apply(stages[lo], r).record;
      && (EndsAt(stages, lo, k, r, Error) <==> EndsAt(stages, lo + 1, k, v, Error))
      && (EndsAt(stages, lo, k, r, Drop) <==> EndsAt(stages, lo + 1, k, v, Drop))
      && (MadeBy(stages, lo, k, r) <==> MadeBy(stages, lo + 1, k, v))
  {
    RowValueStep(stages, lo, k, r);
    RowValueStep(stages, lo, k + 1, r);
    hide Apply;
    hide RowValue;
  }

  lemma EndsHere<R>(stages: seq<Stage<R>>, lo: nat, r: R)
    requires lo < |stages|
    ensures EndsAt(stages, lo, lo, r, Apply(stages[lo], r))
    ensures Apply(stages[lo], r).Value? ==> MadeBy(stages, lo, lo, r)
  {
    hide Apply;
    assert RowValue(stages, lo, lo, r) == Some(r);
    RowValueStep(stages, lo, lo + 1, r);
    if Apply(stages[lo], r).Value? {
      assert RowValue(stages, lo + 1, lo + 1, Apply(stages[lo], r).record) == Some(Apply(stages[lo], r).record);
    }
  }

  /** Where a row run ends: a failure names the stage that raised on what the stages before it made of the record,
      and carries the record the run started from; a drop happens at such a stage too; and a run that passes has
      its value made by every stage in turn. */
  lemma {:induction false} RowRunStops<R>(stages: seq<Stage<R>>, lo: nat, hi: nat, origin: R, r: R)
    requires lo <= hi <= |stages|
    ensures var result := RowRun(stages, lo, hi, origin, r);
      && (result.Failed? ==>
            exists k :: lo <= k < hi && EndsAt(stages, lo, k, r, Error) && result == Failed(origin, stages[k].name))
      && (result.Discarded? ==> exists k :: lo <= k < hi && EndsAt(stages, lo, k, r, Drop))
      && (result.Passed? ==>
            RowValue(stages, lo, hi, r) == Some(result.value)
            && forall k :: lo <= k < hi ==> MadeBy(stages, lo, k, r))
    decreases hi - lo
  {
    hide Apply;
    Origin(stages, lo, hi, origin, r, r);
    if lo < hi {
      var o, result := Apply(stages[lo], r), RowRun(stages, lo, hi, origin, r);
      EndsHere(stages, lo, r);
      if o.Value? {
        RowRunStops(stages, lo + 1, hi, origin, o.record);
        forall k | lo < k < hi
          ensures EndsAt(stages, lo, k, r, Error) <==> EndsAt(stages, lo + 1, k, o.record, Error)
          ensures EndsAt(stages, lo, k, r, Drop) <==> EndsAt(stages, lo + 1, k, o.record, Drop)
          ensures MadeBy(stages, lo, k, r) <==> MadeBy(stages, lo + 1, k, o.record)
        {
          EndsAtStep(stages, lo, k, r);
        }
        hide EndsAt;
        hide MadeBy;
        if result.Discarded? {
          var k :| lo + 1 <= k < hi && EndsAt(stages, lo + 1, k, o.record, Drop);
          assert EndsAt(stages, lo, k, r, Drop);
        }
      }
    }
  }

  /** What is left of each slot after the stages below `k`, record by record. */
  function Survivors<R>(stages: seq<Stage<R>>, lo: nat, k: nat, batch: seq<Option<R>>): (left: seq<Option<R>>)
    requires lo <= k <= |stages|
    ensures |left| == |batch|
  {
    seq(|batch|, i requires 0 <= i < |batch| =>
      if batch[i].None? then None else RowValue(stages, lo, k, batch[i].value))
  }

  lemma SurvivorsStep<R>(stages: seq<Stage<R>>, lo: nat, k: nat, batch: seq<Option<R>>)
    requires lo <= k <= |stages|
    ensures Survivors(stages, lo, lo, batch) == batch
    ensures lo < k ==> Survivors(stages, lo, k, batch) == Survivors(stages, lo + 1, k, StageValues(stages[lo], batch))
  {
    hide Apply;
    if lo < k {
      var next := StageValues(stages[lo], batch);
      forall i | 0 <= i < |batch|
        ensures Survivors(stages, lo, k, batch)[i] == Survivors(stages, lo + 1, k, next)[i]
      {
        if next[i].Some? {
          Origin(stages, lo + 1, k, batch[i].value, next[i].value, next[i].value);
        }
      }
    }
  }

  /** Every batch stage of the range is pointwise on the survivors that reach it. */
  predicate Served<R(==)>(stages: seq<Stage<R>>, lo: nat, hi: nat, batch: seq<Option<R>>)
    requires lo <= hi <= |stages|
  {
    forall k :: lo <= k < hi ==> PointwiseOn(stages[k], Live(Survivors(stages, lo, k, batch)))
  }

  lemma ServedStep<R>(stages: seq<Stage<R>>, lo: nat, hi: nat, batch: seq<Option<R>>)
    requires lo < hi <= |stages|
    ensures Served(stages, lo, hi, batch) <==>
      PointwiseOn(stages[lo], Live(batch)) && Served(stages, lo + 1, hi, StageValues(stages[lo], batch))
  {
    hide PointwiseOn;
    forall k | lo <= k < hi
      ensures Survivors(stages, lo, lo, batch) == batch
      ensures k > lo ==> Survivors(stages, lo, k, batch) == Survivors(stages, lo + 1, k, StageValues(stages[lo], batch))
    {
      SurvivorsStep(stages, lo, k, batch);
    }
    hide Survivors;
  }

  /** Stage by stage over the batch gives at each slot what running that record alone gives; holes stay
      holes. Batch stages are included as long as each is pointwise on the survivors that reach it. */
  lemma {:induction false} BatchValuesAreRowValues<R(!new)>(stages: seq<Stage<R>>, lo: nat, hi: nat,
                                                            batch: seq<Option<R>>)
    requires lo <= hi <= |stages| && Served(stages, lo, hi, batch)
    ensures BatchRun(stages, lo, hi, batch) == Results(Survivors(stages, lo, hi, batch))
    decreases hi - lo
  {
    SurvivorsStep(stages, lo, hi, batch);
    if lo < hi {
      ServedStep(stages, lo, hi, batch);
      PointwiseStage(stages[lo], batch);
      hide StageRun;
      hide Survivors;
      hide Served;
      BatchValuesAreRowValues(stages, lo + 1, hi, StageValues(stages[lo], batch));
    }
  }

  /** The stage either is pointwise on a list or raises on it, as the built-in batch map and filter are. */
  ghost predicate AllOrNothing<R(!new)>(stage: Stage<R>) {
    stage.Batch? ==> forall rs :: PointwiseOn(stage, rs) || stage.processBatch(rs) == Raised
  }

  lemma BuiltinsAreAllOrNothing<R(!new)>(name: string, fn: R -> Outcome<R>, test: R -> Verdict)
    ensures AllOrNothing(BatchMap(name, fn)) && AllOrNothing(BatchFilter(name, test))
  {
    forall rs
      ensures PointwiseOn(BatchMap(name, fn), rs) || BatchMap(name, fn).processBatch(rs) == Raised
    {
      BatchMapOn(name, fn, rs);
    }
    forall rs
      ensures PointwiseOn(BatchFilter(name, test), rs) || BatchFilter(name, test).processBatch(rs) == Raised
    {
      BatchFilterOn(name, test, rs);
    }
  }

  /** For such stages the condition is exact: the batch run goes through if and only if every batch stage is
      pointwise on its survivors, and otherwise it ends in a batch failure. */
  lemma {:induction false} BatchRunGoesThrough<R(!new)>(stages: seq<Stage<R>>, lo: nat, hi: nat, batch: seq<Option<R>>)
    requires lo <= hi <= |stages|
    requires forall k :: lo <= k < hi ==> AllOrNothing(stages[k])
    ensures BatchRun(stages, lo, hi, batch).Results? <==> Served(stages, lo, hi, batch)
    ensures !Served(stages, lo, hi, batch) ==> BatchRun(stages, lo, hi, batch).BatchFailure?
    decreases hi - lo
  {
    if lo < hi {
      ServedStep(stages, lo, hi, batch);
      PointwiseStage(stages[lo], batch);
      assert AllOrNothing(stages[lo]);
      if !PointwiseOn(stages[lo], Live(batch)) {
        assert StageRun(stages[lo], batch).BatchFailure?;
      }
      hide AllOrNothing;
      hide StageRun;
      hide Served;
      hide PointwiseOn;
      BatchRunGoesThrough(stages, lo + 1, hi, StageValues(stages[lo], batch));
    }
  }

  lemma Regroup(a: Log, b: Log, c: Log, d: Log)
    ensures (a + b) + (c + d) == (a + c) + (b + d)
  {
  }

  /** Running every record through the first stage and then the survivors through the rest counts the
      same events as running each record through all stages. */
  lemma {:induction false} RowsLogSplit<R>(stages: seq<Stage<R>>, lo: nat, hi: nat, batch: seq<Option<R>>)
    requires lo < hi <= |stages|
    ensures RowsLog(stages, lo, hi, batch)
      == StageLog(stages[lo], batch) + RowsLog(stages, lo + 1, hi, StageValues(stages[lo], batch))
    decreases |batch|
  {
    if batch != [] {
      var rest := batch[1..];
      var next := StageValues(stages[lo], batch);
      assert next[1..] == StageValues(stages[lo], rest);
      RowsLogSplit(stages, lo, hi, rest);
      var b := if next[0].Some? then RowLog(stages, lo + 1, hi, next[0].value) else multiset{};
      if batch[0].Some? {
        Regroup(StepLog(stages[lo], batch[0].value), b,
                StageLog(stages[lo], rest), RowsLog(stages, lo + 1, hi, next[1..]));
      }
    }
  }

  lemma {:induction false} RowsLogEmpty<R>(stages: seq<Stage<R>>, lo: nat, batch: seq<Option<R>>)
    requires lo <= |stages|
    ensures RowsLog(stages, lo, lo, batch) == multiset{}
    decreases |batch|
  {
    if batch != [] {
      RowsLogEmpty(stages, lo, batch[1..]);
    }
  }

  // ---- counters of one stage over a batch -------------------------------------------------------

  /** The totals a row stage accumulates over a batch, slot by slot from the left. */
  function FastCounts<R>(stage: Stage<R>, batch: seq<Option<R>>): Counters {
    if batch == [] then ZERO
    else
      var c, slot := FastCounts(stage, batch[..|batch| - 1]), batch[|batch| - 1];
      if slot.None? then c
      else
        match Apply(stage, slot.value)
        case Error => c.(recordsIn := c.recordsIn + 1, recordsErrored := c.recordsErrored + 1)
        case Drop => c.(recordsIn := c.recordsIn + 1, recordsDropped := c.recordsDropped + 1)
        case Value(_) => c.(recordsIn := c.recordsIn + 1, recordsOut := c.recordsOut + 1)
  }

  lemma {:induction false} StageLogSnoc<R>(stage: Stage<R>, batch: seq<Option<R>>, slot: Option<R>)
    ensures StageLog(stage, batch + [slot])
      == StageLog(stage, batch) + if slot.Some? then StepLog(stage, slot.value) else multiset{}
    decreases |batch|
  {
    if batch == [] {
      assert batch + [slot] == [slot];
      assert StageLog(stage, [slot][1..]) == multiset{};
    } else {
      StageLogSnoc(stage, batch[1..], slot);
      assert (batch + [slot])[1..] == batch[1..] + [slot];
    }
  }

  lemma LogOfStep<R>(stage: Stage<R>, r: R, c: Counters, d: Counters)
    requires d == match Apply(stage, r)
      case Error => c.(recordsIn := c.recordsIn + 1, recordsErrored := c.recordsErrored + 1)
      case Drop => c.(recordsIn := c.recordsIn + 1, recordsDropped := c.recordsDropped + 1)
      case Value(_) => c.(recordsIn := c.recordsIn + 1, recordsOut := c.recordsOut + 1)
    ensures LogOf(stage.name, d) == LogOf(stage.name, c) + StepLog(stage, r)
  {
    var name := stage.name;
    var before, after, step := LogOf(name, c), LogOf(name, d), StepLog(stage, r);
    hide Apply;
    forall e
      ensures after[e] == before[e] + step[e]
    {
      if e.0 == name {
        match e.1 { case In => case Out => case Dropped => case Errored => }
      }
    }
  }

  lemma {:induction false} FastLog<R>(stage: Stage<R>, batch: seq<Option<R>>)
    ensures StageLog(stage, batch) == LogOf(stage.name, FastCounts(stage, batch))
    decreases |batch|
  {
    if batch != [] {
      var front, slot := batch[..|batch| - 1], batch[|batch| - 1];
      assert batch == front + [slot];
      FastLog(stage, front);
      StageLogSnoc(stage, front, slot);
      if slot.Some? {
        LogOfStep(stage, slot.value, FastCounts(stage, front), FastCounts(stage, batch));
      }
    }
  }

  lemma {:induction false} FastIn<R>(stage: Stage<R>, batch: seq<Option<R>>)
    ensures FastCounts(stage, batch).recordsIn + Holes(batch) == |batch|
    decreases |batch|
  {
    if batch != [] {
      FastIn(stage, batch[..|batch| - 1]);
      HolesSnoc(batch[..|batch| - 1], batch[|batch| - 1]);
      assert batch == batch[..|batch| - 1] + [batch[|batch| - 1]];
    }
  }

  lemma {:induction false} HolesSnoc<R>(batch: seq<Option<R>>, slot: Option<R>)
    ensures Holes(batch + [slot]) == Holes(batch) + if slot.None? then 1 else 0
    decreases |batch|
  {
    if batch == [] {
      assert batch + [slot] == [slot];
    } else {
      HolesSnoc(batch[1..], slot);
      assert (batch + [slot])[1..] == batch[1..] + [slot];
    }
  }

  lemma FastStep<R>(stage: Stage<R>, batch: seq<Option<R>>)
    requires batch != []
    ensures var front, slot := batch[..|batch| - 1], batch[|batch| - 1];
      var c, n := FastCounts(stage, front), Holes(front);
      && batch == front + [slot]
      && Holes(batch) == n + (if slot.None? then 1 else 0)
      && Holes(StageValues(stage, batch))
         == Holes(StageValues(stage, front)) + (if SlotValue(stage, slot).None? then 1 else 0)
      && FastCounts(stage, batch) == (
           if slot.None? then c
           else
             var o := Apply(stage, slot.value);
             Counters(c.recordsIn + 1, c.recordsOut + (if o.Value? then 1 else 0),
                      c.recordsDropped + (if o.Drop? then 1 else 0), c.recordsErrored + (if o.Error? then 1 else 0)))
  {
    var front, slot := batch[..|batch| - 1], batch[|batch| - 1];
    assert batch == front + [slot];
    HolesSnoc(front, slot);
    HolesSnoc(StageValues(stage, front), SlotValue(stage, slot));
    assert StageValues(stage, batch) == StageValues(stage, front) + [SlotValue(stage, slot)];
  }

  /** The totals of the row loop in terms of holes alone, and when one of them is an error. */
  lemma {:induction false} FastTotals<R>(stage: Stage<R>, batch: seq<Option<R>>)
    ensures var out, rows := StageValues(stage, batch), FastCounts(stage, batch);
      && Holes(batch) <= Holes(out)
      && rows.recordsIn == |batch| - Holes(batch) && rows.recordsOut == |out| - Holes(out)
      && rows.recordsDropped + rows.recordsErrored == Holes(out) - Holes(batch)
      && (rows.recordsErrored > 0 <==>
            exists i :: 0 <= i < |batch| && batch[i].Some? && Apply(stage, batch[i].value).Error?)
    decreases |batch|
  {
    hide Apply;
    if batch != [] {
      var front := batch[..|batch| - 1];
      FastTotals(stage, front);
      FastStep(stage, batch);
      if i :| 0 <= i < |front| && front[i].Some? && Apply(stage, front[i].value).Error? {
        assert batch[i] == front[i];
      }
    }
  }

  /** The counters of a pointwise batch stage against those of the row loop: a hole counts as a record in, and
      a record that would fail alone counts as dropped. They are the same exactly when there is neither. */
  lemma BatchStageCountsHoles<R(!new)>(stage: Stage<R>, batch: seq<Option<R>>)
    requires stage.Batch? && PointwiseOn(stage, Live(batch))
    ensures var rows := FastCounts(stage, batch);
      BatchCounts(stage, batch) ==
        Counters(rows.recordsIn + Holes(batch), rows.recordsOut, rows.recordsDropped + rows.recordsErrored, 0)
    ensures StageRunLog(stage, batch) == StageLog(stage, batch) <==>
      (forall i :: 0 <= i < |batch| ==> batch[i].Some? && !Apply(stage, batch[i].value).Error?)
  {
    hide Apply;
    PointwiseStage(stage, batch);
    FastTotals(stage, batch);
    FastLog(stage, batch);
    TallyLogOf(stage.name, FastCounts(stage, batch));
    TallyLogOf(stage.name, BatchCounts(stage, batch));
    NoHoleNowhere(batch);
    assert BatchStage(stage, batch) == Results(StageValues(stage, batch));
    hide BatchStage;
    hide FastCounts;
    hide PointwiseOn;
  }

  lemma {:induction false} NoHoleNowhere<R>(batch: seq<Option<R>>)
    ensures Holes(batch) == 0 <==> forall i :: 0 <= i < |batch| ==> batch[i].Some?
  {
    if batch != [] {
      NoHoleNowhere(batch[1..]);
      assert forall i :: 0 < i < |batch| ==> batch[i] == batch[1..][i - 1];
      assert forall i :: 0 <= i < |batch[1..]| ==> batch[1..][i] == batch[i + 1];
    }
  }

  // ---- counters of a whole chain over a batch ---------------------------------------------------

  /** The stage handles records one by one, or meets neither a hole nor a record that would fail alone. */
  predicate CountsAsRows<R>(stage: Stage<R>, batch: seq<Option<R>>) {
    stage.Batch? ==> forall i :: 0 <= i < |batch| ==> batch[i].Some? && !Apply(stage, batch[i].value).Error?
  }

  predicate ChainCountsAsRows<R>(stages: seq<Stage<R>>, lo: nat, hi: nat, batch: seq<Option<R>>)
    requires lo <= hi <= |stages|
  {
    forall k :: lo <= k < hi ==> CountsAsRows(stages[k], Survivors(stages, lo, k, batch))
  }

  lemma CountsAsRowsStep<R>(stages: seq<Stage<R>>, lo: nat, hi: nat, batch: seq<Option<R>>)
    requires lo < hi <= |stages|
    ensures ChainCountsAsRows(stages, lo, hi, batch) <==>
      CountsAsRows(stages[lo], batch) && ChainCountsAsRows(stages, lo + 1, hi, StageValues(stages[lo], batch))
  {
    hide CountsAsRows;
    forall k | lo <= k < hi
      ensures Survivors(stages, lo, lo, batch) == batch
      ensures k > lo ==> Survivors(stages, lo, k, batch) == Survivors(stages, lo + 1, k, StageValues(stages[lo], batch))
    {
      SurvivorsStep(stages, lo, k, batch);
    }
    hide Survivors;
  }

  /** `batch` counts at least the records in and the drops that `rows` counts, for every name. */
  ghost predicate Above(batch: Log, rows: Log) {
    forall name :: batch[(name, In)] >= rows[(name, In)] && batch[(name, Dropped)] >= rows[(name, Dropped)]
  }

  ghost predicate Level(batch: Log, rows: Log) {
    forall name :: batch[(name, In)] == rows[(name, In)] && batch[(name, Dropped)] == rows[(name, Dropped)]
  }

  lemma AboveSums(b: Log, c: Log, r: Log, s: Log)
    requires Above(b, r) && Above(c, s)
    ensures Above(b + c, r + s)
    ensures Level(b + c, r + s) ==> Level(b, r) && Level(c, s)
  {
    forall name
      ensures (b + c)[(name, In)] == b[(name, In)] + c[(name, In)]
        && (r + s)[(name, In)] == r[(name, In)] + s[(name, In)]
        && (b + c)[(name, Dropped)] == b[(name, Dropped)] + c[(name, Dropped)]
        && (r + s)[(name, Dropped)] == r[(name, Dropped)] + s[(name, Dropped)]
    {
    }
  }

  lemma CountersAbove(name: string, batch: Counters, rows: Counters)
    requires batch.recordsIn >= rows.recordsIn && batch.recordsDropped >= rows.recordsDropped
    ensures Above(LogOf(name, batch), LogOf(name, rows))
    ensures Level(LogOf(name, batch), LogOf(name, rows)) ==>
      batch.recordsIn == rows.recordsIn && batch.recordsDropped == rows.recordsDropped
  {
    var b, r := LogOf(name, batch), LogOf(name, rows);
    TallyLogOf(name, batch);
    TallyLogOf(name, rows);
    hide LogOf;
    assert Tally(b, name) == batch && Tally(r, name) == rows;
    forall other
      ensures b[(other, In)] >= r[(other, In)] && b[(other, Dropped)] >= r[(other, Dropped)]
    {
      if other != name {
        assert (other, In).0 == (other, Dropped).0 == other;
      }
    }
  }

  lemma NeverBelow(log: Log)
    ensures Above(log, log)
  {
  }

  lemma StageAbove<R(!new)>(stage: Stage<R>, batch: seq<Option<R>>)
    requires PointwiseOn(stage, Live(batch))
    ensures Above(StageRunLog(stage, batch), StageLog(stage, batch))
    ensures Level(StageRunLog(stage, batch), StageLog(stage, batch)) ==> CountsAsRows(stage, batch)
    ensures CountsAsRows(stage, batch) ==> StageRunLog(stage, batch) == StageLog(stage, batch)
  {
    hide Apply;
    hide PointwiseOn;
    hide StageLog;
    hide FastCounts;
    hide BatchCounts;
    hide LogOf;
    hide Above;
    hide Level;
    if stage.Batch? {
      BatchStageCountsHoles(stage, batch);
      FastLog(stage, batch);
      CountersAbove(stage.name, BatchCounts(stage, batch), FastCounts(stage, batch));
    } else {
      NeverBelow(StageLog(stage, batch));
    }
  }

  /** Over a whole chain whose batch stages are pointwise on their survivors, batch run and row run count the
      same events exactly when no batch stage meets a hole or a record that would fail alone. Stages may share a
      name: the batch run never counts fewer records in or fewer drops, so nothing evens out. */
  lemma {:induction false} SameCountsIff<R(!new)>(stages: seq<Stage<R>>, lo: nat, hi: nat, batch: seq<Option<R>>)
    requires lo <= hi <= |stages| && Served(stages, lo, hi, batch)
    ensures Above(BatchLog(stages, lo, hi, batch), RowsLog(stages, lo, hi, batch))
    ensures Level(BatchLog(stages, lo, hi, batch), RowsLog(stages, lo, hi, batch)) ==>
      ChainCountsAsRows(stages, lo, hi, batch)
    ensures BatchLog(stages, lo, hi, batch) == RowsLog(stages, lo, hi, batch) <==>
      ChainCountsAsRows(stages, lo, hi, batch)
    decreases hi - lo
  {
    hide *;
    if lo == hi {
      SameCountsHere(stages, lo, batch);
    } else {
      var next := StageValues(stages[lo], batch);
      ServedStep(stages, lo, hi, batch);
      SameCountsIff(stages, lo + 1, hi, next);
      StageAbove(stages[lo], batch);
      CountsAsRowsStep(stages, lo, hi, batch);
      RowsLogSplit(stages, lo, hi, batch);
      BatchLogSplit(stages, lo, hi, batch);
      Together(StageRunLog(stages[lo], batch), StageLog(stages[lo], batch), CountsAsRows(stages[lo], batch),
               BatchLog(stages, lo + 1, hi, next), RowsLog(stages, lo + 1, hi, next),
               ChainCountsAsRows(stages, lo + 1, hi, next));
    }
  }

  lemma SameCountsHere<R(!new)>(stages: seq<Stage<R>>, lo: nat, batch: seq<Option<R>>)
    requires lo <= |stages|
    ensures BatchLog(stages, lo, lo, batch) == RowsLog(stages, lo, lo, batch)
    ensures ChainCountsAsRows(stages, lo, lo, batch)
    ensures Above(BatchLog(stages, lo, lo, batch), RowsLog(stages, lo, lo, batch))
  {
    RowsLogEmpty(stages, lo, batch);
  }

  lemma Together(b: Log, r: Log, first: bool, c: Log, s: Log, rest: bool)
    requires Above(b, r) && (Level(b, r) ==> first) && (first ==> b == r)
    requires Above(c, s) && (Level(c, s) ==> rest) && (rest ==> c == s)
    ensures Above(b + c, r + s) && (Level(b + c, r + s) ==> first && rest)
    ensures b + c == r + s <==> first && rest
  {
    hide Above;
    hide Level;
    AboveSums(b, c, r, s);
    SameIsLevel(b + c, r + s);
  }

  lemma SameIsLevel(batch: Log, rows: Log)
    ensures batch == rows ==> Level(batch, rows)
  {
  }

  lemma BatchLogSplit<R(!new)>(stages: seq<Stage<R>>, lo: nat, hi: nat, batch: seq<Option<R>>)
    requires lo < hi <= |stages| && PointwiseOn(stages[lo], Live(batch))
    ensures BatchLog(stages, lo, hi, batch)
      == StageRunLog(stages[lo], batch) + BatchLog(stages, lo + 1, hi, StageValues(stages[lo], batch))
  {
    hide StageRun;
    hide StageRunLog;
    PointwiseStage(stages[lo], batch);
  }
}
