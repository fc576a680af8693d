/** The middleware chain as the runtime executes it: record-major over one record, stage-major over a
    batch, with hand-written loops for synchronous map and filter and for batch stages. */
module Chain {
  import opened Context
  import opened Options
  import opened Stages

  // ---- hooks along the row path -----------------------------------------------------------------

  function OnInput<R>(stage: Stage<R>, r: R): seq<HookEntry> {
    if stage.Custom? then stage.onInput(r) else []
  }

  function OnOutput<R>(stage: Stage<R>, r: R): seq<HookEntry> {
    if stage.Custom? then stage.onOutput(r) else []
  }

  /** Hooks after one stage: registered on its input, then on its output, then moved to the output. */
  function StageHooks<R>(stage: Stage<R>, r: R, table: HookTable<R>): HookTable<R> {
    var entered := Attach(table, r, OnInput(stage, r));
    var o := Apply(stage, r);
    if o.Value? then Transfer(Attach(entered, o.record, OnOutput(stage, o.record)), r, o.record) else entered
  }

  function StageRegistered<R>(stage: Stage<R>, r: R): seq<HookEntry> {
    var o := Apply(stage, r);
    OnInput(stage, r) + if o.Value? then OnOutput(stage, o.record) else []
  }

  function RowHooks<R>(stages: seq<Stage<R>>, lo: nat, hi: nat, r: R, table: HookTable<R>): HookTable<R>
    requires lo <= hi <= |stages|
    decreases hi - lo
  {
    if lo == hi then table
    else
      var o, next := Apply(stages[lo], r), StageHooks(stages[lo], r, table);
      if o.Value? then RowHooks(stages, lo + 1, hi, o.record, next) else next
  }

  function RowRegistered<R>(stages: seq<Stage<R>>, lo: nat, hi: nat, r: R): seq<HookEntry>
    requires lo <= hi <= |stages|
    decreases hi - lo
  {
    if lo == hi then []
    else
      var o := Apply(stages[lo], r);
      StageRegistered(stages[lo], r) + if o.Value? then RowRegistered(stages, lo + 1, hi, o.record) else []
  }

  /** The input and every intermediate object, in order; the last one is what the run ended with. */
  function Path<R>(stages: seq<Stage<R>>, lo: nat, hi: nat, r: R): (path: seq<R>)
    requires lo <= hi <= |stages|
    ensures path != [] && path[0] == r
    decreases hi - lo
  {
    if lo == hi then [r]
    else
      var o := Apply(stages[lo], r);
      [r] + if o.Value? then Path(stages, lo + 1, hi, o.record) else []
  }

  lemma StageFrame<R>(stage: Stage<R>, r: R, table: HookTable<R>, q: R)
    ensures var next, o := StageHooks(stage, r, table), Apply(stage, r);
      && (q != r && (o.Value? ==> q != o.record) ==> Hooks(next, q) == Hooks(table, q))
      && (o.Value? && o.record != r ==> Hooks(next, r) == [])
  {
  }

  /** The order of the hooks at the output of a custom stage: those it had, those the stage registered on it, and
      behind them those that came along from the input. */
  lemma StageHooksInOrder<R>(stage: Stage<R>, r: R, table: HookTable<R>)
    requires stage.Custom? && stage.process(r).Value?
    ensures var next, out := StageHooks(stage, r, table), stage.process(r).record;
      Hooks(next, out) ==
        if out == r then Hooks(table, r) + stage.onInput(r) + stage.onOutput(r)
        else Hooks(table, out) + stage.onOutput(out) + (Hooks(table, r) + stage.onInput(r))
  {
    var out := stage.process(r).record;
    assert Hooks(table, r) + [] == Hooks(table, r);
    assert Hooks(table, out) + [] == Hooks(table, out);
  }

  lemma StageMoves<R>(stage: Stage<R>, r: R, table: HookTable<R>, records: set<R>)
    requires r in records && (Apply(stage, r).Value? ==> Apply(stage, r).record in records)
    ensures Held(StageHooks(stage, r, table), records)
      == Held(table, records) + multiset(StageRegistered(stage, r))
  {
    var entered, o := Attach(table, r, OnInput(stage, r)), Apply(stage, r);
    HeldAttach(table, r, OnInput(stage, r), records);
    if o.Value? {
      var both := Attach(entered, o.record, OnOutput(stage, o.record));
      HeldAttach(entered, o.record, OnOutput(stage, o.record), records);
      HeldTransfer(both, r, o.record, records);
      AppendTwice(Held(table, records), OnInput(stage, r), OnOutput(stage, o.record));
    } else {
      assert StageRegistered(stage, r) == OnInput(stage, r);
    }
  }

  lemma AppendTwice(held: multiset<HookEntry>, a: seq<HookEntry>, b: seq<HookEntry>)
    ensures held + multiset(a) + multiset(b) == held + multiset(a + b)
  {
  }

  lemma PathStep<R>(stages: seq<Stage<R>>, lo: nat, hi: nat, r: R, table: HookTable<R>)
    requires lo < hi <= |stages| && Apply(stages[lo], r).Value?
    ensures var v := Apply(stages[lo], r).record;
      && Path(stages, lo, hi, r) == [r] + Path(stages, lo + 1, hi, v)
      && RowHooks(stages, lo, hi, r, table) == RowHooks(stages, lo + 1, hi, v, StageHooks(stages[lo], r, table))
      && RowRegistered(stages, lo, hi, r) == StageRegistered(stages[lo], r) + RowRegistered(stages, lo + 1, hi, v)
  {
  }

  /** A path that ends at its first object: nothing left to do, or a drop or an error right there. */
  lemma PathStops<R>(stages: seq<Stage<R>>, lo: nat, hi: nat, r: R, table: HookTable<R>)
    requires lo <= hi <= |stages| && (lo < hi ==> !Apply(stages[lo], r).Value?)
    ensures RowHooks(stages, lo, hi, r, table) == if lo == hi then table else StageHooks(stages[lo], r, table)
    ensures RowRegistered(stages, lo, hi, r) == if lo == hi then [] else StageRegistered(stages[lo], r)
  {
    hide StageHooks;
  }

  lemma NothingMore(held: multiset<HookEntry>)
    ensures held + multiset([]) == held
  {
  }

  lemma {:induction false} PathHeld<R>(stages: seq<Stage<R>>, lo: nat, hi: nat, r: R,
                                       table: HookTable<R>, records: set<R>)
    requires lo <= hi <= |stages|
    requires AsSet(Path(stages, lo, hi, r)) <= records
    ensures Held(RowHooks(stages, lo, hi, r, table), records)
      == Held(table, records) + multiset(RowRegistered(stages, lo, hi, r))
    decreases hi - lo
  {
    hide *;
    HeadOnPath(stages, lo, hi, r);
    if lo < hi && Apply(stages[lo], r).Value? {
      var v, next := Apply(stages[lo], r).record, StageHooks(stages[lo], r, table);
      PathStep(stages, lo, hi, r, table);
      AsSetCons(r, Path(stages, lo + 1, hi, v));
      HeadOnPath(stages, lo + 1, hi, v);
      StageMoves(stages[lo], r, table, records);
      PathHeld(stages, lo + 1, hi, v, next, records);
      Compose(Held(table, records), Held(next, records), Held(RowHooks(stages, lo, hi, r, table), records),
              StageRegistered(stages[lo], r), RowRegistered(stages, lo + 1, hi, v));
    } else {
      PathStops(stages, lo, hi, r, table);
      NothingMore(Held(table, records));
      if lo < hi {
        StageMoves(stages[lo], r, table, records);
      }
    }
  }

  lemma HeadOnPath<R>(stages: seq<Stage<R>>, lo: nat, hi: nat, r: R)
    requires lo <= hi <= |stages|
    ensures r in AsSet(Path(stages, lo, hi, r))
  {
    assert Path(stages, lo, hi, r)[0] == r;
  }

  lemma Compose(a: multiset<HookEntry>, b: multiset<HookEntry>, c: multiset<HookEntry>,
                s: seq<HookEntry>, t: seq<HookEntry>)
    requires b == a + multiset(s) && c == b + multiset(t)
    ensures c == a + multiset(s + t)
  {
    AppendTwice(a, s, t);
  }

  function Last<R>(path: seq<R>): R
    requires path != []
  {
    path[|path| - 1]
  }

  /** Away from the last object of the path, a record on the path keeps no hook and any other record
      keeps its own. */
  lemma {:induction false} AwayFromLast<R>(stages: seq<Stage<R>>, lo: nat, hi: nat, r: R, table: HookTable<R>, q: R)
    requires lo <= hi <= |stages|
    requires q != Last(Path(stages, lo, hi, r))
    ensures Hooks(RowHooks(stages, lo, hi, r, table), q)
      == if q in AsSet(Path(stages, lo, hi, r)) then [] else Hooks(table, q)
    decreases hi - lo
  {
    hide Apply;
    hide StageHooks;
    hide StageRegistered;
    hide Hooks;
    hide AsSet;
    hide Last;
    if lo == hi {
      AlonePath(r, q);
    } else {
      StageFrame(stages[lo], r, table, q);
      if !Apply(stages[lo], r).Value? {
        AlonePath(r, q);
      } else {
        PathStep(stages, lo, hi, r, table);
        hide *;
        var v, next := Apply(stages[lo], r).record, StageHooks(stages[lo], r, table);
        var tail := Path(stages, lo + 1, hi, v);
        TailFacts(r, tail);
        HeadOnPath(stages, lo + 1, hi, v);
        AwayFromLast(stages, lo + 1, hi, v, next, q);
      }
    }
  }

  lemma AlonePath<R>(r: R, q: R)
    ensures AsSet([r] + []) == {r} && AsSet([r]) == {r} && Last([r]) == r && [r] + [] == [r]
  {
  }

  lemma TailFacts<R>(r: R, tail: seq<R>)
    requires tail != []
    ensures AsSet([r] + tail) == {r} + AsSet(tail) && Last([r] + tail) == Last(tail)
  {
  }

  lemma {:induction false} HeldOnlyAt<R>(table: HookTable<R>, records: set<R>, record: R)
    requires record in records
    requires forall q :: q in records && q != record ==> Hooks(table, q) == []
    ensures Held(table, records) == multiset(Hooks(table, record))
    decreases records
  {
    HeldSplit(table, records, record);
    hide Held;
    if records == {record} {
      HeldNone(table);
      assert records - {record} == {};
    } else {
      var q :| q in records && q != record;
      HeldAdd(table, records - {q}, q);
      assert records - {q} + {q} == records;
      HeldOnlyAt(table, records - {q}, record);
    }
  }

  lemma HeldNone<R>(table: HookTable<R>)
    ensures Held(table, {}) == multiset{}
  {
  }

  /** Conservation along the row path: everything attached to the input or to any object on the path, and
      everything registered on the way, ends on the last object of the path and nowhere else on it. That
      object is the output when the record passes, and the last intermediate on a drop or an error. */
  lemma HooksFollowTheRecord<R>(stages: seq<Stage<R>>, lo: nat, hi: nat, origin: R, r: R, table: HookTable<R>)
    requires lo <= hi <= |stages|
    ensures var path, after := Path(stages, lo, hi, r), RowHooks(stages, lo, hi, r, table);
      var last, result := Last(path), RowRun(stages, lo, hi, origin, r);
      && multiset(Hooks(after, last))
         == Held(table, AsSet(path)) + multiset(RowRegistered(stages, lo, hi, r))
      && (forall q :: q != last ==> Hooks(after, q) == if q in AsSet(path) then [] else Hooks(table, q))
      && (result.Passed? ==> result.value == last)
  {
    hide RowHooks;
    hide RowRegistered;
    hide RowRun;
    hide Path;
    hide Held;
    var path, after := Path(stages, lo, hi, r), RowHooks(stages, lo, hi, r, table);
    PathHeld(stages, lo, hi, r, table, AsSet(path));
    forall q | q != Last(path)
      ensures Hooks(after, q) == if q in AsSet(path) then [] else Hooks(table, q)
    {
      AwayFromLast(stages, lo, hi, r, table, q);
    }
    assert Last(path) in AsSet(path);
    HeldOnlyAt(after, AsSet(path), Last(path));
    PathEnd(stages, lo, hi, origin, r);
  }

  lemma {:induction false} PathEnd<R>(stages: seq<Stage<R>>, lo: nat, hi: nat, origin: R, r: R)
    requires lo <= hi <= |stages|
    ensures var path, result := Path(stages, lo, hi, r), RowRun(stages, lo, hi, origin, r);
      result.Passed? ==> result.value == Last(path)
    decreases hi - lo
  {
    if lo < hi {
      var o := Apply(stages[lo], r);
      if o.Value? {
        PathEnd(stages, lo + 1, hi, origin, o.record);
      }
    }
  }

  // ---- facts the batch loops need ---------------------------------------------------------------

  lemma NoStageLog<R>(stage: Stage<R>)
    ensures StageLog(stage, []) == multiset{}
  {
  }

  lemma {:induction false} AllHoles<R>(stage: Stage<R>, batch: seq<Option<R>>)
    requires Holes(batch) == |batch|
    ensures StageValues(stage, batch) == batch && StageLog(stage, batch) == multiset{}
    decreases |batch|
  {
    if batch != [] {
      AllHoles(stage, batch[1..]);
      assert StageValues(stage, batch)[1..] == StageValues(stage, batch[1..]);
      assert batch == [batch[0]] + batch[1..];
    }
  }

  lemma {:induction false} NoHoles<R>(batch: seq<Option<R>>, results: seq<Option<R>>)
    requires forall i :: 0 <= i < |batch| ==> batch[i].Some?
    ensures |Live(batch)| == |batch| && Holes(batch) == 0
    ensures |results| == |batch| ==> Expand(batch, results) == results
    decreases |batch|
  {
    if batch != [] && |results| > 0 {
      NoHoles(batch[1..], results[1..]);
    } else if batch != [] {
      NoHoles(batch[1..], results);
    }
  }

  lemma {:induction false} ExpandFront<R>(batch: seq<Option<R>>, results: seq<Option<R>>, i: nat)
    requires |results| == |Live(batch)| && i < |batch|
    ensures |Live(batch[..i])| <= |results|
    ensures |Expand(batch, results)| == |batch|
    ensures batch[i].Some? ==> |Live(batch[..i])| < |results|
    ensures Expand(batch, results)[i] == if batch[i].Some? then results[|Live(batch[..i])|] else None
    ensures |Live(batch[..i + 1])| == |Live(batch[..i])| + if batch[i].Some? then 1 else 0
    decreases |batch|
  {
    ExpandKeepsHoles(batch, results);
    if i > 0 {
      assert batch[..i][1..] == batch[1..][..i - 1];
      assert batch[..i + 1][1..] == batch[1..][..i];
      ExpandFront(batch[1..], if batch[0].Some? then results[1..] else results, i - 1);
    } else {
      assert batch[..1][1..] == [];
    }
  }

  lemma LogTwice<R>(log: Log, stage: Stage<R>, r: R)
    ensures var o := Apply(stage, r);
      log + StepLog(stage, r) == (log + Repeated(stage.name, In, 1))
        + Repeated(stage.name, match o case Error => Errored case Drop => Dropped case Value(_) => Out, 1)
  {
  }

  lemma RowLogStep<R>(log: Log, stages: seq<Stage<R>>, idx: nat, stop: nat, r: R)
    requires idx < stop <= |stages|
    ensures var o := Apply(stages[idx], r);
      log + RowLog(stages, idx, stop, r) == (log + StepLog(stages[idx], r))
        + if o.Value? then RowLog(stages, idx + 1, stop, o.record) else multiset{}
  {
  }

  lemma RowRegisteredStep<R>(registered: multiset<HookEntry>, stages: seq<Stage<R>>, idx: nat, stop: nat, r: R)
    requires idx < stop <= |stages|
    ensures var o := Apply(stages[idx], r);
      registered + multiset(RowRegistered(stages, idx, stop, r))
      == registered + multiset(StageRegistered(stages[idx], r))
        + multiset(if o.Value? then RowRegistered(stages, idx + 1, stop, o.record) else [])
  {
    var o := Apply(stages[idx], r);
    AppendTwice(registered, StageRegistered(stages[idx], r),
                if o.Value? then RowRegistered(stages, idx + 1, stop, o.record) else []);
  }

  lemma ValuesSnoc<R>(stage: Stage<R>, batch: seq<Option<R>>, slot: Option<R>)
    ensures StageValues(stage, batch + [slot]) == StageValues(stage, batch) + [SlotValue(stage, slot)]
  {
  }

  lemma FastSnoc<R>(stage: Stage<R>, batch: seq<Option<R>>, slot: Option<R>)
    ensures var c, d := FastCounts(stage, batch), FastCounts(stage, batch + [slot]);
      if slot.None? then d == c
      else
        var o := Apply(stage, slot.value);
        d == Counters(c.recordsIn + 1, c.recordsOut + (if o.Value? then 1 else 0),
                      c.recordsDropped + (if o.Drop? then 1 else 0), c.recordsErrored + (if o.Error? then 1 else 0))
  {
    assert (batch + [slot])[..|batch|] == batch;
  }

  lemma SnocLog(before: Log, front: Log, step: Log)
    ensures before + (front + step) == before + front + step
  {
  }

  lemma SingleStage<R>(stages: seq<Stage<R>>, idx: nat, r: R)
    requires idx < |stages|
    ensures RowLog(stages, idx, idx + 1, r) == StepLog(stages[idx], r)
    ensures var result := RowRun(stages, idx, idx + 1, r, r);
      ToOption(Apply(stages[idx], r)) == if result.Passed? then Some(result.value) else None
  {
    hide Apply;
    var o := Apply(stages[idx], r);
    if o.Value? {
      assert RowRun(stages, idx + 1, idx + 1, r, o.record) == Passed(o.record);
      assert RowLog(stages, idx + 1, idx + 1, o.record) == multiset{};
    }
  }

  lemma LogOfAssoc(before: Log, name: string, c: Counters)
    ensures before + Repeated(name, In, c.recordsIn) + Repeated(name, Errored, c.recordsErrored)
      + Repeated(name, Dropped, c.recordsDropped) + Repeated(name, Out, c.recordsOut) == before + LogOf(name, c)
  {
    var a, b := Repeated(name, In, c.recordsIn), Repeated(name, Errored, c.recordsErrored);
    var d, o := Repeated(name, Dropped, c.recordsDropped), Repeated(name, Out, c.recordsOut);
    assert before + a + b + d + o == before + (a + b + d + o);
  }

  lemma NoneAfter(log: Log, name: string)
    ensures log + Repeated(name, Errored, 0) == log && log + Repeated(name, Dropped, 0) == log
    ensures log + Repeated(name, Out, 0) == log
  {
  }

  lemma BatchLogStep<R>(log: Log, stages: seq<Stage<R>>, idx: nat, stop: nat, batch: seq<Option<R>>)
    requires idx < stop <= |stages|
    ensures var step := StageRun(stages[idx], batch);
      log + BatchLog(stages, idx, stop, batch) == (log + StageRunLog(stages[idx], batch))
        + if step.Results? then BatchLog(stages, idx + 1, stop, step.results) else multiset{}
  {
    hide StageRun;
    hide StageRunLog;
  }

  lemma RowsLogNone<R>(stages: seq<Stage<R>>, lo: nat, hi: nat, batch: seq<Option<R>>)
    requires lo <= hi <= |stages| && batch == []
    ensures RowsLog(stages, lo, hi, batch) == multiset{}
  {
  }

  lemma RowStep<R>(stages: seq<Stage<R>>, idx: nat, stop: nat, origin: R, r: R, table: HookTable<R>)
    requires idx < stop <= |stages|
    ensures var o, next := Apply(stages[idx], r), StageHooks(stages[idx], r, table);
      && RowRun(stages, idx, stop, origin, r) == (
           match o
           case Error => Failed(origin, stages[idx].name)
           case Drop => Discarded
           case Value(v) => RowRun(stages, idx + 1, stop, origin, v))
      && RowHooks(stages, idx, stop, r, table)
         == if o.Value? then RowHooks(stages, idx + 1, stop, o.record, next) else next
  {
    hide Apply;
    hide StageHooks;
  }

  lemma EmptyRange<R>(stages: seq<Stage<R>>, lo: nat, origin: R, r: R, table: HookTable<R>)
    requires lo <= |stages|
    ensures RowLog(stages, lo, lo, r) == multiset{} && RowRegistered(stages, lo, lo, r) == []
    ensures RowRun(stages, lo, lo, origin, r) == Passed(r) && RowHooks(stages, lo, lo, r, table) == table
  {
  }

  lemma {:induction false} RowsLogSnoc<R>(stages: seq<Stage<R>>, lo: nat, hi: nat, batch: seq<Option<R>>,
                                                slot: Option<R>)
    requires lo <= hi <= |stages|
    ensures RowsLog(stages, lo, hi, batch + [slot])
      == RowsLog(stages, lo, hi, batch) + if slot.Some? then RowLog(stages, lo, hi, slot.value) else multiset{}
    decreases |batch|
  {
    hide RowLog;
    if batch == [] {
      assert batch + [slot] == [slot];
      assert RowsLog(stages, lo, hi, [slot][1..]) == multiset{};
    } else {
      RowsLogSnoc(stages, lo, hi, batch[1..], slot);
      assert (batch + [slot])[1..] == batch[1..] + [slot];
    }
  }

  // ---- the chain --------------------------------------------------------------------------------

  ghost predicate BuiltinFast<R>(stage: Stage<R>) {
    stage.SyncMap? || stage.SyncFilter?
  }

  class MiddlewareChain<R(==, !new)> {
    const stages: seq<Stage<R>>
    const prefixCounts: seq<nat>

    ghost predicate Valid() {
      && |prefixCounts| == |stages| + 1
      && forall k :: 0 <= k <= |stages| ==> prefixCounts[k] == |FastStages(k)|
    }

    ghost function FastStages(k: int): set<int>
      requires k <= |stages|
    {
      set i: int | 0 <= i < k && BuiltinFast(stages[i])
    }

    constructor (middlewares: seq<Stage<R>>)
      ensures stages == middlewares && Valid()
    {
      stages := middlewares;
      var counts: seq<nat>, fast: nat := [0], 0;
      ghost var found: set<int> := {};
      for i := 0 to |middlewares|
        invariant |counts| == i + 1 && fast == |found|
        invariant found == set j: int | 0 <= j < i && BuiltinFast(middlewares[j])
        invariant forall k :: 0 <= k <= i ==>
          counts[k] == |set j: int | 0 <= j < k && BuiltinFast(middlewares[j])|
      {
        if middlewares[i].SyncMap? || middlewares[i].SyncFilter? {
          fast := fast + 1;
          found := found + {i};
        }
        counts := counts + [fast];
        assert found == set j: int | 0 <= j < i + 1 && BuiltinFast(middlewares[j]);
      }
      prefixCounts := counts;
      new;
      forall k | 0 <= k <= |stages|
        ensures prefixCounts[k] == |FastStages(k)|
      {
        assert FastStages(k) == set j: int | 0 <= j < k && BuiltinFast(middlewares[j]);
      }
    }

    /** Two prefix counts decide whether a whole range consists of synchronous built-ins. */
    method RangeIsSyncBuiltinFast(start: int, stop: int) returns (fast: bool)
      requires Valid()
      ensures fast <==> 0 <= start < stop <= |stages| && forall k :: start <= k < stop ==> BuiltinFast(stages[k])
    {
      if start < 0 || stop > |stages| || start >= stop {
        return false;
      }
      RangeCount(start, stop);
      return prefixCounts[stop] as int - prefixCounts[start] as int == stop - start;
    }

    lemma {:induction false} RangeCount(start: int, stop: int)
      requires 0 <= start <= stop <= |stages|
      ensures |FastStages(stop)| - |FastStages(start)| <= stop - start
      ensures |FastStages(stop)| - |FastStages(start)| == stop - start
        <==> forall k :: start <= k < stop ==> BuiltinFast(stages[k])
      decreases stop
    {
      if start < stop {
        RangeCount(start, stop - 1);
        if BuiltinFast(stages[stop - 1]) {
          assert FastStages(stop) == FastStages(stop - 1) + {stop - 1};
        } else {
          assert FastStages(stop) == FastStages(stop - 1);
        }
      }
    }

    /** `middleware.process(record, ctx)`, with whatever hooks the stage registers. */
    method RunStage(stage: Stage<R>, r: R, ctx: PipelineContext<R>) returns (o: Outcome<R>)
      requires ctx.Valid()
      modifies ctx`hooks, ctx`registered
      ensures ctx.Valid() && o == Apply(stage, r)
      ensures ctx.registered == old(ctx.registered) + multiset(StageRegistered(stage, r))
      ensures ctx.hooks == var entered := Attach(old(ctx.hooks), r, OnInput(stage, r));
        if o.Value? then Attach(entered, o.record, OnOutput(stage, o.record)) else entered
    {
      hide Shows;
      hide Compact;
      hide Conserved;
      o := Apply(stage, r);
      ctx.RegisterAll(r, OnInput(stage, r));
      if o.Value? {
        ctx.RegisterAll(o.record, OnOutput(stage, o.record));
        AppendTwice(old(ctx.registered), OnInput(stage, r), OnOutput(stage, o.record));
      } else {
        assert StageRegistered(stage, r) == OnInput(stage, r);
      }
    }

    /** One record through a slice of the chain. */
    method ProcessRangeOutcome(start: int, stop: int, record: R, ctx: PipelineContext<R>) returns (result: RowResult<R>)
      requires ctx.Valid()
      requires start < stop ==> 0 <= start && stop <= |stages|
      modifies ctx`metrics, ctx`hooks, ctx`log, ctx`registered
      ensures ctx.Valid()
      ensures start >= stop ==> result == Passed(record) && unchanged(ctx)
      ensures start < stop ==>
        && result == RowRun(stages, start, stop, record, record)
        && ctx.log == old(ctx.log) + RowLog(stages, start, stop, record)
        && ctx.hooks == RowHooks(stages, start, stop, record, old(ctx.hooks))
        && ctx.registered == old(ctx.registered) + multiset(RowRegistered(stages, start, stop, record))
    {
      hide Shows;
      hide Compact;
      hide Conserved;
      if start >= stop {
        return Passed(record);
      }
      hide *;
      ghost var total := ctx.log + RowLog(stages, start, stop, record);
      ghost var everRegistered := ctx.registered + multiset(RowRegistered(stages, start, stop, record));
      var current := record;
      var idx: nat := start;
      while idx < stop
        invariant start <= idx <= stop && ctx.Valid()
        invariant RowRun(stages, start, stop, record, record) == RowRun(stages, idx, stop, record, current)
        invariant total == ctx.log + RowLog(stages, idx, stop, current)
        invariant RowHooks(stages, start, stop, record, old(ctx.hooks))
          == RowHooks(stages, idx, stop, current, ctx.hooks)
        invariant everRegistered == ctx.registered + multiset(RowRegistered(stages, idx, stop, current))
      {
        RowLogStep(ctx.log, stages, idx, stop, current);
        RowRegisteredStep(ctx.registered, stages, idx, stop, current);
        RowStep(stages, idx, stop, record, current, ctx.hooks);
        var o := Step(idx, current, ctx);
        if o.Error? {
          return Failed(record, stages[idx].name);
        }
        if o.Drop? {
          return Discarded;
        }
        current := o.record;
        idx := idx + 1;
      }
      EmptyRange(stages, stop, record, current, ctx.hooks);
      result := Passed(current);
    }

    /** One iteration of the row loop: count in, process, then count the outcome and move the hooks. */
    method Step(idx: nat, current: R, ctx: PipelineContext<R>) returns (o: Outcome<R>)
      requires ctx.Valid() && idx < |stages|
      modifies ctx`metrics, ctx`hooks, ctx`log, ctx`registered
      ensures ctx.Valid() && o == Apply(stages[idx], current)
      ensures ctx.log == old(ctx.log) + StepLog(stages[idx], current)
      ensures ctx.hooks == StageHooks(stages[idx], current, old(ctx.hooks))
      ensures ctx.registered == old(ctx.registered) + multiset(StageRegistered(stages[idx], current))
    {
      hide Shows;
      hide Compact;
      hide Conserved;
      LogTwice(ctx.log, stages[idx], current);
      var name := stages[idx].name;
      ctx.Count(name, In, 1);
      o := RunStage(stages[idx], current, ctx);
      match o {
        case Error => ctx.Count(name, Errored, 1);
        case Drop => ctx.Count(name, Dropped, 1);
        case Value(next) =>
          ctx.TransferSuccessHooks(current, next);
          ctx.Count(name, Out, 1);
      }
    }

    /** The default batch loop: every live slot goes through `process_range(idx, idx + 1)`. */
    method ApplyDefault(current: seq<Option<R>>, ctx: PipelineContext<R>, idx: nat) returns (next: seq<Option<R>>)
      requires ctx.Valid() && idx < |stages|
      modifies ctx`metrics, ctx`hooks, ctx`log, ctx`registered
      ensures ctx.Valid()
      ensures next == StageValues(stages[idx], current)
      ensures ctx.log == old(ctx.log) + StageLog(stages[idx], current)
    {
      hide Shows;
      hide Compact;
      hide Conserved;
      hide StageLog;
      hide StepLog;
      hide Apply;
      next := [];
      ghost var before := ctx.log;
      NoStageLog(stages[idx]);
      for i := 0 to |current|
        invariant ctx.Valid()
        invariant next == StageValues(stages[idx], current[..i])
        invariant ctx.log == before + StageLog(stages[idx], current[..i])
      {
        assert current[..i + 1] == current[..i] + [current[i]];
        StageLogSnoc(stages[idx], current[..i], current[i]);
        ValuesSnoc(stages[idx], current[..i], current[i]);
        if current[i].None? {
          next := next + [None];
          continue;
        }
        var r := current[i].value;
        SingleStage(stages, idx, r);
        SnocLog(before, StageLog(stages[idx], current[..i]), StepLog(stages[idx], r));
        var result := ProcessRangeOutcome(idx, idx + 1, r, ctx);
        match result {
          case Passed(value) => next := next + [Some(value)];
          case Discarded => next := next + [None];
          case Failed(_, _) => next := next + [None];
        }
      }
      assert current[..|current|] == current;
    }

    /** The fast loop of a synchronous map: counters are accumulated locally and added at the end. */
    method ApplySyncMap(current: seq<Option<R>>, ctx: PipelineContext<R>, stage: Stage<R>)
      returns (next: seq<Option<R>>)
      requires ctx.Valid() && stage.SyncMap?
      modifies ctx`metrics, ctx`log
      ensures ctx.Valid()
      ensures next == StageValues(stage, current)
      ensures forall i :: 0 <= i < |current| ==>
        next[i] == if current[i].Some? && stage.fn(current[i].value).Value?
                   then Some(stage.fn(current[i].value).record) else None
      ensures ctx.log == old(ctx.log) + StageLog(stage, current)
    {
      hide Shows;
      hide Compact;
      hide Conserved;
      var active := |current| - Holes(current);
      if active == 0 {
        AllHoles(stage, current);
        return current;
      }
      ctx.Count(stage.name, In, active);
      next := [];
      var dropped: nat, errors: nat, written: nat := 0, 0, 0;
      for i := 0 to |current|
        modifies {}
        invariant next == StageValues(stage, current[..i])
        invariant FastCounts(stage, current[..i])
          == Counters(FastCounts(stage, current[..i]).recordsIn, written, dropped, errors)
      {
        assert current[..i + 1] == current[..i] + [current[i]];
        ValuesSnoc(stage, current[..i], current[i]);
        FastSnoc(stage, current[..i], current[i]);
        if current[i].None? {
          next := next + [None];
          continue;
        }
        match stage.fn(current[i].value) {
          case Error =>
            errors := errors + 1;
            next := next + [None];
          case Drop =>
            dropped := dropped + 1;
            next := next + [None];
          case Value(record) =>
            written := written + 1;
            next := next + [Some(record)];
        }
      }
      assert current[..|current|] == current;
      AddFastCounts(ctx, stage, current, errors, dropped, written);
    }

    /** The fast loop of a synchronous filter, which keeps the record object itself. */
    method ApplySyncFilter(current: seq<Option<R>>, ctx: PipelineContext<R>, stage: Stage<R>)
      returns (next: seq<Option<R>>)
      requires ctx.Valid() && stage.SyncFilter?
      modifies ctx`metrics, ctx`log
      ensures ctx.Valid()
      ensures next == StageValues(stage, current)
      ensures forall i :: 0 <= i < |current| ==>
        next[i] == if current[i].Some? && stage.test(current[i].value).Keep? then current[i] else None
      ensures ctx.log == old(ctx.log) + StageLog(stage, current)
    {
      hide Shows;
      hide Compact;
      hide Conserved;
      var active := |current| - Holes(current);
      if active == 0 {
        AllHoles(stage, current);
        return current;
      }
      ctx.Count(stage.name, In, active);
      next := [];
      var dropped: nat, errors: nat, written: nat := 0, 0, 0;
      for i := 0 to |current|
        modifies {}
        invariant next == StageValues(stage, current[..i])
        invariant FastCounts(stage, current[..i])
          == Counters(FastCounts(stage, current[..i]).recordsIn, written, dropped, errors)
      {
        assert current[..i + 1] == current[..i] + [current[i]];
        ValuesSnoc(stage, current[..i], current[i]);
        FastSnoc(stage, current[..i], current[i]);
        if current[i].None? {
          next := next + [None];
          continue;
        }
        match stage.test(current[i].value) {
          case Raise =>
            errors := errors + 1;
            next := next + [None];
          case Keep =>
            written := written + 1;
            next := next + [current[i]];
          case Reject =>
            dropped := dropped + 1;
            next := next + [None];
        }
      }
      assert current[..|current|] == current;
      AddFastCounts(ctx, stage, current, errors, dropped, written);
    }

    /** The three `+=` at the end of a fast loop, after `records_in` was counted at its start. */
    method AddFastCounts(ctx: PipelineContext<R>, stage: Stage<R>, current: seq<Option<R>>,
                         errors: nat, dropped: nat, written: nat)
      requires ctx.Valid()
      requires FastCounts(stage, current) == Counters(FastCounts(stage, current).recordsIn, written, dropped, errors)
      modifies ctx`metrics, ctx`log
      ensures ctx.Valid()
      ensures forall before :: old(ctx.log) == before + Repeated(stage.name, In, |current| - Holes(current)) ==>
        ctx.log == before + StageLog(stage, current)
    {
      hide Shows;
      hide Compact;
      hide Conserved;
      FastIn(stage, current);
      FastLog(stage, current);
      ghost var c := FastCounts(stage, current);
      forall before | old(ctx.log) == before + Repeated(stage.name, In, |current| - Holes(current))
        ensures old(ctx.log) + Repeated(stage.name, Errored, errors) + Repeated(stage.name, Dropped, dropped)
          + Repeated(stage.name, Out, written) == before + StageLog(stage, current)
      {
        LogOfAssoc(before, stage.name, c);
      }
      ctx.Count(stage.name, Errored, errors);
      ctx.Count(stage.name, Dropped, dropped);
      ctx.Count(stage.name, Out, written);
    }

    /** Scans for a hole; without one the results are the new batch, else they are dealt out slot by slot. */
    method Reexpand(current: seq<Option<R>>, results: seq<Option<R>>) returns (updated: seq<Option<R>>)
      requires |results| == |Live(current)|
      ensures updated == Expand(current, results)
    {
      var hasNone := false;
      for i := 0 to |current|
        invariant !hasNone && forall j :: 0 <= j < i ==> current[j].Some?
      {
        if current[i].None? {
          hasNone := true;
          break;
        }
      }
      if !hasNone {
        NoHoles(current, results);
        return results;
      }
      updated := [];
      var k := 0;
      ExpandKeepsHoles(current, results);
      for i := 0 to |current|
        invariant k == |Live(current[..i])|
        invariant updated == Expand(current, results)[..i]
      {
        ExpandFront(current, results, i);
        if current[i].Some? {
          updated := updated + [results[k]];
          k := k + 1;
        } else {
          updated := updated + [None];
        }
      }
    }

    /** A batch stage: compact, run once on the live records, check the length, re-expand. */
    method ApplyBatchStage(current: seq<Option<R>>, ctx: PipelineContext<R>, stage: Stage<R>)
      returns (result: BatchResult<R>)
      requires ctx.Valid() && stage.Batch?
      modifies ctx`metrics, ctx`log
      ensures ctx.Valid()
      ensures result == BatchStage(stage, current)
      ensures ctx.log == old(ctx.log) + LogOf(stage.name, BatchCounts(stage, current))
    {
      hide Shows;
      hide Compact;
      hide Conserved;
      hide LogOf;
      hide Repeated;
      hide Live;
      hide Holes;
      ghost var before := ctx.log;
      LogOfAssoc(before, stage.name, BatchCounts(stage, current));
      ctx.Count(stage.name, In, |current|);
      var live := Live(current);
      var outcome := stage.processBatch(live);
      if outcome.Raised? {
        ctx.Count(stage.name, Errored, |live|);
        NoneAfter(ctx.log, stage.name);
        return BatchFailure(live, stage.name);
      }
      var results := outcome.results;
      if |results| != |live| {
        NoneAfter(ctx.log, stage.name);
        return LengthMismatch(stage.name);
      }
      var updated := Reexpand(current, results);
      var dropped := Holes(updated) - Holes(current);
      NoneAfter(ctx.log, stage.name);
      ctx.Count(stage.name, Dropped, if dropped > 0 then dropped else 0);
      ctx.Count(stage.name, Out, |updated| - Holes(updated));
      result := Results(updated);
    }

    /** `apply_in_batch`, dispatched on the kind of stage. */
    method ApplyInBatch(current: seq<Option<R>>, ctx: PipelineContext<R>, idx: nat) returns (result: BatchResult<R>)
      requires ctx.Valid() && idx < |stages|
      modifies ctx`metrics, ctx`hooks, ctx`log, ctx`registered
      ensures ctx.Valid()
      ensures result == StageRun(stages[idx], current)
      ensures ctx.log == old(ctx.log) + StageRunLog(stages[idx], current)
    {
      hide Shows;
      hide Compact;
      hide Conserved;
      match stages[idx] {
        case Custom(_, _, _, _) =>
          var next := ApplyDefault(current, ctx, idx);
          result := Results(next);
        case SyncMap(_, _) =>
          var next := ApplySyncMap(current, ctx, stages[idx]);
          result := Results(next);
        case SyncFilter(_, _) =>
          var next := ApplySyncFilter(current, ctx, stages[idx]);
          result := Results(next);
        case Batch(_, _) =>
          result := ApplyBatchStage(current, ctx, stages[idx]);
      }
    }

    /** A batch through a slice of the chain, stopping at the first failed batch stage. */
    method ProcessBatchRange(start: nat, stop: nat, records: seq<Option<R>>, ctx: PipelineContext<R>)
      returns (result: BatchResult<R>)
      requires ctx.Valid() && start <= stop <= |stages|
      modifies ctx`metrics, ctx`hooks, ctx`log, ctx`registered
      ensures ctx.Valid()
      ensures result == BatchRun(stages, start, stop, records)
      ensures ctx.log == old(ctx.log) + BatchLog(stages, start, stop, records)
    {
      hide StageRun;
      hide StageRunLog;
      hide Shows;
      hide Compact;
      hide Conserved;
      var current := records;
      var idx := start;
      while idx < stop
        invariant start <= idx <= stop && ctx.Valid()
        invariant BatchRun(stages, start, stop, records) == BatchRun(stages, idx, stop, current)
        invariant old(ctx.log) + BatchLog(stages, start, stop, records)
          == ctx.log + BatchLog(stages, idx, stop, current)
      {
        BatchLogStep(ctx.log, stages, idx, stop, current);
        var step := ApplyInBatch(current, ctx, idx);
        if !step.Results? {
          return step;
        }
        current := step.results;
        idx := idx + 1;
      }
      result := Results(current);
    }

    /** The record-major run over a batch: every live record through the slice, one after another. */
    method ProcessRows(start: nat, stop: nat, records: seq<Option<R>>, ctx: PipelineContext<R>)
      returns (values: seq<Option<R>>)
      requires ctx.Valid() && start <= stop <= |stages|
      modifies ctx`metrics, ctx`hooks, ctx`log, ctx`registered
      ensures ctx.Valid() && |values| == |records|
      ensures forall i :: 0 <= i < |records| ==>
        values[i] == if records[i].None? then None else RowValue(stages, start, stop, records[i].value)
      ensures ctx.log == old(ctx.log) + RowsLog(stages, start, stop, records)
    {
      hide RowRun;
      hide RowLog;
      hide RowsLog;
      hide RowHooks;
      hide RowRegistered;
      hide Shows;
      hide Compact;
      hide Conserved;
      values := [];
      ghost var before := ctx.log;
      RowsLogNone(stages, start, stop, records[..0]);
      for i := 0 to |records|
        invariant ctx.Valid() && |values| == i
        invariant forall j :: 0 <= j < i ==>
          values[j] == if records[j].None? then None else RowValue(stages, start, stop, records[j].value)
        invariant ctx.log == before + RowsLog(stages, start, stop, records[..i])
      {
        assert records[..i + 1] == records[..i] + [records[i]];
        RowsLogSnoc(stages, start, stop, records[..i], records[i]);
        if records[i].None? {
          values := values + [None];
          continue;
        }
        var r := records[i].value;
        SnocLog(before, RowsLog(stages, start, stop, records[..i]), RowLog(stages, start, stop, r));
        EmptyRange(stages, start, r, r, ctx.hooks);
        var result := ProcessRangeOutcome(start, stop, r, ctx);
        values := values + [if result.Passed? then Some(result.value) else None];
      }
      assert records[..|records|] == records;
    }
  }

  /** Record-major against batch-major over the whole chain whose batch stages are pointwise on their survivors:
      the same value at every slot, and the same counting events exactly when no batch stage meets a hole or a
      record that would fail alone. A chain of row stages always meets both conditions. */
  lemma BatchRefinesRows<R(!new)>(stages: seq<Stage<R>>, records: seq<Option<R>>)
    ensures Served(stages, 0, |stages|, records) ==>
      BatchRun(stages, 0, |stages|, records) == Results(Survivors(stages, 0, |stages|, records))
    ensures Served(stages, 0, |stages|, records) ==>
      (BatchLog(stages, 0, |stages|, records) == RowsLog(stages, 0, |stages|, records)
       <==> ChainCountsAsRows(stages, 0, |stages|, records))
    ensures (forall k :: 0 <= k < |stages| ==> !stages[k].Batch?) ==>
      Served(stages, 0, |stages|, records)
      && BatchLog(stages, 0, |stages|, records) == RowsLog(stages, 0, |stages|, records)
  {
    RowStagesAreAlike(stages, records);
    hide *;
    if Served(stages, 0, |stages|, records) {
      BatchValuesAreRowValues(stages, 0, |stages|, records);
      SameCountsIff(stages, 0, |stages|, records);
    }
  }

  lemma RowStagesAreAlike<R>(stages: seq<Stage<R>>, records: seq<Option<R>>)
    ensures (forall k :: 0 <= k < |stages| ==> !stages[k].Batch?) ==>
      Served(stages, 0, |stages|, records) && ChainCountsAsRows(stages, 0, |stages|, records)
  {
    hide Survivors;
  }

  lemma SameCountersLevel(rowMetrics: map<string, Counters>, batchMetrics: map<string, Counters>,
                          before: Log, rows: Log, batch: Log)
    requires Shows(rowMetrics, before + rows) && Shows(batchMetrics, before + batch)
    requires forall name :: Lookup(rowMetrics, name) == Lookup(batchMetrics, name)
    ensures Level(batch, rows)
  {
    forall name
      ensures batch[(name, In)] == rows[(name, In)] && batch[(name, Dropped)] == rows[(name, Dropped)]
    {
      assert Lookup(rowMetrics, name) == Tally(before + rows, name);
      assert Lookup(batchMetrics, name) == Tally(before + batch, name);
    }
  }

  /** The same comparison between the two executions themselves, on contexts with equal counters. */
  method RunBothWays<R(==, !new)>(chain: MiddlewareChain<R>, records: seq<Option<R>>,
                                  rowCtx: PipelineContext<R>, batchCtx: PipelineContext<R>)
    returns (values: seq<Option<R>>, result: BatchResult<R>)
    requires rowCtx != batchCtx && rowCtx.Valid() && batchCtx.Valid() && rowCtx.log == batchCtx.log
    modifies rowCtx, batchCtx
    ensures Served(chain.stages, 0, |chain.stages|, records) ==>
      result == Results(values)
      && ((forall name :: Lookup(rowCtx.metrics, name) == Lookup(batchCtx.metrics, name))
          <==> ChainCountsAsRows(chain.stages, 0, |chain.stages|, records))
    ensures (forall k :: 0 <= k < |chain.stages| ==> !chain.stages[k].Batch?) ==>
      result == Results(values)
      && forall name :: Lookup(rowCtx.metrics, name) == Lookup(batchCtx.metrics, name)
  {
    var n := |chain.stages|;
    ghost var before := rowCtx.log;
    values := chain.ProcessRows(0, n, records, rowCtx);
    result := chain.ProcessBatchRange(0, n, records, batchCtx);
    BatchRefinesRows(chain.stages, records);
    RowStagesAreAlike(chain.stages, records);
    assert values == Survivors(chain.stages, 0, n, records);
    ghost var rows, batch := RowsLog(chain.stages, 0, n, records), BatchLog(chain.stages, 0, n, records);
    if Served(chain.stages, 0, n, records) {
      SameCountsIff(chain.stages, 0, n, records);
      if rows == batch {
        forall name
          ensures Lookup(rowCtx.metrics, name) == Lookup(batchCtx.metrics, name)
        {
          SameLogSameCounters(rowCtx.metrics, batchCtx.metrics, rowCtx.log, name);
        }
      } else if forall name :: Lookup(rowCtx.metrics, name) == Lookup(batchCtx.metrics, name) {
        SameCountersLevel(rowCtx.metrics, batchCtx.metrics, before, rows, batch);
      }
    }
  }
}
