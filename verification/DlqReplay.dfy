/** Replaying a durable dead-letter queue: each eligible row is marked, run once and acknowledged, and a
    crash or an exception may come between any two of these steps. There is one replayer at a time, and
    pipelines may write to the table while it works. */
module DlqReplay {
  import opened Options
  import opened Json

  datatype Row = Row(
    pipelineId: string, runId: string, stage: string, createdAt: string,
    record: Value, original: Value, processed: Value,
    attempt: int, maxAttempts: Option<int>)

  /** A row as `DLQSource` yields it; rows read from the table know their id. */
  datatype DLQRecord = DLQRecord(row: Row, storageId: Option<nat>)

  datatype Mode = Pipeline | Sink

  datatype Config = Config(pipelineId: Option<string>, stage: Option<string>, limit: Option<nat>)

  function ReplayPayload(row: Row, mode: Mode): Value {
    match mode
    case Pipeline =>
      if !row.original.Null? then row.original else if !row.record.Null? then row.record else row.processed
    case Sink =>
      if !row.processed.Null? then row.processed else if !row.record.Null? then row.record else row.original
  }

  predicate NoPayload(row: Row) {
    row.record.Null? && row.original.Null? && row.processed.Null?
  }

  /** Whether there is anything to replay does not depend on the mode. */
  lemma NoPayloadInAnyMode(row: Row, mode: Mode)
    ensures ReplayPayload(row, mode).Null? <==> NoPayload(row)
  {
  }

  predicate Eligible(row: Row) {
    row.maxAttempts.None? || row.attempt < row.maxAttempts.value
  }

  // ---- one record, one fate ---------------------------------------------------------------------

  /** A statement may fail before or after it took effect. */
  datatype Effect = Works | RaisesBefore | RaisesAfter

  datatype RunOutcome = Raises | Ends(errored: nat, written: nat)

  datatype Crash = Never | BeforeMark | AfterMark | AfterRun | AfterAcknowledge

  /** What the surroundings do to the replay of one record: the rows others write, and how each step ends. */
  datatype Fate = Fate(
    arrives: seq<Row>,
    prepares: bool, mark: Effect, run: RunOutcome, acknowledge: Effect, crash: Crash)

  datatype Entry = Ran(id: nat, attempt: int, mode: Mode, payload: Value, outcome: RunOutcome) | Deleted(id: nat)

  /** The durable table, every row that ever arrived (its index is its id), and what happened. */
  datatype World = World(rows: map<nat, Row>, arrived: seq<Row>, log: seq<Entry>)

  function Target(w: World, record: DLQRecord): Option<nat> {
    if record.storageId.Some? then record.storageId
    else FirstLike(w, record.row, 0)
  }

  predicate Like(row: Row, other: Row) {
    && row.pipelineId == other.pipelineId && row.runId == other.runId
    && row.stage == other.stage && row.createdAt == other.createdAt
  }

  /** The stored row with the lowest id that agrees on pipeline, run, stage and time of creation. */
  function FirstLike(w: World, row: Row, from: nat): (first: Option<nat>)
    ensures first.Some? ==> from <= first.value < |w.arrived| && first.value in w.rows
    ensures first.Some? ==> Like(w.rows[first.value], row)
    ensures forall id :: from <= id < |w.arrived| && id in w.rows && Like(w.rows[id], row) ==>
      first.Some? && first.value <= id
    decreases |w.arrived| - from
  {
    if from >= |w.arrived| then None
    else if from in w.rows && w.rows[from].pipelineId == row.pipelineId && w.rows[from].runId == row.runId
            && w.rows[from].stage == row.stage && w.rows[from].createdAt == row.createdAt then Some(from)
    else FirstLike(w, row, from + 1)
  }

  function WithAttempt(w: World, target: Option<nat>, attempt: int): World {
    if target.Some? && target.value in w.rows
    then w.(rows := w.rows[target.value := w.rows[target.value].(attempt := attempt)])
    else w
  }

  function Without(w: World, target: Option<nat>): World {
    if target.Some? && target.value in w.rows
    then w.(rows := w.rows - {target.value}, log := w.log + [Deleted(target.value)])
    else w
  }

  function AfterRunning(w: World, mode: Mode, record: DLQRecord, outcome: RunOutcome): World {
    match Target(w, record)
    case None => w
    case Some(id) =>
      w.(log := w.log + [Ran(id, record.row.attempt + 1, mode, ReplayPayload(record.row, mode), outcome)])
  }

  datatype Verdict = Succeeded | Failed | Crashed

  predicate Skipped(mode: Mode, row: Row) {
    (mode == Sink && row.stage != "sink_write") || ReplayPayload(row, mode).Null?
  }

  predicate Good(outcome: RunOutcome) {
    outcome.Ends? && outcome.errored == 0 && outcome.written == 1
  }

  function Arrives(w: World, row: Row): World {
    w.(rows := w.rows[|w.arrived| := row], arrived := w.arrived + [row])
  }

  function ArriveAll(w: World, rows: seq<Row>): World {
    if rows == [] then w else Arrives(ArriveAll(w, rows[..|rows| - 1]), rows[|rows| - 1])
  }

  /** One turn of the replay loop. Rows that others write during it commute with what it does (ArrivalCommutes),
      so they are put at its start. */
  function ReplayOne(w: World, mode: Mode, record: DLQRecord, fate: Fate): (World, Verdict) {
    Turn(ArriveAll(w, fate.arrives), mode, record, fate)
  }

  function Turn(w: World, mode: Mode, record: DLQRecord, fate: Fate): (World, Verdict) {
    if Skipped(mode, record.row) || !fate.prepares then (w, Failed)
    else if fate.crash == BeforeMark then (w, Crashed)
    else if fate.mark == RaisesBefore then (w, Failed)
    else
      var marked := WithAttempt(w, Target(w, record), record.row.attempt + 1);
      if fate.mark == RaisesAfter then (marked, Failed)
      else if fate.crash == AfterMark then (marked, Crashed)
      else
        var ran := AfterRunning(marked, mode, record, fate.run);
        if fate.crash == AfterRun then (ran, Crashed)
        else if !Good(fate.run) || fate.acknowledge == RaisesBefore then (ran, Failed)
        else
          var gone := Without(ran, Target(ran, record));
          if fate.acknowledge == RaisesAfter then (gone, Failed)
          else if fate.crash == AfterAcknowledge then (gone, Crashed)
          else (gone, Succeeded)
  }

  // ---- one pass ---------------------------------------------------------------------------------

  predicate Selects(config: Config, row: Row) {
    && (config.pipelineId.Some? ==> row.pipelineId == config.pipelineId.value)
    && (config.stage.Some? ==> row.stage == config.stage.value)
  }

  /** The selected rows with an id below `upto`, in order. */
  function Fetch(w: World, config: Config, upto: nat): seq<DLQRecord> {
    if upto == 0 then []
    else
      Fetch(w, config, upto - 1) +
      if upto - 1 in w.rows && Selects(config, w.rows[upto - 1])
      then [DLQRecord(w.rows[upto - 1], Some(upto - 1))] else []
  }

  /** The limit cuts before eligibility is looked at. */
  function FetchRows(w: World, config: Config): seq<DLQRecord> {
    var all := Fetch(w, config, |w.arrived|);
    if config.limit.Some? && config.limit.value < |all| then all[..config.limit.value] else all
  }

  datatype Tally = Tally(world: World, attempted: nat, succeeded: nat, failed: nat, crashed: bool)

  function Count(t: Tally, world: World, verdict: Verdict): Tally {
    match verdict
    case Succeeded => Tally(world, t.attempted + 1, t.succeeded + 1, t.failed, false)
    case Failed => Tally(world, t.attempted + 1, t.succeeded, t.failed + 1, false)
    case Crashed => Tally(world, t.attempted + 1, t.succeeded, t.failed, true)
  }

  /** The loop over the fetched records; the `n`th attempted one meets `fate(n)`. */
  function ReplayAll(w: World, mode: Mode, records: seq<DLQRecord>, fate: nat -> Fate): Tally {
    if records == [] then Tally(w, 0, 0, 0, false)
    else
      var t := ReplayAll(w, mode, records[..|records| - 1], fate);
      var record := records[|records| - 1];
      if t.crashed || !Eligible(record.row) then t
      else
        var (world, verdict) := ReplayOne(t.world, mode, record, fate(t.attempted));
        Count(t, world, verdict)
  }

  // ---- the commands -----------------------------------------------------------------------------

  class SQLiteDLQSink {
    var rows: map<nat, Row>
    var arrived: seq<Row>
    ghost var log: seq<Entry>

    ghost function View(): World
      reads this
    {
      World(rows, arrived, log)
    }

    constructor ()
      ensures View() == World(map[], [], [])
    {
      rows, arrived, log := map[], [], [];
    }

    /** AUTOINCREMENT never hands out an id twice. */
    method Write(row: Row)
      modifies this
      ensures View() == Arrives(old(View()), row)
    {
      rows := rows[|arrived| := row];
      arrived := arrived + [row];
    }

    method FindTarget(record: DLQRecord) returns (target: Option<nat>)
      ensures target == Target(View(), record)
      ensures record.storageId.Some? ==> target == record.storageId
      ensures record.storageId.None? && target.Some? ==> target.value in rows && Like(rows[target.value], record.row)
      ensures record.storageId.None? ==>
        forall id :: 0 <= id < |arrived| && id in rows && Like(rows[id], record.row) ==>
          target.Some? && target.value <= id
    {
      if record.storageId.Some? {
        return record.storageId;
      }
      var row := record.row;
      var from := 0;
      while from < |arrived|
        invariant Target(View(), record) == FirstLike(View(), row, from)
        decreases |arrived| - from
      {
        if from in rows && rows[from].pipelineId == row.pipelineId && rows[from].runId == row.runId
           && rows[from].stage == row.stage && rows[from].createdAt == row.createdAt {
          return Some(from);
        }
        from := from + 1;
      }
      return None;
    }

    /** Writes the incremented attempt back before the record is run. */
    method Replay(record: DLQRecord, effect: Effect) returns (updated: Option<DLQRecord>)
      modifies this
      ensures updated == if effect != Works then None
                         else Some(record.(row := record.row.(attempt := record.row.attempt + 1)))
      ensures View() == if effect == RaisesBefore then old(View())
                        else WithAttempt(old(View()), Target(old(View()), record), record.row.attempt + 1)
    {
      if effect == RaisesBefore {
        return None;
      }
      var target := FindTarget(record);
      if target.Some? && target.value in rows {
        rows := rows[target.value := rows[target.value].(attempt := record.row.attempt + 1)];
      }
      if effect != Works {
        return None;
      }
      return Some(record.(row := record.row.(attempt := record.row.attempt + 1)));
    }

    method Acknowledge(record: DLQRecord, effect: Effect) returns (ok: bool)
      modifies this
      ensures ok == (effect == Works)
      ensures View() == if effect == RaisesBefore then old(View())
                        else Without(old(View()), Target(old(View()), record))
    {
      if effect == RaisesBefore {
        return false;
      }
      var target := FindTarget(record);
      if target.Some? && target.value in rows {
        rows := rows - {target.value};
        log := log + [Deleted(target.value)];
      }
      return effect == Works;
    }

    method Rows(config: Config) returns (records: seq<DLQRecord>)
      ensures records == FetchRows(View(), config)
    {
      records := [];
      for i := 0 to |arrived|
        invariant records == Fetch(View(), config, i)
      {
        if i in rows && Selects(config, rows[i]) {
          records := records + [DLQRecord(rows[i], Some(i))];
        }
      }
      if config.limit.Some? && config.limit.value < |records| {
        records := records[..config.limit.value];
      }
    }
  }

  /** A record keeps its row through the marking: the same row is acknowledged as was marked. */
  lemma TargetUpdated(w: World, record: DLQRecord, attempt: int)
    ensures Target(w, record.(row := record.row.(attempt := attempt))) == Target(w, record)
  {
    if record.storageId.None? {
      LikeUpdated(w, record.row, attempt, 0);
    }
  }

  lemma {:induction false} LikeUpdated(w: World, row: Row, attempt: int, from: nat)
    ensures FirstLike(w, row.(attempt := attempt), from) == FirstLike(w, row, from)
    decreases |w.arrived| - from
  {
    if from < |w.arrived| {
      LikeUpdated(w, row, attempt, from + 1);
    }
  }

  /** What other writers do while a record is replayed. */
  method OthersWrite(sink: SQLiteDLQSink, rows: seq<Row>)
    modifies sink
    ensures sink.View() == ArriveAll(old(sink.View()), rows)
  {
    for i := 0 to |rows|
      invariant sink.View() == ArriveAll(old(sink.View()), rows[..i])
    {
      assert rows[..i + 1][..i] == rows[..i];
      sink.Write(rows[i]);
    }
    assert rows[..|rows|] == rows;
  }

  /** The body of the loop for one eligible record. */
  method ReplayRecord(sink: SQLiteDLQSink, mode: Mode, record: DLQRecord, fate: Fate) returns (verdict: Verdict)
    modifies sink
    ensures (sink.View(), verdict) == ReplayOne(old(sink.View()), mode, record, fate)
  {
    OthersWrite(sink, fate.arrives);
    if mode == Sink && record.row.stage != "sink_write" {
      return Failed;
    }
    var payload := ReplayPayload(record.row, mode);
    if payload.Null? {
      return Failed;
    }
    if !fate.prepares {
      return Failed;
    }
    if fate.crash == BeforeMark {
      return Crashed;
    }
    var updated := sink.Replay(record, fate.mark);
    if updated.None? {
      return Failed;
    }
    if fate.crash == AfterMark {
      return Crashed;
    }
    ghost var ran := AfterRunning(sink.View(), mode, record, fate.run);
    sink.log := ran.log;
    if fate.crash == AfterRun {
      return Crashed;
    }
    if fate.run.Raises? {
      return Failed;
    }
    if fate.run.errored > 0 {
      return Failed;
    }
    if fate.run.written != 1 {
      return Failed;
    }
    TargetUpdated(ran, record, record.row.attempt + 1);
    var ok := sink.Acknowledge(updated.value, fate.acknowledge);
    if !ok {
      return Failed;
    }
    if fate.crash == AfterAcknowledge {
      return Crashed;
    }
    return Succeeded;
  }

  /** The replay command; `None` stands for a crash. */
  method RunReplay(sink: SQLiteDLQSink, config: Config, mode: Mode, fate: nat -> Fate)
    returns (exitCode: Option<int>, attempted: nat, succeeded: nat, failed: nat)
    modifies sink
    ensures var t := ReplayAll(old(sink.View()), mode, FetchRows(old(sink.View()), config), fate);
      && sink.View() == t.world && (exitCode.None? <==> t.crashed)
      && (attempted, succeeded, failed) == (t.attempted, t.succeeded, t.failed)
      && (exitCode.Some? ==> exitCode.value == if t.failed > 0 then 1 else 0)
  {
    hide ReplayOne;
    ghost var start := sink.View();
    var records := sink.Rows(config);
    attempted, succeeded, failed := 0, 0, 0;
    for i := 0 to |records|
      invariant ReplayAll(start, mode, records[..i], fate) == Tally(sink.View(), attempted, succeeded, failed, false)
    {
      assert records[..i + 1][..i] == records[..i];
      if !Eligible(records[i].row) {
        continue;
      }
      var verdict := ReplayRecord(sink, mode, records[i], fate(attempted));
      attempted := attempted + 1;
      match verdict {
        case Succeeded => succeeded := succeeded + 1;
        case Failed => failed := failed + 1;
        case Crashed =>
          CrashStays(start, mode, records, fate, i + 1);
          return None, attempted, succeeded, failed;
      }
    }
    assert records[..|records|] == records;
    exitCode := Some(if failed > 0 then 1 else 0);
  }

  lemma {:induction false} CrashStays(w: World, mode: Mode, records: seq<DLQRecord>, fate: nat -> Fate, i: nat)
    requires i <= |records| && ReplayAll(w, mode, records[..i], fate).crashed
    ensures ReplayAll(w, mode, records, fate) == ReplayAll(w, mode, records[..i], fate)
    decreases |records|
  {
    if i < |records| {
      assert records[..|records| - 1][..i] == records[..i];
      CrashStays(w, mode, records[..|records| - 1], fate, i);
    } else {
      assert records[..i] == records;
    }
  }

  // ---- what every step keeps --------------------------------------------------------------------

  function Runs(log: seq<Entry>, id: nat): nat {
    if log == [] then 0
    else Runs(log[..|log| - 1], id) + if log[|log| - 1].Ran? && log[|log| - 1].id == id then 1 else 0
  }

  function Max(a: int, b: int): int {
    if a < b then b else a
  }

  /** Only the attempt of a stored row ever changes, upwards and up to the maximum. */
  ghost predicate Grown(row: Row, first: Row) {
    && row == first.(attempt := row.attempt) && first.attempt <= row.attempt
    && (first.maxAttempts.Some? ==> row.attempt <= Max(first.attempt, first.maxAttempts.value))
  }

  ghost predicate Stored(w: World) {
    && (forall id :: id in w.rows ==> id < |w.arrived| && Grown(w.rows[id], w.arrived[id]))
    && (forall n :: 0 <= n < |w.log| ==> w.log[n].id < |w.arrived|)
    && (forall id :: 0 <= id < |w.arrived| && id !in w.rows ==> Deleted(id) in w.log)
  }

  /** A row has run at most as often as its attempt was raised, and never more often than allowed. */
  ghost predicate Budgeted(w: World) {
    && (forall id :: id in w.rows && id < |w.arrived| ==>
          Runs(w.log, id) <= w.rows[id].attempt - w.arrived[id].attempt)
    && (forall id :: 0 <= id < |w.arrived| && w.arrived[id].maxAttempts.Some? ==>
          Runs(w.log, id) <= Max(0, w.arrived[id].maxAttempts.value - w.arrived[id].attempt))
  }

  /** A row is deleted right after a run that wrote one record without errors. */
  ghost predicate Justified(log: seq<Entry>) {
    forall n :: 0 <= n < |log| && log[n].Deleted? ==>
      n > 0 && log[n - 1].Ran? && log[n - 1].id == log[n].id && Good(log[n - 1].outcome)
  }

  /** Runs of one row carry increasing attempt numbers, none above the stored one. */
  ghost predicate Numbered(w: World) {
    && (forall m, n :: 0 <= m < n < |w.log| && w.log[m].Ran? && w.log[n].Ran? && w.log[m].id == w.log[n].id ==>
          w.log[m].attempt < w.log[n].attempt)
    && (forall n :: 0 <= n < |w.log| && w.log[n].Ran? && w.log[n].id in w.rows ==>
          w.log[n].attempt <= w.rows[w.log[n].id].attempt)
  }

  /** What a run must replay: the input of the pipeline if it was kept, or else what reached the sink, and the
      other way round in sink mode; in between comes the plain record. */
  ghost predicate Carries(row: Row, mode: Mode, payload: Value) {
    var (first, last) := if mode == Pipeline then (row.original, row.processed) else (row.processed, row.original);
    && !payload.Null?
    && (!first.Null? ==> payload == first)
    && (first.Null? && !row.record.Null? ==> payload == row.record)
    && (first.Null? && row.record.Null? ==> payload == last)
  }

  /** Every run replayed the payload the row arrived with. */
  ghost predicate Carried(w: World) {
    forall n :: 0 <= n < |w.log| && w.log[n].Ran? ==>
      w.log[n].id < |w.arrived| && Carries(w.arrived[w.log[n].id], w.log[n].mode, w.log[n].payload)
  }

  ghost predicate Inv(w: World) {
    Stored(w) && Budgeted(w) && Justified(w.log) && Numbered(w) && Carried(w)
  }

  /** The row is marked and its run not yet logged. */
  ghost predicate MarkedFor(w: World, id: nat) {
    && Inv(w) && id in w.rows && id < |w.arrived|
    && Runs(w.log, id) < w.rows[id].attempt - w.arrived[id].attempt
    && (forall n :: 0 <= n < |w.log| && w.log[n].Ran? && w.log[n].id == id ==> w.log[n].attempt < w.rows[id].attempt)
  }

  lemma MarkKeeps(w: World, id: nat)
    requires Inv(w) && id in w.rows && Eligible(w.rows[id])
    ensures MarkedFor(WithAttempt(w, Some(id), w.rows[id].attempt + 1), id)
  {
    hide Runs;
    hide Justified;
  }

  lemma RunsSnoc(log: seq<Entry>, e: Entry, id: nat)
    ensures Runs(log + [e], id) == Runs(log, id) + if e.Ran? && e.id == id then 1 else 0
  {
    assert (log + [e])[..|log|] == log;
  }

  // A run is logged.

  function Logged(w: World, e: Entry): World {
    w.(log := w.log + [e])
  }

  lemma RunStored(w: World, e: Entry)
    requires Stored(w) && e.id < |w.arrived|
    ensures Stored(Logged(w, e))
  {
    hide Grown;
    assert forall x :: x in w.log ==> x in Logged(w, e).log;
  }

  lemma RunJustified(log: seq<Entry>, e: Entry)
    requires Justified(log) && e.Ran?
    ensures Justified(log + [e])
  {
    hide Good;
  }

  lemma RunNumbered(w: World, id: nat, mode: Mode, payload: Value, outcome: RunOutcome)
    requires Numbered(w) && id in w.rows
    requires forall n :: 0 <= n < |w.log| && w.log[n].Ran? && w.log[n].id == id ==>
      w.log[n].attempt < w.rows[id].attempt
    ensures Numbered(Logged(w, Ran(id, w.rows[id].attempt, mode, payload, outcome)))
  {
    var after := Logged(w, Ran(id, w.rows[id].attempt, mode, payload, outcome));
    assert forall n :: 0 <= n < |w.log| ==> after.log[n] == w.log[n];
  }

  lemma RunBudgeted(w: World, id: nat, attempt: int, mode: Mode, payload: Value, outcome: RunOutcome)
    requires Stored(w) && Budgeted(w) && id in w.rows && id < |w.arrived|
    requires Runs(w.log, id) < w.rows[id].attempt - w.arrived[id].attempt
    ensures Budgeted(Logged(w, Ran(id, attempt, mode, payload, outcome)))
  {
    hide Runs;
    forall other: nat
      ensures Runs(Logged(w, Ran(id, attempt, mode, payload, outcome)).log, other)
        == Runs(w.log, other) + if other == id then 1 else 0
    {
      RunsSnoc(w.log, Ran(id, attempt, mode, payload, outcome), other);
    }
    assert Grown(w.rows[id], w.arrived[id]);
  }

  lemma RunCarried(w: World, id: nat, mode: Mode, outcome: RunOutcome)
    requires Stored(w) && Carried(w) && id in w.rows && id < |w.arrived| && !ReplayPayload(w.rows[id], mode).Null?
    ensures Carried(Logged(w, Ran(id, w.rows[id].attempt, mode, ReplayPayload(w.rows[id], mode), outcome)))
  {
    assert Grown(w.rows[id], w.arrived[id]);
  }

  lemma RunKeeps(w: World, id: nat, mode: Mode, outcome: RunOutcome)
    requires MarkedFor(w, id) && !ReplayPayload(w.rows[id], mode).Null?
    ensures Inv(Logged(w, Ran(id, w.rows[id].attempt, mode, ReplayPayload(w.rows[id], mode), outcome)))
  {
    var payload := ReplayPayload(w.rows[id], mode);
    hide Carried;
    hide Stored;
    hide Budgeted;
    hide Justified;
    hide Numbered;
    hide Runs;
    RunStored(w, Ran(id, w.rows[id].attempt, mode, payload, outcome));
    RunJustified(w.log, Ran(id, w.rows[id].attempt, mode, payload, outcome));
    RunNumbered(w, id, mode, payload, outcome);
    RunBudgeted(w, id, w.rows[id].attempt, mode, payload, outcome);
    RunCarried(w, id, mode, outcome);
  }

  // A row is deleted.

  lemma DeleteStored(w: World, id: nat)
    requires Stored(w) && id in w.rows
    ensures Stored(Without(w, Some(id)))
  {
    hide Grown;
    var after := Without(w, Some(id));
    assert after.log[|w.log|] == Deleted(id);
    assert forall x :: x in w.log ==> x in after.log;
  }

  lemma DeleteBudgeted(w: World, id: nat)
    requires Budgeted(w) && id in w.rows
    ensures Budgeted(Without(w, Some(id)))
  {
    hide Runs;
    var after := Without(w, Some(id));
    forall other: nat
      ensures Runs(after.log, other) == Runs(w.log, other)
    {
      RunsSnoc(w.log, Deleted(id), other);
    }
  }

  lemma DeleteNumbered(w: World, id: nat)
    requires Numbered(w) && id in w.rows
    ensures Numbered(Without(w, Some(id)))
  {
    var after := Without(w, Some(id));
    assert forall n :: 0 <= n < |w.log| ==> after.log[n] == w.log[n];
    assert after.log[|w.log|] == Deleted(id);
  }

  lemma DeleteKeeps(w: World, id: nat)
    requires Inv(w) && id in w.rows && w.log != []
    requires w.log[|w.log| - 1].Ran? && w.log[|w.log| - 1].id == id && Good(w.log[|w.log| - 1].outcome)
    ensures Inv(Without(w, Some(id)))
  {
    hide Stored;
    hide Budgeted;
    hide Numbered;
    DeleteStored(w, id);
    DeleteBudgeted(w, id);
    DeleteNumbered(w, id);
  }

  // A row arrives.

  lemma {:induction false} NeverRun(log: seq<Entry>, id: nat)
    requires forall n :: 0 <= n < |log| ==> log[n].id != id
    ensures Runs(log, id) == 0
  {
    if log != [] {
      NeverRun(log[..|log| - 1], id);
    }
  }

  lemma ArriveStored(w: World, row: Row)
    requires Stored(w)
    ensures Stored(Arrives(w, row))
  {
    var after := Arrives(w, row);
    assert forall id :: 0 <= id < |w.arrived| ==> after.arrived[id] == w.arrived[id];
  }

  lemma ArriveBudgeted(w: World, row: Row)
    requires Stored(w) && Budgeted(w)
    ensures Budgeted(Arrives(w, row))
  {
    hide Runs;
    hide Grown;
    NeverRun(w.log, |w.arrived|);
    var after := Arrives(w, row);
    assert forall id :: 0 <= id < |w.arrived| ==> after.arrived[id] == w.arrived[id];
  }

  lemma ArriveKeeps(w: World, row: Row)
    requires Inv(w)
    ensures Inv(Arrives(w, row))
  {
    ArriveStored(w, row);
    ArriveBudgeted(w, row);
    hide Budgeted;
    hide Grown;
    hide Justified;
  }

  /** Time goes forward: rows only gain attempts or disappear, and the log only grows. */
  ghost predicate Advances(before: World, after: World) {
    && before.arrived <= after.arrived && before.log <= after.log
    && (forall id :: id in after.rows && id < |before.arrived| ==> id in before.rows)
    && (forall id :: id in after.rows && id in before.rows && id < |before.arrived| ==>
          before.rows[id].attempt <= after.rows[id].attempt)
  }

  lemma AdvancesSelf(w: World)
    ensures Advances(w, w)
  {
  }

  lemma AdvancesChain(a: World, b: World, c: World)
    requires Advances(a, b) && Advances(b, c)
    ensures Advances(a, c)
  {
  }

  ghost predicate OnlyRow(before: World, after: World, id: nat) {
    forall other :: other != id ==>
      ((other in before.rows <==> other in after.rows)
       && (other in before.rows ==> before.rows[other] == after.rows[other]))
  }

  function MarkedWorld(w: World, id: nat): World
    requires id in w.rows
  {
    WithAttempt(w, Some(id), w.rows[id].attempt + 1)
  }

  function RanWorld(w: World, mode: Mode, id: nat, outcome: RunOutcome): World
    requires id in w.rows
  {
    Logged(MarkedWorld(w, id),
           Ran(id, w.rows[id].attempt + 1, mode, ReplayPayload(w.rows[id], mode), outcome))
  }

  /** Wherever one turn stops, it left the row as it was, marked, marked and run, or deleted after a good run. */
  lemma TurnStops(w: World, mode: Mode, id: nat, fate: Fate)
    requires id in w.rows
    ensures var (after, verdict) := Turn(w, mode, DLQRecord(w.rows[id], Some(id)), fate);
      var ran := RanWorld(w, mode, id, fate.run);
      && (after == w
          || (!ReplayPayload(w.rows[id], mode).Null?
              && (after == MarkedWorld(w, id) || after == ran
                  || (Good(fate.run) && after == Without(ran, Some(id))))))
      && (verdict == Succeeded ==> Good(fate.run) && after == Without(ran, Some(id)))
  {
    hide Good;
  }

  lemma WorldsKeep(w: World, mode: Mode, id: nat, outcome: RunOutcome)
    requires Inv(w) && id in w.rows && Eligible(w.rows[id]) && !ReplayPayload(w.rows[id], mode).Null?
    ensures Inv(MarkedWorld(w, id)) && Inv(RanWorld(w, mode, id, outcome))
    ensures Good(outcome) ==> Inv(Without(RanWorld(w, mode, id, outcome), Some(id)))
  {
    hide Inv;
    hide Runs;
    var marked, ran := MarkedWorld(w, id), RanWorld(w, mode, id, outcome);
    MarkKeeps(w, id);
    assert marked.rows[id].attempt == w.rows[id].attempt + 1;
    RunKeeps(marked, id, mode, outcome);
    if Good(outcome) {
      hide Good;
      DeleteKeeps(ran, id);
    }
  }

  lemma WorldsAdvance(w: World, mode: Mode, id: nat, outcome: RunOutcome)
    requires id in w.rows
    ensures Advances(w, w) && OnlyRow(w, w, id)
    ensures var marked := MarkedWorld(w, id);
      Advances(w, marked) && OnlyRow(w, marked, id) && marked.arrived == w.arrived
    ensures var ran := RanWorld(w, mode, id, outcome);
      Advances(w, ran) && OnlyRow(w, ran, id) && ran.arrived == w.arrived
    ensures var gone := Without(RanWorld(w, mode, id, outcome), Some(id));
      Advances(w, gone) && OnlyRow(w, gone, id) && gone.arrived == w.arrived && id !in gone.rows
  {
  }

  lemma TurnKeeps(w: World, mode: Mode, id: nat, fate: Fate)
    requires Inv(w) && id in w.rows && Eligible(w.rows[id])
    ensures var (after, verdict) := Turn(w, mode, DLQRecord(w.rows[id], Some(id)), fate);
      && Inv(after) && Advances(w, after) && OnlyRow(w, after, id) && after.arrived == w.arrived
      && (verdict == Succeeded ==> id !in after.rows)
  {
    hide *;
    if !ReplayPayload(w.rows[id], mode).Null? {
      WorldsKeep(w, mode, id, fate.run);
    }
    WorldsAdvance(w, mode, id, fate.run);
    TurnStops(w, mode, id, fate);
  }

  /** A row that arrives before a turn may as well arrive after it. */
  lemma ArrivalCommutes(w: World, mode: Mode, id: nat, fate: Fate, row: Row)
    requires id in w.rows && id < |w.arrived|
    ensures var record := DLQRecord(w.rows[id], Some(id));
      var (after, verdict) := Turn(w, mode, record, fate);
      Turn(Arrives(w, row), mode, record, fate) == (Arrives(after, row), verdict)
  {
    hide Skipped;
    hide Good;
    var record := DLQRecord(w.rows[id], Some(id));
    var marked := WithAttempt(w, Some(id), record.row.attempt + 1);
    assert WithAttempt(Arrives(w, row), Some(id), record.row.attempt + 1) == Arrives(marked, row);
    var ran := AfterRunning(marked, mode, record, fate.run);
    assert AfterRunning(Arrives(marked, row), mode, record, fate.run) == Arrives(ran, row);
    assert Without(Arrives(ran, row), Some(id)) == Arrives(Without(ran, Some(id)), row);
  }

  /** `after` is later than `before`, with its old rows as they were. */
  ghost predicate Joined(before: World, after: World) {
    && Advances(before, after)
    && (forall id :: id in before.rows ==> id in after.rows && after.rows[id] == before.rows[id])
    && |after.rows| == |before.rows| + |after.arrived| - |before.arrived|
  }

  lemma ArriveAdvances(w: World, row: Row)
    requires Stored(w)
    ensures Advances(w, Arrives(w, row)) && |w.arrived| !in w.rows
  {
    hide Grown;
  }

  lemma ArriveJoins(before: World, w: World, row: Row)
    requires Inv(w) && Joined(before, w)
    ensures Joined(before, Arrives(w, row))
  {
    assert Stored(w);
    hide Inv;
    hide Stored;
    ArriveAdvances(w, row);
    AdvancesChain(before, w, Arrives(w, row));
    ArriveSize(w, row);
    JoinedAfter(before, w, Arrives(w, row));
  }

  lemma ArriveSize(w: World, row: Row)
    requires |w.arrived| !in w.rows
    ensures var after := Arrives(w, row);
      |after.rows| == |w.rows| + 1 && |after.arrived| == |w.arrived| + 1
      && forall id :: id in w.rows ==> id in after.rows && after.rows[id] == w.rows[id]
  {
    assert Arrives(w, row).rows.Keys == w.rows.Keys + {|w.arrived|};
  }

  lemma JoinedAfter(before: World, w: World, after: World)
    requires Joined(before, w) && Advances(before, after)
    requires |after.rows| == |w.rows| + 1 && |after.arrived| == |w.arrived| + 1
    requires forall id :: id in w.rows ==> id in after.rows && after.rows[id] == w.rows[id]
    ensures Joined(before, after)
  {
    hide Advances;
  }

  lemma {:induction false} ArriveAllKeeps(w: World, rows: seq<Row>)
    requires Inv(w)
    ensures Inv(ArriveAll(w, rows)) && Joined(w, ArriveAll(w, rows))
  {
    hide Inv;
    hide Advances;
    AdvancesSelf(w);
    if rows != [] {
      hide Joined;
      var front := rows[..|rows| - 1];
      ArriveAllKeeps(w, front);
      ArriveKeeps(ArriveAll(w, front), rows[|rows| - 1]);
      ArriveJoins(w, ArriveAll(w, front), rows[|rows| - 1]);
    }
  }

  /** What one turn on row `id` changes: that row, and rows that are new. */
  ghost predicate OnlyOldRow(before: World, after: World, id: nat) {
    forall other :: other in before.rows && other != id ==>
      other in after.rows && after.rows[other] == before.rows[other]
  }

  /** One turn of the loop on a row as it is stored. */
  lemma ReplayOneKeeps(w: World, mode: Mode, id: nat, fate: Fate)
    requires Inv(w) && id in w.rows && Eligible(w.rows[id])
    ensures var (after, verdict) := ReplayOne(w, mode, DLQRecord(w.rows[id], Some(id)), fate);
      && Inv(after) && Advances(w, after) && OnlyOldRow(w, after, id)
      && after.arrived == ArriveAll(w, fate.arrives).arrived
      && (verdict == Succeeded ==> id !in after.rows)
      && |after.rows| + (if verdict == Succeeded then 1 else 0) + |w.arrived| <= |w.rows| + |after.arrived|
  {
    hide Inv;
    hide Turn;
    hide Advances;
    var met := ArriveAll(w, fate.arrives);
    var after := ReplayOne(w, mode, DLQRecord(w.rows[id], Some(id)), fate).0;
    ArriveAllKeeps(w, fate.arrives);
    TurnKeeps(met, mode, id, fate);
    RowsGone(met, after, id);
    AdvancesChain(w, met, after);
  }

  // ---- what one turn does, from its row and its fate --------------------------------------------

  /** The row is of a stage that can be replayed in this mode, and holds something to replay. */
  predicate Replayable(mode: Mode, row: Row) {
    && (mode == Sink ==> row.stage == "sink_write")
    && !(row.record.Null? && row.original.Null? && row.processed.Null?)
  }

  /** The attempt was counted in the table. */
  predicate IsMarked(mode: Mode, row: Row, fate: Fate) {
    Replayable(mode, row) && fate.prepares && fate.crash != BeforeMark && fate.mark != RaisesBefore
  }

  predicate IsRun(mode: Mode, row: Row, fate: Fate) {
    Replayable(mode, row) && fate.prepares && fate.mark == Works && fate.crash != BeforeMark && fate.crash != AfterMark
  }

  predicate Succeeds(mode: Mode, row: Row, fate: Fate) {
    IsRun(mode, row, fate) && fate.run == Ends(0, 1) && fate.acknowledge == Works && fate.crash == Never
  }

  /** A row may be gone without a success: its acknowledgement took effect and then something broke. */
  predicate IsDeleted(mode: Mode, row: Row, fate: Fate) {
    IsRun(mode, row, fate) && fate.run == Ends(0, 1) && fate.acknowledge != RaisesBefore && fate.crash != AfterRun
  }

  predicate Crashes(mode: Mode, row: Row, fate: Fate) {
    && Replayable(mode, row) && fate.prepares
    && match fate.crash
       case Never => false
       case BeforeMark => true
       case AfterMark => fate.mark == Works
       case AfterRun => fate.mark == Works
       case AfterAcknowledge => fate.mark == Works && fate.run == Ends(0, 1) && fate.acknowledge == Works
  }

  /** Each verdict exactly when, for a record with or without a known id. */
  lemma TurnVerdict(w: World, mode: Mode, record: DLQRecord, fate: Fate)
    ensures var verdict := ReplayOne(w, mode, record, fate).1;
      && (verdict == Succeeded <==> Succeeds(mode, record.row, fate))
      && (verdict == Crashed <==> Crashes(mode, record.row, fate))
  {
  }

  /** What a turn leaves of its row, deleted, marked or as it was, and what it logs. */
  ghost predicate Leaves(w: World, mode: Mode, id: nat, fate: Fate, after: World)
    requires id in w.rows
  {
    var row := w.rows[id];
    && (id !in after.rows <==> IsDeleted(mode, row, fate))
    && (id in after.rows ==>
          after.rows[id] == if IsMarked(mode, row, fate) then row.(attempt := row.attempt + 1) else row)
    && after.log == w.log
         + (if IsRun(mode, row, fate)
            then [Ran(id, row.attempt + 1, mode, ReplayPayload(row, mode), fate.run)] else [])
         + (if IsDeleted(mode, row, fate) then [Deleted(id)] else [])
  }

  lemma TurnAloneLeaves(w: World, mode: Mode, id: nat, fate: Fate)
    requires id in w.rows
    ensures Leaves(w, mode, id, fate, Turn(w, mode, DLQRecord(w.rows[id], Some(id)), fate).0)
  {
  }

  lemma TurnLeaves(w: World, mode: Mode, id: nat, fate: Fate)
    requires Inv(w) && id in w.rows
    ensures Leaves(w, mode, id, fate, ReplayOne(w, mode, DLQRecord(w.rows[id], Some(id)), fate).0)
  {
    hide Inv;
    hide Turn;
    hide IsDeleted;
    hide IsMarked;
    hide IsRun;
    ArriveAllKeeps(w, fate.arrives);
    ArriveAllLogs(w, fate.arrives);
    TurnAloneLeaves(ArriveAll(w, fate.arrives), mode, id, fate);
  }

  lemma {:induction false} ArriveAllLogs(w: World, rows: seq<Row>)
    ensures ArriveAll(w, rows).log == w.log && ArriveAll(w, rows).arrived == w.arrived + rows
  {
    if rows != [] {
      ArriveAllLogs(w, rows[..|rows| - 1]);
      assert rows == rows[..|rows| - 1] + [rows[|rows| - 1]];
    }
  }

  // ---- whole passes -----------------------------------------------------------------------------

  /** The records are distinct stored rows, as they are stored. */
  ghost predicate Fresh(w: World, records: seq<DLQRecord>) {
    && (forall k :: 0 <= k < |records| ==>
          records[k].storageId.Some? && records[k].storageId.value in w.rows
          && records[k].row == w.rows[records[k].storageId.value])
    && (forall j, k :: 0 <= j < k < |records| ==> records[j].storageId != records[k].storageId)
  }

  lemma {:induction false} FetchIsFresh(w: World, config: Config, upto: nat)
    ensures Fresh(w, Fetch(w, config, upto))
    ensures forall k :: 0 <= k < |Fetch(w, config, upto)| ==>
      Fetch(w, config, upto)[k].storageId.Some? && Fetch(w, config, upto)[k].storageId.value < upto
  {
    if upto > 0 {
      FetchIsFresh(w, config, upto - 1);
    }
  }

  function EligibleCount(records: seq<DLQRecord>): nat {
    if records == [] then 0
    else EligibleCount(records[..|records| - 1]) + if Eligible(records[|records| - 1].row) then 1 else 0
  }

  /** A pass keeps the invariant wherever it stops; if it is not cut short it attempted every eligible record,
      each of which succeeded or failed, and every success is one row less than arrived meanwhile. */
  lemma {:induction false} PassKeeps(w: World, mode: Mode, records: seq<DLQRecord>, fate: nat -> Fate)
    requires Inv(w) && Fresh(w, records)
    ensures var t := ReplayAll(w, mode, records, fate);
      && Inv(t.world) && Advances(w, t.world)
      && t.attempted == t.succeeded + t.failed + (if t.crashed then 1 else 0)
      && (!t.crashed ==> t.attempted == EligibleCount(records))
      && |t.world.rows| + t.succeeded + |w.arrived| <= |w.rows| + |t.world.arrived|
      && (forall id :: id in w.rows && (forall k :: 0 <= k < |records| ==> records[k].storageId != Some(id)) ==>
            id in t.world.rows && t.world.rows[id] == w.rows[id])
    decreases |records|
  {
    hide Inv;
    hide Advances;
    hide ReplayOne;
    hide Eligible;
    AdvancesSelf(w);
    if records != [] {
      var front, last := records[..|records| - 1], records[|records| - 1];
      assert Fresh(w, front);
      PassKeeps(w, mode, front, fate);
      var t := ReplayAll(w, mode, front, fate);
      var id := last.storageId.value;
      assert id in t.world.rows && t.world.rows[id] == last.row;
      if !t.crashed && Eligible(last.row) {
        var (after, verdict) := ReplayOne(t.world, mode, last, fate(t.attempted));
        assert last == DLQRecord(t.world.rows[id], Some(id));
        ReplayOneKeeps(t.world, mode, id, fate(t.attempted));
        AdvancesChain(w, t.world, after);
      }
    }
  }

  /** Matching rows in id order, all those below `upto`. */
  ghost predicate Fetched(w: World, config: Config, upto: nat, all: seq<DLQRecord>) {
    && (forall k :: 0 <= k < |all| ==> all[k].storageId.Some? && all[k].storageId.value < upto)
    && (forall j, k :: 0 <= j < k < |all| ==> all[j].storageId.value < all[k].storageId.value)
    && (forall k :: 0 <= k < |all| ==> Selects(config, all[k].row))
    && (forall id :: id in w.rows && id < upto && Selects(config, w.rows[id]) ==>
          DLQRecord(w.rows[id], Some(id)) in all)
  }

  lemma FetchedSnoc(w: World, config: Config, upto: nat, all: seq<DLQRecord>)
    requires Fetched(w, config, upto, all)
    ensures Fetched(w, config, upto + 1,
                    all + if upto in w.rows && Selects(config, w.rows[upto])
                          then [DLQRecord(w.rows[upto], Some(upto))] else [])
  {
    hide Selects;
  }

  lemma {:induction false} FetchedBelow(w: World, config: Config, upto: nat)
    ensures Fetched(w, config, upto, Fetch(w, config, upto))
  {
    if upto > 0 {
      FetchedBelow(w, config, upto - 1);
      FetchedSnoc(w, config, upto - 1, Fetch(w, config, upto - 1));
    }
  }

  /** What a pass fetches: stored rows of the wanted pipeline and stage in id order, all of them or, with a limit
      below that, the oldest. */
  lemma FetchedRows(w: World, config: Config)
    requires Inv(w)
    ensures var records := FetchRows(w, config);
      && Fresh(w, records)
      && (forall j, k :: 0 <= j < k < |records| ==> records[j].storageId.value < records[k].storageId.value)
      && (forall k :: 0 <= k < |records| ==>
            && (config.pipelineId.Some? ==> records[k].row.pipelineId == config.pipelineId.value)
            && (config.stage.Some? ==> records[k].row.stage == config.stage.value))
      && (config.limit.Some? ==> |records| <= config.limit.value)
      && (forall id :: id in w.rows
            && (config.pipelineId.Some? ==> w.rows[id].pipelineId == config.pipelineId.value)
            && (config.stage.Some? ==> w.rows[id].stage == config.stage.value)
            ==> DLQRecord(w.rows[id], Some(id)) in records
                || (config.limit == Some(|records|)
                    && forall k :: 0 <= k < |records| ==> records[k].storageId.value < id))
  {
    hide Inv;
    hide Fetch;
    FetchIsFresh(w, config, |w.arrived|);
    FetchedBelow(w, config, |w.arrived|);
    FetchedUpTo(w, config, Fetch(w, config, |w.arrived|), FetchRows(w, config));
  }

  lemma FetchedUpTo(w: World, config: Config, all: seq<DLQRecord>, records: seq<DLQRecord>)
    requires Inv(w) && Fetched(w, config, |w.arrived|, all) && records <= all
    ensures forall id :: id in w.rows && Selects(config, w.rows[id]) ==>
      DLQRecord(w.rows[id], Some(id)) in records
      || (|records| < |all| && forall k :: 0 <= k < |records| ==> records[k].storageId.value < id)
  {
    hide Selects;
    forall id | id in w.rows && Selects(config, w.rows[id]) && DLQRecord(w.rows[id], Some(id)) !in records
      ensures |records| < |all| && forall k :: 0 <= k < |records| ==> records[k].storageId.value < id
    {
      StoredBelow(w, id);
      hide Inv;
      var n :| 0 <= n < |all| && all[n] == DLQRecord(w.rows[id], Some(id));
      assert all[n].storageId.value == id;
      assert all[..|records|] == records;
      assert n >= |records|;
    }
  }

  lemma StoredBelow(w: World, id: nat)
    requires Inv(w) && id in w.rows
    ensures id < |w.arrived|
  {
    assert Stored(w);
  }

  /** The records with attempts left, in order. */
  function Due(records: seq<DLQRecord>): seq<DLQRecord> {
    if records == [] then []
    else
      var last := records[|records| - 1];
      Due(records[..|records| - 1])
      + if last.row.maxAttempts.Some? && last.row.attempt >= last.row.maxAttempts.value then [] else [last]
  }

  lemma {:induction false} DueAmong(records: seq<DLQRecord>, n: nat)
    requires n < |Due(records)|
    ensures Due(records)[n] in records
    decreases |records|
  {
    var front := records[..|records| - 1];
    if n < |Due(front)| {
      DueAmong(front, n);
    }
  }

  /** How many of the first `n` due records succeed. */
  function Successes(mode: Mode, due: seq<DLQRecord>, fate: nat -> Fate, n: nat): nat
    requires n <= |due|
  {
    if n == 0 then 0
    else Successes(mode, due, fate, n - 1) + if Succeeds(mode, due[n - 1].row, fate(n - 1)) then 1 else 0
  }

  lemma {:induction false} SuccessesPrefix(mode: Mode, due: seq<DLQRecord>, more: seq<DLQRecord>, fate: nat -> Fate,
                                           n: nat)
    requires n <= |due|
    ensures Successes(mode, due + more, fate, n) == Successes(mode, due, fate, n)
  {
    if n > 0 {
      SuccessesPrefix(mode, due, more, fate, n - 1);
    }
  }

  /** A pass from its due records and their fates: it attempts them in order up to the first that crashes it, its
      success count is theirs, and of those attempted exactly the deleted ones are gone. */
  ghost predicate PassIs(w: World, mode: Mode, due: seq<DLQRecord>, fate: nat -> Fate, t: Tally) {
    && t.attempted <= |due|
    && t.succeeded == Successes(mode, due, fate, t.attempted)
    && (if t.crashed then t.attempted > 0 && Crashes(mode, due[t.attempted - 1].row, fate(t.attempted - 1))
        else t.attempted == |due|)
    && (forall n :: 0 <= n < t.attempted - (if t.crashed then 1 else 0) ==> !Crashes(mode, due[n].row, fate(n)))
    && (forall n :: 0 <= n < |due| ==> due[n].storageId.Some? && due[n].storageId.value in w.rows)
    && (forall n :: 0 <= n < |due| ==>
          (due[n].storageId.value !in t.world.rows <==> n < t.attempted && IsDeleted(mode, due[n].row, fate(n))))
  }

  /** After a crash nothing more is attempted. */
  lemma PassOver(w: World, mode: Mode, due: seq<DLQRecord>, fate: nat -> Fate, t: Tally, last: DLQRecord)
    requires PassIs(w, mode, due, fate, t) && t.crashed
    requires last.storageId.Some? && last.storageId.value in w.rows && last.storageId.value in t.world.rows
    ensures PassIs(w, mode, due + [last], fate, t)
  {
    hide Succeeds;
    hide IsDeleted;
    hide Crashes;
    SuccessesPrefix(mode, due, [last], fate, t.attempted);
  }

  lemma PassGoesOn(w: World, mode: Mode, due: seq<DLQRecord>, fate: nat -> Fate, t: Tally, last: DLQRecord,
                   after: World, verdict: Verdict)
    requires PassIs(w, mode, due, fate, t) && !t.crashed
    requires last.storageId.Some? && last.storageId.value in w.rows
    requires forall r :: r in due ==> r.storageId != last.storageId
    requires verdict == Succeeded <==> Succeeds(mode, last.row, fate(t.attempted))
    requires verdict == Crashed <==> Crashes(mode, last.row, fate(t.attempted))
    requires last.storageId.value !in after.rows <==> IsDeleted(mode, last.row, fate(t.attempted))
    requires forall id :: id in w.rows && id != last.storageId.value ==> (id in after.rows <==> id in t.world.rows)
    ensures PassIs(w, mode, due + [last], fate, Count(t, after, verdict))
  {
    hide Succeeds;
    hide IsDeleted;
    hide Crashes;
    SuccessesPrefix(mode, due, [last], fate, t.attempted);
  }

  lemma OthersStay(before: World, t: World, after: World, id: nat)
    requires Stored(before) && Advances(before, t) && Advances(t, after) && OnlyOldRow(t, after, id)
    ensures forall other :: other in before.rows && other != id ==> (other in after.rows <==> other in t.rows)
  {
    hide Grown;
  }

  lemma PassTurn(w: World, mode: Mode, due: seq<DLQRecord>, fate: nat -> Fate, t: Tally, last: DLQRecord)
    requires Inv(w) && Inv(t.world) && Advances(w, t.world) && PassIs(w, mode, due, fate, t) && !t.crashed
    requires last.storageId.Some? && last.storageId.value in w.rows && Eligible(last.row)
    requires last.storageId.value in t.world.rows && t.world.rows[last.storageId.value] == last.row
    requires forall r :: r in due ==> r.storageId != last.storageId
    ensures var (after, verdict) := ReplayOne(t.world, mode, last, fate(t.attempted));
      PassIs(w, mode, due + [last], fate, Count(t, after, verdict))
  {
    var id := last.storageId.value;
    var (after, verdict) := ReplayOne(t.world, mode, last, fate(t.attempted));
    assert Stored(w);
    assert last == DLQRecord(t.world.rows[id], Some(id));
    TurnLeaves(t.world, mode, id, fate(t.attempted));
    hide *;
    TurnVerdict(t.world, mode, last, fate(t.attempted));
    ReplayOneKeeps(t.world, mode, id, fate(t.attempted));
    OthersStay(w, t.world, after, id);
    PassGoesOn(w, mode, due, fate, t, last, after, verdict);
  }

  lemma DueSnoc(records: seq<DLQRecord>)
    requires records != []
    ensures var front, last := records[..|records| - 1], records[|records| - 1];
      Due(records) == if Eligible(last.row) then Due(front) + [last] else Due(front)
  {
  }

  lemma {:induction false} PassDecides(w: World, mode: Mode, records: seq<DLQRecord>, fate: nat -> Fate)
    requires Inv(w) && Fresh(w, records)
    ensures PassIs(w, mode, Due(records), fate, ReplayAll(w, mode, records, fate))
    decreases |records|
  {
    hide Inv;
    hide ReplayOne;
    hide Advances;
    hide Eligible;
    if records != [] {
      hide PassIs;
      hide Due;
      var front, last := records[..|records| - 1], records[|records| - 1];
      FreshSnoc(w, records);
      PassDecides(w, mode, front, fate);
      PassKeeps(w, mode, front, fate);
      DueSnoc(records);
      hide Fresh;
      var t := ReplayAll(w, mode, front, fate);
      if Eligible(last.row) {
        if t.crashed {
          PassOver(w, mode, Due(front), fate, t, last);
        } else {
          PassTurn(w, mode, Due(front), fate, t, last);
        }
      }
    }
  }

  lemma FreshSnoc(w: World, records: seq<DLQRecord>)
    requires Fresh(w, records) && records != []
    ensures var front, last := records[..|records| - 1], records[|records| - 1];
      && Fresh(w, front)
      && last.storageId.Some? && last.storageId.value in w.rows && w.rows[last.storageId.value] == last.row
      && (forall k :: 0 <= k < |front| ==> front[k].storageId != last.storageId)
      && (forall r :: r in Due(front) ==> r.storageId != last.storageId)
  {
    var front := records[..|records| - 1];
    forall r | r in Due(front)
      ensures r.storageId != records[|records| - 1].storageId
    {
      var n :| 0 <= n < |Due(front)| && Due(front)[n] == r;
      DueAmong(front, n);
    }
  }

  lemma RowsGone(before: World, after: World, id: nat)
    requires id in before.rows && OnlyRow(before, after, id)
    ensures |after.rows| + (if id in after.rows then 0 else 1) <= |before.rows|
  {
    if id in after.rows {
      assert after.rows.Keys == before.rows.Keys;
    } else {
      assert after.rows.Keys == before.rows.Keys - {id};
    }
  }

  // ---- whole histories --------------------------------------------------------------------------

  datatype Event = Pass(config: Config, mode: Mode, fate: nat -> Fate) | Arrival(row: Row)

  function Happens(w: World, e: Event): World {
    match e
    case Arrival(row) => Arrives(w, row)
    case Pass(config, mode, fate) => ReplayAll(w, mode, FetchRows(w, config), fate).world
  }

  function After(events: seq<Event>): World {
    if events == [] then World(map[], [], [])
    else Happens(After(events[..|events| - 1]), events[|events| - 1])
  }

  lemma EventKeeps(w: World, e: Event)
    requires Inv(w)
    ensures Inv(Happens(w, e)) && Advances(w, Happens(w, e))
  {
    match e
    case Arrival(row) => ArriveKeeps(w, row);
    case Pass(config, mode, fate) =>
      FetchIsFresh(w, config, |w.arrived|);
      assert Fresh(w, FetchRows(w, config));
      PassKeeps(w, mode, FetchRows(w, config), fate);
  }

  lemma {:induction false} HistoryKeeps(events: seq<Event>)
    ensures Inv(After(events))
    decreases |events|
  {
    if events != [] {
      HistoryKeeps(events[..|events| - 1]);
      EventKeeps(After(events[..|events| - 1]), events[|events| - 1]);
    }
  }

  lemma {:induction false} HistoryAdvances(events: seq<Event>, k: nat)
    requires k <= |events|
    ensures Advances(After(events[..k]), After(events))
    decreases |events|
  {
    if k < |events| {
      var front := events[..|events| - 1];
      HistoryAdvances(front, k);
      HistoryKeeps(front);
      assert front[..k] == events[..k];
      hide Inv;
      hide Advances;
      hide Happens;
      EventKeeps(After(front), events[|events| - 1]);
      AdvancesChain(After(events[..k]), After(front), After(events));
    } else {
      assert events[..k] == events;
    }
  }

  /** Over any arrivals and passes, each cut short anywhere: a row that arrived is stored unless it was
      deleted, and it was deleted right after a replay that wrote exactly one record without errors. */
  lemma DeletedOnlyAfterGoodRun(events: seq<Event>, id: nat)
    requires id < |After(events).arrived| && id !in After(events).rows
    ensures var log := After(events).log;
      exists n :: 0 < n < |log| && log[n] == Deleted(id)
        && log[n - 1].Ran? && log[n - 1].id == id && Good(log[n - 1].outcome)
  {
    HistoryKeeps(events);
    var log := After(events).log;
    assert Deleted(id) in log;
    var n :| 0 <= n < |log| && log[n] == Deleted(id);
    assert Justified(log);
    hide Runs;
    assert n > 0 && log[n - 1].Ran?;
  }

  /** Attempts never decrease and a deleted row never comes back. */
  lemma AttemptsNeverDecrease(events: seq<Event>, k: nat, id: nat)
    requires k <= |events| && id in After(events).rows && id < |After(events[..k]).arrived|
    ensures id in After(events[..k]).rows
    ensures After(events[..k]).rows[id].attempt <= After(events).rows[id].attempt
  {
    HistoryAdvances(events, k);
  }

  /** A row that arrived with attempt a and at most m attempts is run at most max(0, m - a) times, and no two
      of its runs carry the same attempt number. */
  lemma RunsWithinBudget(events: seq<Event>, id: nat, m: int)
    requires id < |After(events).arrived| && After(events).arrived[id].maxAttempts == Some(m)
    ensures Runs(After(events).log, id) <= Max(0, m - After(events).arrived[id].attempt)
    ensures var log := After(events).log;
      forall i, j :: 0 <= i < j < |log| && log[i].Ran? && log[j].Ran? && log[i].id == log[j].id == id ==>
        log[i].attempt < log[j].attempt
  {
    HistoryKeeps(events);
  }

  /** A pass that is not cut short accounts for every eligible record it fetched, and every success took one row
      away, whatever arrived during the pass. */
  lemma CompletedPassAccounts(events: seq<Event>, config: Config, mode: Mode, fate: nat -> Fate)
    ensures var w := After(events);
      var t := ReplayAll(w, mode, FetchRows(w, config), fate);
      && (!t.crashed ==> t.attempted == t.succeeded + t.failed == EligibleCount(FetchRows(w, config)))
      && |t.world.rows| + t.succeeded <= |w.rows| + (|t.world.arrived| - |w.arrived|)
      && PassIs(w, mode, Due(FetchRows(w, config)), fate, t)
  {
    var w := After(events);
    HistoryKeeps(events);
    FetchIsFresh(w, config, |w.arrived|);
    assert Fresh(w, FetchRows(w, config));
    PassKeeps(w, mode, FetchRows(w, config), fate);
    PassDecides(w, mode, FetchRows(w, config), fate);
    hide PassIs;
  }

  /** Over any history every run of a row replays the payload it arrived with: in pipeline mode its original input
      if that was kept, in sink mode what reached the sink. */
  lemma RunsReplayThePayload(events: seq<Event>, n: nat)
    requires n < |After(events).log| && After(events).log[n].Ran?
    ensures var w := After(events);
      w.log[n].id < |w.arrived| && Carries(w.arrived[w.log[n].id], w.log[n].mode, w.log[n].payload)
  {
    HistoryKeeps(events);
    hide Carries;
    assert Carried(After(events));
  }

  // ---- rows with nothing to replay --------------------------------------------------------------

  /** The row is stored as it arrived, and nothing was ever logged about it. */
  ghost predicate Untouched(w: World, id: nat) {
    && id in w.rows && id < |w.arrived| && w.rows[id] == w.arrived[id] && NoPayload(w.rows[id])
    && forall n :: 0 <= n < |w.log| ==> w.log[n].id != id
  }

  /** If the row arrived and has no payload, then it is untouched. */
  ghost predicate Spared(w: World, id: nat) {
    id < |w.arrived| && NoPayload(w.arrived[id]) ==> Untouched(w, id)
  }

  lemma TurnSpares(w: World, mode: Mode, other: nat, fate: Fate, id: nat)
    requires other in w.rows && Spared(w, id)
    ensures Spared(Turn(w, mode, DLQRecord(w.rows[other], Some(other)), fate).0, id)
  {
    if other == id {
      NoPayloadInAnyMode(w.rows[id], mode);
    }
    TurnStops(w, mode, other, fate);
    hide Good;
  }

  lemma ArriveSpares(w: World, row: Row, id: nat)
    requires Inv(w) && Spared(w, id)
    ensures Spared(Arrives(w, row), id)
  {
    hide Budgeted;
    hide Justified;
    hide Numbered;
    hide Grown;
  }

  lemma {:induction false} ArriveAllSpares(w: World, rows: seq<Row>, id: nat)
    requires Inv(w) && Spared(w, id)
    ensures Spared(ArriveAll(w, rows), id)
  {
    hide Inv;
    hide Spared;
    if rows != [] {
      var front := rows[..|rows| - 1];
      ArriveAllSpares(w, front, id);
      ArriveAllKeeps(w, front);
      ArriveSpares(ArriveAll(w, front), rows[|rows| - 1], id);
    }
  }

  lemma ReplayOneSpares(w: World, mode: Mode, other: nat, fate: Fate, id: nat)
    requires Inv(w) && other in w.rows && Spared(w, id)
    ensures Spared(ReplayOne(w, mode, DLQRecord(w.rows[other], Some(other)), fate).0, id)
  {
    hide Inv;
    hide Turn;
    hide Spared;
    hide Advances;
    var met := ArriveAll(w, fate.arrives);
    ArriveAllKeeps(w, fate.arrives);
    ArriveAllSpares(w, fate.arrives, id);
    assert met.rows[other] == w.rows[other];
    TurnSpares(met, mode, other, fate, id);
  }

  lemma {:induction false} PassSpares(w: World, mode: Mode, records: seq<DLQRecord>, fate: nat -> Fate, id: nat)
    requires Inv(w) && Fresh(w, records) && Spared(w, id)
    ensures Spared(ReplayAll(w, mode, records, fate).world, id)
    decreases |records|
  {
    hide Inv;
    hide ReplayOne;
    hide Spared;
    hide Eligible;
    if records != [] {
      var front, last := records[..|records| - 1], records[|records| - 1];
      assert Fresh(w, front);
      PassSpares(w, mode, front, fate, id);
      PassKeeps(w, mode, front, fate);
      var t := ReplayAll(w, mode, front, fate);
      var other := last.storageId.value;
      assert other in t.world.rows && t.world.rows[other] == last.row;
      assert last == DLQRecord(t.world.rows[other], Some(other));
      ReplayOneSpares(t.world, mode, other, fate(t.attempted), id);
    }
  }

  lemma EventSpares(w: World, e: Event, id: nat)
    requires Inv(w) && Spared(w, id)
    ensures Spared(Happens(w, e), id)
  {
    hide Inv;
    hide Spared;
    match e
    case Arrival(row) => ArriveSpares(w, row, id);
    case Pass(config, mode, fate) =>
      FetchIsFresh(w, config, |w.arrived|);
      assert Fresh(w, FetchRows(w, config));
      PassSpares(w, mode, FetchRows(w, config), fate, id);
  }

  lemma {:induction false} HistorySpares(events: seq<Event>, id: nat)
    ensures Spared(After(events), id)
    decreases |events|
  {
    hide Happens;
    if events != [] {
      var front := events[..|events| - 1];
      HistoryKeeps(front);
      HistorySpares(front, id);
      EventSpares(After(front), events[|events| - 1], id);
    }
  }

  /** A row that arrived without any payload, be it during a pass, stays as it arrived over any later passes: it
      is never marked, never run and never deleted. */
  lemma EmptyRowsNeverRun(events: seq<Event>, id: nat)
    requires id < |After(events).arrived| && NoPayload(After(events).arrived[id])
    ensures Untouched(After(events), id)
  {
    HistorySpares(events, id);
  }
}
