/** Schema inference, evolution and the four-contract processor on values.

    A record is its field dictionary and a schema its column dictionary; Python dictionaries are ordered,
    but nothing stated here depends on the order. The schema hash is taken to be injective on the content
    it digests. */
module SchemaStream {
  import opened Options
  import opened SchemaTypes

  type Record = map<string, PyValue>

  datatype Contract = EVOLVE | FREEZE | DISCARD_COLUMN | DISCARD_ROW

  datatype Column = Column(dataType: DataType, nullable: bool, inferredFrom: nat)

  datatype Schema = Schema(table: string, columns: map<string, Column>, version: nat)

  /** What the schema hash digests. */
  datatype Content = Content(table: string, columns: map<string, (DataType, bool)>)

  function ContentOf(s: Schema): Content {
    Content(s.table, map c | c in s.columns :: (s.columns[c].dataType, s.columns[c].nullable))
  }

  // ---- inference --------------------------------------------------------------------------------

  /** `observe` of one record on top of what was observed before. */
  function Observed(columns: map<string, Column>, record: Record): (out: map<string, Column>)
    ensures out.Keys == columns.Keys + record.Keys
  {
    map c | c in columns.Keys + record.Keys ::
      if c !in record then columns[c]
      else if c !in columns then Column(InferPythonType(record[c]), true, 1)
      else Column(WidenType(columns[c].dataType, InferPythonType(record[c])),
                  columns[c].nullable || record[c] == PyNone,
                  columns[c].inferredFrom + 1)
  }

  function ObservedAll(records: seq<Record>): map<string, Column> {
    if records == [] then map[]
    else Observed(ObservedAll(records[..|records| - 1]), records[|records| - 1])
  }

  function InferSchema(table: string, records: seq<Record>): Schema {
    Schema(table, ObservedAll(records), 1)
  }

  /** The types of the values a column had in the records that have it, in order. */
  function TypesOf(records: seq<Record>, c: string): seq<DataType> {
    if records == [] then []
    else
      var last := records[|records| - 1];
      TypesOf(records[..|records| - 1], c) + if c in last then [InferPythonType(last[c])] else []
  }

  lemma JoinedSnoc(types: seq<DataType>, t: DataType)
    ensures Joined(types + [t]) == if types == [] then t else WidenType(Joined(types), t)
    ensures Streamed(types + [t]) == if types == [] then t else MergeType(Streamed(types), t)
  {
    assert (types + [t])[..|types|] == types;
  }

  /** One-shot inference: a column appears iff some record has it, with the join of its value types, and
      counts the records that have it. */
  lemma {:induction false} InferredColumns(records: seq<Record>, c: string)
    ensures c in ObservedAll(records) <==> TypesOf(records, c) != []
    ensures c in ObservedAll(records) ==>
      ObservedAll(records)[c] == Column(Joined(TypesOf(records, c)), true, |TypesOf(records, c)|)
    decreases |records|
  {
    if records != [] {
      var front, last := records[..|records| - 1], records[|records| - 1];
      InferredColumns(front, c);
      assert ObservedAll(records) == Observed(ObservedAll(front), last);
      if c in last {
        var before, t := TypesOf(front, c), InferPythonType(last[c]);
        assert TypesOf(records, c) == before + [t];
        JoinedSnoc(before, t);
        if before == [] {
          assert ObservedAll(records)[c] == Column(t, true, 1);
        } else {
          assert ObservedAll(records)[c] == Column(WidenType(Joined(before), t), true, |before| + 1);
        }
      } else {
        assert TypesOf(records, c) == TypesOf(front, c);
      }
    }
  }

  /** Which types a column had, and in how many records. */
  lemma {:induction false} TypesOfMembers(records: seq<Record>, c: string, t: DataType)
    ensures t in TypesOf(records, c) <==> exists r :: r in records && c in r && InferPythonType(r[c]) == t
    decreases |records|
  {
    if records != [] {
      var front, last := records[..|records| - 1], records[|records| - 1];
      TypesOfMembers(front, c, t);
      assert records == front + [last];
    }
  }

  function Without(records: seq<Record>, i: nat): (rest: seq<Record>)
    requires i < |records|
    ensures |rest| == |records| - 1
  {
    records[..i] + records[i + 1..]
  }

  lemma TypesSnoc(records: seq<Record>, last: Record, c: string)
    ensures TypesOf(records + [last], c)
      == TypesOf(records, c) + if c in last then [InferPythonType(last[c])] else []
  {
    assert (records + [last])[..|records|] == records;
  }

  lemma {:induction false} TypesOfRemoved(records: seq<Record>, i: nat, c: string)
    requires i < |records|
    ensures |TypesOf(records, c)| == |TypesOf(Without(records, i), c)| + if c in records[i] then 1 else 0
    decreases |records|
  {
    hide TypesOf;
    var front, last := records[..|records| - 1], records[|records| - 1];
    assert records == front + [last];
    TypesSnoc(front, last, c);
    if i == |front| {
      assert Without(records, i) == front;
    } else {
      TypesOfRemoved(front, i, c);
      assert Without(records, i) == Without(front, i) + [last];
      TypesSnoc(Without(front, i), last, c);
    }
  }

  lemma PickOut(left: seq<Record>, right: seq<Record>) returns (j: nat)
    requires multiset(left) == multiset(right) && left != []
    ensures j < |right| && right[j] == left[0]
    ensures multiset(Without(left, 0)) == multiset(Without(right, j))
  {
    SameBag(left, right);
    assert left[0] in right;
    j :| 0 <= j < |right| && right[j] == left[0];
    BagWithout(left, 0);
    BagWithout(right, j);
  }

  lemma {:induction false} TypesOfPermuted(left: seq<Record>, right: seq<Record>, c: string)
    requires multiset(left) == multiset(right)
    ensures |TypesOf(left, c)| == |TypesOf(right, c)|
    decreases |left|
  {
    hide TypesOf;
    if left == [] {
      SameBag(left, right);
      assert right == [];
    } else {
      var j := PickOut(left, right);
      TypesOfPermuted(Without(left, 0), Without(right, j), c);
      TypesOfRemoved(left, 0, c);
      TypesOfRemoved(right, j, c);
    }
  }

  lemma SameBag(left: seq<Record>, right: seq<Record>)
    requires multiset(left) == multiset(right)
    ensures |left| == |right|
    ensures forall r :: r in left <==> r in right
  {
    assert |left| == |multiset(left)| == |multiset(right)| == |right|;
    assert forall r :: r in left <==> r in multiset(left);
    assert forall r :: r in right <==> r in multiset(right);
  }

  lemma BagWithout(records: seq<Record>, i: nat)
    requires i < |records|
    ensures multiset(Without(records, i)) == multiset(records) - multiset{records[i]}
  {
    assert records == records[..i] + [records[i]] + records[i + 1..];
  }

  /** `infer_schema` does not depend on the order of the records. */
  lemma InferSchemaOrderFree(table: string, left: seq<Record>, right: seq<Record>)
    requires multiset(left) == multiset(right)
    ensures InferSchema(table, left) == InferSchema(table, right)
  {
    forall c
      ensures c in ObservedAll(left) <==> c in ObservedAll(right)
      ensures c in ObservedAll(left) ==> ObservedAll(left)[c] == ObservedAll(right)[c]
    {
      InferredColumns(left, c);
      InferredColumns(right, c);
      TypesOfPermuted(left, right, c);
      SameBag(left, right);
      forall t
        ensures t in TypesOf(left, c) <==> t in TypesOf(right, c)
      {
        TypesOfMembers(left, c, t);
        TypesOfMembers(right, c, t);
      }
      if TypesOf(left, c) != [] {
        JoinedOrderFree(TypesOf(left, c), TypesOf(right, c));
      }
    }
    assert ObservedAll(left) == ObservedAll(right);
  }

  // ---- evolution --------------------------------------------------------------------------------

  datatype Change =
    | ColumnAdded(added: DataType)
    | TypeWidened(old': DataType, new': DataType)
    | TypeConflict(old': DataType, new': DataType)
    | ColumnDiscarded(discarded: DataType)

  /** Each column contributes at most one change, so the change list is a dictionary by column name. */
  type Changes = map<string, Change>

  datatype Merge = Merged(schema: Schema, changes: Changes) | Violation(changes: Changes)

  function MergeColumn(o: Column, n: Column): Column {
    Column(MergeType(o.dataType, n.dataType), o.nullable || n.nullable, o.inferredFrom + n.inferredFrom)
  }

  predicate ColumnChanges(contract: Contract, o: Schema, n: Schema, c: string)
    requires c in n.columns
  {
    if c in o.columns then o.columns[c].dataType != n.columns[c].dataType
    else contract == EVOLVE || contract == DISCARD_COLUMN
  }

  function ChangeOf(contract: Contract, o: Schema, n: Schema, c: string): Change
    requires c in n.columns
  {
    var t := n.columns[c].dataType;
    if c !in o.columns then if contract == EVOLVE then ColumnAdded(t) else ColumnDiscarded(t)
    else
      var s := o.columns[c].dataType;
      if CanWiden(s, t) then TypeWidened(s, WidenType(s, t)) else TypeConflict(s, t)
  }

  function ChangesOf(contract: Contract, o: Schema, n: Schema): Changes {
    map c | c in n.columns && ColumnChanges(contract, o, n, c) :: ChangeOf(contract, o, n, c)
  }

  function MergedColumns(contract: Contract, o: Schema, n: Schema): (out: map<string, Column>)
    ensures out.Keys == o.columns.Keys + if contract == EVOLVE then n.columns.Keys else {}
  {
    map c | c in o.columns.Keys + (if contract == EVOLVE then n.columns.Keys else {}) ::
      if c !in n.columns then o.columns[c]
      else if c in o.columns then MergeColumn(o.columns[c], n.columns[c])
      else n.columns[c]
  }

  predicate BreaksFreeze(o: Schema, n: Schema) {
    exists c :: c in n.columns && (c in o.columns ==> o.columns[c].dataType != n.columns[c].dataType)
  }

  /** `SchemaEvolution.merge` without the hash short-circuit. */
  function FullMerge(contract: Contract, o: Schema, n: Schema): Merge {
    var changes := ChangesOf(contract, o, n);
    if contract == FREEZE && BreaksFreeze(o, n) then Violation(changes)
    else Merged(Schema(o.table, MergedColumns(contract, o, n), NextVersion(o.version, changes)), changes)
  }

  function NextVersion(version: nat, changes: Changes): nat {
    version + if changes == map[] then 0 else 1
  }

  function MergeSchemas(contract: Contract, o: Schema, n: Schema): Merge {
    if ContentOf(o) == ContentOf(n) then Merged(o, map[]) else FullMerge(contract, o, n)
  }

  /** The hash short-circuit agrees with the full merge except for sample counts. */
  lemma ShortCircuitAgrees(contract: Contract, o: Schema, n: Schema)
    requires ContentOf(o) == ContentOf(n)
    ensures var full := FullMerge(contract, o, n);
      && full.Merged? && full.changes == map[]
      && ContentOf(full.schema) == ContentOf(o) && full.schema.version == o.version
      && forall c :: c in o.columns ==>
           full.schema.columns[c].inferredFrom == o.columns[c].inferredFrom + n.columns[c].inferredFrom
  {
    assert o.columns.Keys == ContentOf(o).columns.Keys == ContentOf(n).columns.Keys == n.columns.Keys;
    forall c | c in o.columns
      ensures o.columns[c].dataType == n.columns[c].dataType && o.columns[c].nullable == n.columns[c].nullable
    {
      assert ContentOf(o).columns[c] == ContentOf(n).columns[c];
    }
    assert ChangesOf(contract, o, n) == map[];
    assert ContentOf(FullMerge(contract, o, n).schema).columns == ContentOf(o).columns;
  }

  // ---- the processor ----------------------------------------------------------------------------

  datatype Metrics =
    Metrics(columnsAdded: nat, typesWidened: nat, typeConflicts: nat, recordsObserved: nat, schemaVersion: nat)

  datatype Processor = Processor(schema: Option<Schema>, pendingError: Option<Changes>, metrics: Metrics)

  datatype Processed = Processed(record: Option<Record>, schema: Option<Schema>, changes: Changes)

  function Fresh(): Processor {
    Processor(None, None, Metrics(0, 0, 0, 0, 1))
  }

  function Loaded(schema: Option<Schema>): Processor {
    Processor(schema, None, Metrics(0, 0, 0, 0, if schema.Some? then schema.value.version else 1))
  }

  /** A column unknown to the schema, or a non-null value of a type other than the column's. */
  predicate Violates(record: Record, schema: Schema) {
    exists c :: c in record &&
      (c in schema.columns ==>
        InferPythonType(record[c]) != NULL && InferPythonType(record[c]) != schema.columns[c].dataType)
  }

  function Candidate(contract: Contract, p: Processor, record: Record): (out: Record)
    ensures out.Keys <= record.Keys
  {
    if p.schema.Some? && contract == DISCARD_COLUMN
    then map c | c in record && c in p.schema.value.columns :: record[c]
    else record
  }

  function CountChanges(changes: Changes): (nat, nat, nat) {
    (|set c | c in changes && changes[c].ColumnAdded?|,
     |set c | c in changes && changes[c].TypeWidened?|,
     |set c | c in changes && changes[c].TypeConflict?|)
  }

  function InitialChanges(schema: Schema): Changes {
    map c | c in schema.columns :: ColumnAdded(schema.columns[c].dataType)
  }

  /** `SchemaProcessor.process`. */
  function Process(contract: Contract, table: string, p: Processor, record: Record): (Processor, Processed) {
    if p.schema.Some? && contract == DISCARD_ROW && Violates(record, p.schema.value) then
      (p, Processed(None, p.schema, map[]))
    else
      var candidate := Candidate(contract, p, record);
      Absorb(contract, p, candidate, InferSchema(table, [candidate]))
  }

  /** The rest of `process`, once the record's own schema is inferred. */
  function Absorb(contract: Contract, p: Processor, candidate: Record, inferred: Schema): (Processor, Processed) {
    var m := p.metrics.(recordsObserved := p.metrics.recordsObserved + 1);
    if inferred.columns == map[] then
      (p.(metrics := m), Processed(Some(candidate), p.schema, map[]))
    else if p.schema.None? then
      (p.(schema := Some(inferred),
          metrics := m.(columnsAdded := m.columnsAdded + |inferred.columns|, schemaVersion := inferred.version)),
       Processed(Some(candidate), Some(inferred), InitialChanges(inferred)))
    else
      match MergeSchemas(contract, p.schema.value, inferred)
      case Violation(changes) =>
        (p.(metrics := m, pendingError := if p.pendingError.Some? then p.pendingError else Some(changes)),
         Processed(None, p.schema, map[]))
      case Merged(merged, changes) =>
        var (added, widened, conflicts) := CountChanges(changes);
        (p.(schema := Some(merged),
            metrics := Metrics(m.columnsAdded + added, m.typesWidened + widened, m.typeConflicts + conflicts,
                               m.recordsObserved, merged.version)),
         Processed(Some(candidate), Some(merged), changes))
  }

  function Run(contract: Contract, table: string, start: Processor, records: seq<Record>): Processor {
    if records == [] then start
    else Process(contract, table, Run(contract, table, start, records[..|records| - 1]), records[|records| - 1]).0
  }

  // ---- one step ---------------------------------------------------------------------------------

  lemma RecordSchema(table: string, record: Record)
    ensures var s := InferSchema(table, [record]);
      && s.columns.Keys == record.Keys
      && (forall c :: c in record ==> s.columns[c] == Column(InferPythonType(record[c]), true, 1))
  {
    assert ObservedAll([record][..0]) == map[];
    assert ObservedAll([record]) == Observed(map[], record);
  }

  /** Only FREEZE ever rejects a merge. */
  lemma OnlyFreezeRaises(contract: Contract, o: Schema, n: Schema)
    ensures MergeSchemas(contract, o, n).Violation? <==>
      contract == FREEZE && ContentOf(o) != ContentOf(n) && BreaksFreeze(o, n)
  {
  }

  /** A merge that goes through, short-circuited or not. */
  lemma MergeView(contract: Contract, o: Schema, n: Schema)
    ensures var m := MergeSchemas(contract, o, n);
      m.Merged? ==>
        && m.schema.table == o.table
        && m.schema.version == o.version + (if m.changes == map[] then 0 else 1)
        && m.schema.columns.Keys == o.columns.Keys + (if contract == EVOLVE then n.columns.Keys else {})
        && (forall c :: c in o.columns && c !in n.columns ==> m.schema.columns[c] == o.columns[c])
        && (forall c :: c in o.columns && c in n.columns ==>
              && m.schema.columns[c].dataType == MergeType(o.columns[c].dataType, n.columns[c].dataType)
              && (m.schema.columns[c].nullable <==> o.columns[c].nullable || n.columns[c].nullable)
              && m.schema.columns[c].inferredFrom == o.columns[c].inferredFrom +
                   if ContentOf(o) == ContentOf(n) then 0 else n.columns[c].inferredFrom)
        && (forall c :: c !in o.columns && c in m.schema.columns ==> m.schema.columns[c] == n.columns[c])
  {
    if ContentOf(o) == ContentOf(n) {
      SameContent(o, n);
    }
  }

  lemma SameContent(o: Schema, n: Schema)
    requires ContentOf(o) == ContentOf(n)
    ensures o.table == n.table && o.columns.Keys == n.columns.Keys
    ensures forall c :: c in o.columns ==>
      o.columns[c].dataType == n.columns[c].dataType && o.columns[c].nullable == n.columns[c].nullable
  {
    assert o.columns.Keys == ContentOf(o).columns.Keys == ContentOf(n).columns.Keys == n.columns.Keys;
    forall c | c in o.columns
      ensures o.columns[c].dataType == n.columns[c].dataType && o.columns[c].nullable == n.columns[c].nullable
    {
      assert ContentOf(o).columns[c] == ContentOf(n).columns[c];
    }
  }

  /** What one record does to a schema that is already there: a rejected record leaves it alone; an
      accepted one merges its value types column by column, adds columns only under EVOLVE, and raises
      the version by one exactly when it produced changes. */
  lemma StepOnSchema(contract: Contract, table: string, p: Processor, record: Record)
    requires p.schema.Some?
    ensures var (next, out) := Process(contract, table, p, record);
      && (out.record.None? ==> next.schema == p.schema && out.changes == map[])
      && (out.record.Some? ==>
            next.schema.Some? && Accepted(contract, p.schema.value, record, next.schema.value, out.changes))
      && (contract == EVOLVE ==> out.record == Some(record))
  {
    hide InferPythonType;
    var s, candidate := p.schema.value, Candidate(contract, p, record);
    var n := InferSchema(table, [candidate]);
    var m := MergeSchemas(contract, s, n);
    RecordSchema(table, candidate);
    MergeView(contract, s, n);
    OnlyFreezeRaises(contract, s, n);
    KnownColumns(record, s);
    assert contract != DISCARD_COLUMN ==> candidate == record;
    hide InferSchema;
    hide MergeSchemas;
    hide Candidate;
    hide CountChanges;
    hide Violates;
    hide Accepted;
    hide MergeType;
    if contract != DISCARD_ROW || record.Keys <= s.columns.Keys {
      if n.columns == map[] {
        ViaCandidate(contract, p, record, s, map[], n);
      } else if m.Merged? {
        ViaCandidate(contract, p, record, m.schema, m.changes, n);
      }
    }
  }

  /** Merging the candidate's schema accepts the record the candidate was cut from. */
  lemma ViaCandidate(contract: Contract, p: Processor, record: Record, next: Schema, changes: Changes, n: Schema)
    requires p.schema.Some?
    requires contract == DISCARD_ROW ==> record.Keys <= p.schema.value.columns.Keys
    requires var s, candidate := p.schema.value, Candidate(contract, p, record);
      && n.columns.Keys == candidate.Keys
      && (forall c :: c in candidate ==> n.columns[c] == Column(InferPythonType(candidate[c]), true, 1))
      && next.table == s.table
      && next.version == s.version + (if changes == map[] then 0 else 1)
      && next.columns.Keys == s.columns.Keys + (if contract == EVOLVE then n.columns.Keys else {})
      && (forall c :: c in s.columns && c !in n.columns ==> next.columns[c] == s.columns[c])
      && (forall c :: c in s.columns && c in n.columns ==>
            next.columns[c].dataType == MergeType(s.columns[c].dataType, n.columns[c].dataType))
      && (forall c :: c !in s.columns && c in next.columns ==> next.columns[c] == n.columns[c])
    ensures Accepted(contract, p.schema.value, record, next, changes)
  {
    hide MergeType;
    var s, candidate := p.schema.value, Candidate(contract, p, record);
    assert forall c :: c in s.columns && c in record ==> c in candidate && candidate[c] == record[c];
    assert forall c :: c in candidate ==> candidate[c] == record[c];
  }

  lemma KnownColumns(record: Record, s: Schema)
    ensures !Violates(record, s) ==> record.Keys <= s.columns.Keys
  {
    if !Violates(record, s) {
      forall c | c in record
        ensures c in s.columns
      {
      }
    }
  }

  ghost predicate Accepted(contract: Contract, s: Schema, record: Record, next: Schema, changes: Changes) {
    && next.table == s.table
    && next.version == s.version + (if changes == map[] then 0 else 1)
    && next.columns.Keys == s.columns.Keys + (if contract == EVOLVE then record.Keys else {})
    && (forall c :: c in s.columns && c !in record ==> next.columns[c] == s.columns[c])
    && (forall c :: c in s.columns && c in record ==>
          next.columns[c].dataType == MergeType(s.columns[c].dataType, InferPythonType(record[c])))
    && (forall c :: c in next.columns && c !in s.columns ==>
          next.columns[c].dataType == InferPythonType(record[c]))
  }

  lemma AbsorbForwards(contract: Contract, p: Processor, candidate: Record, inferred: Schema)
    ensures var out := Absorb(contract, p, candidate, inferred).1;
      && (out.record.Some? ==> out.record.value == candidate)
      && (contract == DISCARD_COLUMN ==> out.record.Some?)
  {
    if p.schema.Some? {
      OnlyFreezeRaises(contract, p.schema.value, inferred);
    }
    hide MergeSchemas;
    hide CountChanges;
  }

  lemma ForwardsCandidate(contract: Contract, table: string, p: Processor, record: Record)
    ensures var out := Process(contract, table, p, record).1;
      && (out.record.Some? ==> out.record.value == Candidate(contract, p, record))
      && (contract == DISCARD_COLUMN ==> out.record.Some?)
  {
    AbsorbForwards(contract, p, Candidate(contract, p, record), InferSchema(table, [Candidate(contract, p, record)]));
    hide Candidate;
    hide InferSchema;
    hide Absorb;
    hide Violates;
  }

  /** The record as it is forwarded: under DISCARD_COLUMN exactly the fields that are columns of the schema, with
      their values; under any other contract, and before there is a schema, the record as it came. */
  lemma ForwardsExactly(contract: Contract, table: string, p: Processor, record: Record)
    ensures var out := Process(contract, table, p, record).1;
      && (out.record.Some? && (contract != DISCARD_COLUMN || p.schema.None?) ==> out.record.value == record)
      && (contract == DISCARD_COLUMN && p.schema.Some? ==>
            out.record == Some(map c | c in record && c in p.schema.value.columns :: record[c]))
  {
    ForwardsCandidate(contract, table, p, record);
    hide Process;
  }

  /** The reported changes, from the record and the schema alone: a field of a known column whose value type
      differs is a widening or a conflict as `can_widen` says; an unknown field is reported under EVOLVE only. */
  lemma ReportsExactly(contract: Contract, table: string, p: Processor, record: Record)
    requires p.schema.Some?
    ensures var s, out := p.schema.value, Process(contract, table, p, record).1;
      && (forall c :: c in out.changes <==>
            out.record.Some? && c in record
            && if c in s.columns then s.columns[c].dataType != InferPythonType(record[c]) else contract == EVOLVE)
      && (forall c :: c in out.changes ==>
            out.changes[c] == ExpectedChange(s, c, InferPythonType(record[c])))
  {
    var s, candidate := p.schema.value, Candidate(contract, p, record);
    var n := InferSchema(table, [candidate]);
    RecordSchema(table, candidate);
    if contract == DISCARD_ROW && !Violates(record, s) {
      NotViolating(record, s);
    }
    MergeReports(contract, s, n);
    hide InferSchema;
    hide MergeSchemas;
    hide CountChanges;
    hide Violates;
    hide MergeType;
  }

  function ExpectedChange(s: Schema, c: string, t: DataType): Change {
    if c !in s.columns then ColumnAdded(t)
    else if CanWiden(s.columns[c].dataType, t)
    then TypeWidened(s.columns[c].dataType, WidenType(s.columns[c].dataType, t))
    else TypeConflict(s.columns[c].dataType, t)
  }

  lemma MergeReports(contract: Contract, o: Schema, n: Schema)
    ensures var m := MergeSchemas(contract, o, n);
      m.Merged? ==>
        && (forall c :: c in m.changes && c in o.columns ==>
              m.changes[c] == ExpectedChange(o, c, n.columns[c].dataType))
        && (forall c :: c in m.changes && c !in o.columns ==>
              m.changes[c] == if contract == EVOLVE then ColumnAdded(n.columns[c].dataType)
                              else ColumnDiscarded(n.columns[c].dataType))
        && (forall c :: c in m.changes <==>
              c in n.columns && if c in o.columns then o.columns[c].dataType != n.columns[c].dataType
                                else contract == EVOLVE || contract == DISCARD_COLUMN)
  {
    if ContentOf(o) == ContentOf(n) {
      SameContent(o, n);
    }
  }

  /** Over a whole run: under DISCARD_COLUMN every record is forwarded, cut to the columns the run started with,
      and under any other contract an accepted record is forwarded as it came; outside EVOLVE no change ever
      names a column that was not there from the start. */
  lemma ForwardsOverRuns(contract: Contract, table: string, start: Processor, records: seq<Record>, i: nat)
    requires start.schema.Some? && i < |records|
    ensures var out := Process(contract, table, Run(contract, table, start, records[..i]), records[i]).1;
      var columns := start.schema.value.columns.Keys;
      && (if contract == DISCARD_COLUMN
          then out.record == Some(map c | c in records[i] && c in columns :: records[i][c])
          else out.record.Some? ==> out.record.value == records[i])
      && (contract != EVOLVE ==> out.changes.Keys <= columns)
  {
    RunKeeps(contract, table, start, records[..i], "");
    ForwardsExactly(contract, table, Run(contract, table, start, records[..i]), records[i]);
    ReportsExactly(contract, table, Run(contract, table, start, records[..i]), records[i]);
    hide Process;
    hide Run;
  }

  /** The first record with a field sets the schema to its own value types. */
  lemma StepFromNothing(contract: Contract, table: string, p: Processor, record: Record)
    requires p.schema.None?
    ensures var (next, out) := Process(contract, table, p, record);
      && out.record == Some(record) && next.pendingError == p.pendingError
      && (record == map[] ==> next.schema.None? && next.metrics.columnsAdded == p.metrics.columnsAdded)
      && (record != map[] ==>
            && next.schema.Some? && next.schema.value.table == table && next.schema.value.version == 1
            && next.schema.value.columns.Keys == record.Keys
            && (forall c :: c in record ==>
                  next.schema.value.columns[c] == Column(InferPythonType(record[c]), true, 1))
            && out.changes.Keys == record.Keys
            && (forall c :: c in record ==> out.changes[c] == ColumnAdded(InferPythonType(record[c])))
            && next.metrics.columnsAdded == p.metrics.columnsAdded + |record.Keys|)
  {
    RecordSchema(table, record);
    var n := InferSchema(table, [record]);
    assert |n.columns| == |n.columns.Keys|;
    assert record == map[] <==> record.Keys == {};
  }

  /** FREEZE lets a record through exactly when all its columns are known with exactly its value types, so
      a None is refused in any column that has a type, and then no column changes type. */
  lemma FreezeAccepts(table: string, p: Processor, record: Record)
    requires p.schema.Some?
    ensures var s := p.schema.value; var (next, out) := Process(FREEZE, table, p, record);
      && (out.record.Some? <==>
            forall c :: c in record ==> c in s.columns && s.columns[c].dataType == InferPythonType(record[c]))
      && (out.record.None? ==> next.pendingError.Some?)
      && (out.record.None? && p.pendingError.Some? ==> next.pendingError == p.pendingError)
      && (out.record.Some? ==> next.pendingError == p.pendingError && out.changes == map[])
  {
    var s, n := p.schema.value, InferSchema(table, [record]);
    RecordSchema(table, record);
    OnlyFreezeRaises(FREEZE, s, n);
    if !BreaksFreeze(s, n) {
      FreezeChanges(s, n);
    }
    if ContentOf(s) == ContentOf(n) {
      SameContent(s, n);
    }
    assert BreaksFreeze(s, n) <==>
      !forall c :: c in record ==> c in s.columns && s.columns[c].dataType == InferPythonType(record[c]) by {
      assert forall c :: c in record ==> n.columns[c].dataType == InferPythonType(record[c]);
    }
  }

  lemma FreezeChanges(o: Schema, n: Schema)
    requires !BreaksFreeze(o, n)
    ensures ChangesOf(FREEZE, o, n) == map[]
  {
  }

  /** DISCARD_ROW refuses exactly the violating records. On the ones it lets through a column keeps its
      type, with one exception: a None in a column of a type other than STRING turns that column to
      STRING. */
  lemma DiscardRowAccepts(table: string, p: Processor, record: Record)
    requires p.schema.Some?
    ensures var s := p.schema.value; var (next, out) := Process(DISCARD_ROW, table, p, record);
      && (out.record.None? <==>
            exists c :: c in record && (c in s.columns ==>
              record[c] != PyNone && InferPythonType(record[c]) != s.columns[c].dataType))
      && (out.record.Some? ==>
            && next.schema.Some? && s.columns.Keys <= next.schema.value.columns.Keys
            && (forall c :: c in s.columns ==>
                  next.schema.value.columns[c].dataType == KeptUnderDiscardRow(s.columns[c].dataType, record, c)))
  {
    var s, n := p.schema.value, InferSchema(table, [record]);
    StepOnSchema(DISCARD_ROW, table, p, record);
    OnlyFreezeRaises(DISCARD_ROW, s, n);
    var (next, out) := Process(DISCARD_ROW, table, p, record);
    if out.record.Some? {
      NotViolating(record, s);
      forall c | c in s.columns
        ensures next.schema.value.columns[c].dataType == KeptUnderDiscardRow(s.columns[c].dataType, record, c)
      {
        if c in record {
          MergeAgainstWiden(s.columns[c].dataType, InferPythonType(record[c]));
        }
      }
    }
  }

  /** An integer column meets a None under DISCARD_ROW: the record passes and the column becomes STRING. */
  lemma DiscardRowLetsNoneIn(table: string, p: Processor)
    requires p.schema == Some(Schema(table, map["a" := Column(INTEGER, true, 1)], 1))
    ensures var (next, out) := Process(DISCARD_ROW, table, p, map["a" := PyNone]);
      out.record == Some(map["a" := PyNone]) && TypeOf(next, "a") == Some(STRING)
  {
    var record: Record := map["a" := PyNone];
    assert !Violates(record, p.schema.value);
    DiscardRowAccepts(table, p, record);
    assert KeptUnderDiscardRow(INTEGER, record, "a") == STRING;
    assert Candidate(DISCARD_ROW, p, record) == record;
    OnlyFreezeRaises(DISCARD_ROW, p.schema.value, InferSchema(table, [record]));
    hide MergeSchemas;
    hide InferSchema;
    hide CountChanges;
  }

  function KeptUnderDiscardRow(t: DataType, record: Record, c: string): DataType {
    if c in record && record[c] == PyNone && t != NULL then STRING else t
  }

  lemma NotViolating(record: Record, s: Schema)
    requires !Violates(record, s)
    ensures record.Keys <= s.columns.Keys
    ensures forall c :: c in record ==>
      InferPythonType(record[c]) == NULL || InferPythonType(record[c]) == s.columns[c].dataType
    ensures forall c :: c in record && InferPythonType(record[c]) == NULL ==> record[c] == PyNone
  {
    forall c | c in record
      ensures c in s.columns
      ensures InferPythonType(record[c]) == NULL || InferPythonType(record[c]) == s.columns[c].dataType
    {
    }
  }

  /** No contract but FREEZE leaves a pending error. */
  lemma NoErrorOutsideFreeze(contract: Contract, table: string, p: Processor, record: Record)
    requires contract != FREEZE
    ensures Process(contract, table, p, record).0.pendingError == p.pendingError
  {
    if p.schema.Some? {
      OnlyFreezeRaises(contract, p.schema.value, InferSchema(table, [Candidate(contract, p, record)]));
    }
  }

  lemma AddedCount(contract: Contract, o: Schema, n: Schema)
    requires MergeSchemas(contract, o, n).Merged?
    ensures var m := MergeSchemas(contract, o, n);
      CountChanges(m.changes).0 == |m.schema.columns.Keys| - |o.columns.Keys|
  {
    MergeView(contract, o, n);
    var m := MergeSchemas(contract, o, n);
    AddedColumns(contract, o, n);
    hide MergeSchemas;
    var added := set c | c in m.changes && m.changes[c].ColumnAdded?;
    assert m.schema.columns.Keys == o.columns.Keys + added;
  }

  lemma AddedColumns(contract: Contract, o: Schema, n: Schema)
    requires MergeSchemas(contract, o, n).Merged?
    ensures var m := MergeSchemas(contract, o, n);
      (set c | c in m.changes && m.changes[c].ColumnAdded?) == m.schema.columns.Keys - o.columns.Keys
  {
    if ContentOf(o) == ContentOf(n) {
      SameContent(o, n);
    }
  }

  lemma StepCountsColumns(contract: Contract, table: string, p: Processor, record: Record)
    requires p.schema.Some?
    ensures var next := Process(contract, table, p, record).0;
      && next.schema.Some?
      && next.metrics.columnsAdded - p.metrics.columnsAdded
         == |next.schema.value.columns.Keys| - |p.schema.value.columns.Keys|
      && (p.metrics.schemaVersion == p.schema.value.version ==> next.metrics.schemaVersion == next.schema.value.version)
  {
    var s, n := p.schema.value, InferSchema(table, [Candidate(contract, p, record)]);
    if MergeSchemas(contract, s, n).Merged? {
      AddedCount(contract, s, n);
    }
    hide MergeSchemas;
    hide CountChanges;
    hide InferSchema;
    hide Candidate;
    hide Violates;
    hide InitialChanges;
  }

  /** What the other metrics count: every record not refused as a row, and the reported widenings and conflicts. */
  lemma StepCountsChanges(contract: Contract, table: string, p: Processor, record: Record)
    ensures var (next, out) := Process(contract, table, p, record);
      && next.metrics.recordsObserved == p.metrics.recordsObserved
           + (if contract == DISCARD_ROW && out.record.None? then 0 else 1)
      && next.metrics.typesWidened == p.metrics.typesWidened + |set c | c in out.changes && out.changes[c].TypeWidened?|
      && next.metrics.typeConflicts
         == p.metrics.typeConflicts + |set c | c in out.changes && out.changes[c].TypeConflict?|
  {
    if p.schema.Some? {
      OnlyFreezeRaises(contract, p.schema.value, InferSchema(table, [Candidate(contract, p, record)]));
    }
    var (next, out) := Process(contract, table, p, record);
    hide InferSchema;
    hide MergeSchemas;
    hide Violates;
    hide Candidate;
    if out.changes == map[] || p.schema.None? {
      assert (set c | c in out.changes && out.changes[c].TypeWidened?) == {};
      assert (set c | c in out.changes && out.changes[c].TypeConflict?) == {};
    }
  }

  // ---- whole runs -------------------------------------------------------------------------------

  function TypeOf(p: Processor, c: string): Option<DataType> {
    if p.schema.Some? && c in p.schema.value.columns then Some(p.schema.value.columns[c].dataType) else None
  }

  lemma EvolveStep(table: string, p: Processor, record: Record, c: string)
    ensures var next := Process(EVOLVE, table, p, record).0;
      TypeOf(next, c) ==
        if c !in record then TypeOf(p, c)
        else if TypeOf(p, c).None? then Some(InferPythonType(record[c]))
        else Some(MergeType(TypeOf(p, c).value, InferPythonType(record[c])))
  {
    if p.schema.None? {
      StepFromNothing(EVOLVE, table, p, record);
    } else {
      StepOnSchema(EVOLVE, table, p, record);
    }
  }

  /** Under EVOLVE the type of a column is the merge, in order, of the types of the values it had. */
  lemma {:induction false} EvolveStreams(table: string, records: seq<Record>, c: string)
    ensures var types := TypesOf(records, c);
      TypeOf(Run(EVOLVE, table, Fresh(), records), c) == if types == [] then None else Some(Streamed(types))
    decreases |records|
  {
    hide Process;
    if records != [] {
      var front, last := records[..|records| - 1], records[|records| - 1];
      var p, before := Run(EVOLVE, table, Fresh(), front), TypesOf(front, c);
      EvolveStreams(table, front, c);
      EvolveStep(table, p, last, c);
      if c in last {
        var t := InferPythonType(last[c]);
        assert TypesOf(records, c) == before + [t];
        JoinedSnoc(before, t);
        assert TypeOf(Process(EVOLVE, table, p, last).0, c)
          == Some(if before == [] then t else MergeType(Streamed(before), t));
        assert Streamed(before + [t]) == if before == [] then t else MergeType(Streamed(before), t);
      } else {
        assert TypesOf(records, c) == before;
      }
    }
  }

  /** Streaming under EVOLVE against `infer_schema` on the whole list: the same columns; each streamed
      type is the one-shot type or STRING, and equals it exactly when no value of that column clashed
      with the join of the values before it, or the one-shot type is STRING anyway. */
  lemma EvolveAgainstInferSchema(table: string, records: seq<Record>, c: string)
    ensures var streamed := TypeOf(Run(EVOLVE, table, Fresh(), records), c);
      var inferred := InferSchema(table, records).columns;
      && (streamed.Some? <==> c in inferred)
      && (streamed.Some? ==>
            && (streamed.value == inferred[c].dataType || streamed.value == STRING)
            && (streamed.value == inferred[c].dataType
                <==> !HasClash(TypesOf(records, c)) || inferred[c].dataType == STRING))
  {
    EvolveStreams(table, records, c);
    InferredColumns(records, c);
    if TypesOf(records, c) != [] {
      StreamedAgainstJoined(TypesOf(records, c));
    }
  }

  /** A None after an integer: one-shot inference says INTEGER, the stream says STRING. */
  lemma NoneLosesTheType(table: string)
    ensures var records := [map["a" := PyInt], map["a" := PyNone]];
      && InferSchema(table, records).columns["a"].dataType == INTEGER
      && TypeOf(Run(EVOLVE, table, Fresh(), records), "a") == Some(STRING)
  {
    var r, q: Record := map["a" := PyInt], map["a" := PyNone];
    assert TypesOf([], "a") == [];
    hide *;
    TypesSnoc([], r, "a");
    TypesSnoc([r], q, "a");
    assert [] + [r] == [r] && [r] + [q] == [r, q];
    JoinedSnoc([], INTEGER);
    JoinedSnoc([INTEGER], NULL);
    assert [] + [INTEGER] == [INTEGER];
    InferredColumns([r, q], "a");
    EvolveStreams(table, [r, q], "a");
    NoneMeetsInteger(table, [r, q]);
  }

  lemma NoneMeetsInteger(table: string, records: seq<Record>)
    ensures InferPythonType(PyInt) == INTEGER && InferPythonType(PyNone) == NULL
    ensures WidenType(INTEGER, NULL) == INTEGER && MergeType(INTEGER, NULL) == STRING
    ensures InferSchema(table, records).columns == ObservedAll(records)
  {
  }

  /** Over any run and under every contract: columns stay, types only rise, and no contract but EVOLVE
      changes the column set; FREEZE changes no type either. */
  lemma {:induction false} RunKeeps(contract: Contract, table: string, start: Processor, records: seq<Record>,
                                   c: string)
    requires start.schema.Some?
    ensures var last := Run(contract, table, start, records);
      && last.schema.Some?
      && start.schema.value.version <= last.schema.value.version
      && start.schema.value.columns.Keys <= last.schema.value.columns.Keys
      && (contract != EVOLVE ==> last.schema.value.columns.Keys == start.schema.value.columns.Keys)
      && (c in start.schema.value.columns ==>
            CanWiden(start.schema.value.columns[c].dataType, last.schema.value.columns[c].dataType))
      && (contract == FREEZE ==> TypeOf(last, c) == TypeOf(start, c))
    decreases |records|
  {
    if records != [] {
      var front, record := records[..|records| - 1], records[|records| - 1];
      RunKeeps(contract, table, start, front, c);
      var p := Run(contract, table, start, front);
      StepOnSchema(contract, table, p, record);
      if contract == FREEZE {
        FreezeAccepts(table, p, record);
      }
      if c in start.schema.value.columns {
        StepRises(contract, table, p, record, c);
        CanWidenIsAnOrder(start.schema.value.columns[c].dataType, p.schema.value.columns[c].dataType,
                          Process(contract, table, p, record).0.schema.value.columns[c].dataType);
      }
    }
  }

  /** Every field has a column of exactly its value type. */
  predicate FitsExactly(record: Record, s: Schema) {
    forall c :: c in record ==> c in s.columns && s.columns[c].dataType == InferPythonType(record[c])
  }

  lemma FreezeFixesTypes(table: string, start: Processor, records: seq<Record>, record: Record)
    requires start.schema.Some?
    ensures Run(FREEZE, table, start, records).schema.Some?
    ensures FitsExactly(record, Run(FREEZE, table, start, records).schema.value)
      <==> FitsExactly(record, start.schema.value)
  {
    RunKeeps(FREEZE, table, start, records, "");
    forall c | c in record
      ensures TypeOf(Run(FREEZE, table, start, records), c) == TypeOf(start, c)
    {
      RunKeeps(FREEZE, table, start, records, c);
    }
    hide Run;
  }

  lemma FreezeStep(table: string, p: Processor, record: Record)
    requires p.schema.Some?
    ensures Process(FREEZE, table, p, record).0.pendingError.Some? <==>
      p.pendingError.Some? || !FitsExactly(record, p.schema.value)
  {
    FreezeAccepts(table, p, record);
    hide Process;
  }

  /** Over any run under FREEZE an error is pending exactly when some record did not fit the columns and types
      the run started with. */
  lemma {:induction false} FreezeErrorIff(table: string, start: Processor, records: seq<Record>)
    requires start.schema.Some? && start.pendingError.None?
    ensures Run(FREEZE, table, start, records).pendingError.Some? <==>
      exists r :: r in records && !FitsExactly(r, start.schema.value)
    decreases |records|
  {
    hide Process;
    hide FitsExactly;
    if records != [] {
      var front, last := records[..|records| - 1], records[|records| - 1];
      FreezeErrorIff(table, start, front);
      FreezeFixesTypes(table, start, front, last);
      FreezeStep(table, Run(FREEZE, table, start, front), last);
      assert records == front + [last];
    }
  }

  /** A record of the run that is accepted at its turn has None in column `c`. */
  ghost predicate NoneAccepted(table: string, start: Processor, records: seq<Record>, c: string) {
    exists i :: 0 <= i < |records| && c in records[i] && records[i][c] == PyNone
      && Process(DISCARD_ROW, table, Run(DISCARD_ROW, table, start, records[..i]), records[i]).1.record.Some?
  }

  lemma NoneAcceptedSnoc(table: string, start: Processor, records: seq<Record>, c: string)
    requires records != []
    ensures var front, last := records[..|records| - 1], records[|records| - 1];
      NoneAccepted(table, start, records, c) <==>
        NoneAccepted(table, start, front, c)
        || (c in last && last[c] == PyNone
            && Process(DISCARD_ROW, table, Run(DISCARD_ROW, table, start, front), last).1.record.Some?)
  {
    hide Process;
    hide Run;
    var front := records[..|records| - 1];
    assert forall i :: 0 <= i < |front| ==> front[i] == records[i] && front[..i] == records[..i];
  }

  lemma DiscardRowStep(table: string, p: Processor, record: Record, c: string)
    requires TypeOf(p, c).Some?
    ensures var (next, out) := Process(DISCARD_ROW, table, p, record);
      TypeOf(next, c) ==
        Some(if out.record.Some? then KeptUnderDiscardRow(TypeOf(p, c).value, record, c) else TypeOf(p, c).value)
  {
    DiscardRowAccepts(table, p, record);
    StepOnSchema(DISCARD_ROW, table, p, record);
    hide Process;
  }

  /** Over a whole run under DISCARD_ROW a column has its first type or STRING at the end. It keeps its type
      exactly when no accepted record has None in it, or it is untyped or STRING from the start. */
  lemma {:induction false} DiscardRowKeepsType(table: string, start: Processor, records: seq<Record>, c: string)
    requires TypeOf(start, c).Some?
    ensures var t, last := TypeOf(start, c).value, TypeOf(Run(DISCARD_ROW, table, start, records), c);
      && last == Some(if t != NULL && NoneAccepted(table, start, records, c) then STRING else t)
      && (last == Some(t) <==> t == NULL || t == STRING || !NoneAccepted(table, start, records, c))
    decreases |records|
  {
    hide Process;
    hide TypeOf;
    if records != [] {
      var front, last := records[..|records| - 1], records[|records| - 1];
      DiscardRowKeepsType(table, start, front, c);
      NoneAcceptedSnoc(table, start, records, c);
      DiscardRowStep(table, Run(DISCARD_ROW, table, start, front), last, c);
      hide NoneAccepted;
    }
  }

  lemma StepRises(contract: Contract, table: string, p: Processor, record: Record, c: string)
    requires p.schema.Some? && c in p.schema.value.columns
    ensures var next := Process(contract, table, p, record).0;
      && next.schema.Some? && c in next.schema.value.columns
      && CanWiden(p.schema.value.columns[c].dataType, next.schema.value.columns[c].dataType)
      && (contract == FREEZE ==> next.schema.value.columns[c].dataType == p.schema.value.columns[c].dataType)
  {
    StepOnSchema(contract, table, p, record);
    if contract == FREEZE {
      FreezeAccepts(table, p, record);
    }
    if c in record {
      MergeAgainstWiden(p.schema.value.columns[c].dataType, InferPythonType(record[c]));
    }
  }

  /** How often a column that is already there changes its type over a run. */
  function TypeChanges(contract: Contract, table: string, start: Processor, records: seq<Record>, c: string): nat {
    if records == [] then 0
    else
      var front := records[..|records| - 1];
      TypeChanges(contract, table, start, front, c)
      + if TypeOf(Run(contract, table, start, records), c)
           != TypeOf(Run(contract, table, start, front), c) then 1 else 0
  }

  /** Under every contract a column changes its type at most three times. */
  lemma {:induction false} RisesThriceAtMost(contract: Contract, table: string, start: Processor,
                                            records: seq<Record>, c: string)
    requires start.schema.Some? && c in start.schema.value.columns
    ensures var last := Run(contract, table, start, records);
      && TypeOf(last, c).Some?
      && TypeChanges(contract, table, start, records, c) <= Rank(TypeOf(last, c).value) <= 3
    decreases |records|
  {
    if records != [] {
      var front, record := records[..|records| - 1], records[|records| - 1];
      RisesThriceAtMost(contract, table, start, front, c);
      var p := Run(contract, table, start, front);
      StepRises(contract, table, p, record, c);
      CanWidenIsAnOrder(TypeOf(p, c).value, TypeOf(Process(contract, table, p, record).0, c).value, STRING);
    }
  }

  /** From a fresh start the `columns_added` metric is the number of columns, and the version metric is
      the schema's version. */
  lemma {:induction false} MetricsFollowTheSchema(contract: Contract, table: string, records: seq<Record>)
    ensures var p := Run(contract, table, Fresh(), records);
      if p.schema.None? then p.metrics.columnsAdded == 0
      else p.metrics.columnsAdded == |p.schema.value.columns.Keys| && p.metrics.schemaVersion == p.schema.value.version
    decreases |records|
  {
    if records != [] {
      var front, record := records[..|records| - 1], records[|records| - 1];
      MetricsFollowTheSchema(contract, table, front);
      var p := Run(contract, table, Fresh(), front);
      if p.schema.None? {
        StepFromNothing(contract, table, p, record);
      } else {
        StepCountsColumns(contract, table, p, record);
      }
    }
  }

  /** The first FREEZE violation is the one that stays. */
  lemma {:induction false} FirstErrorStays(contract: Contract, table: string, start: Processor, records: seq<Record>)
    requires start.pendingError.Some?
    ensures Run(contract, table, start, records).pendingError == start.pendingError
    decreases |records|
  {
    if records != [] {
      var front, record := records[..|records| - 1], records[|records| - 1];
      FirstErrorStays(contract, table, start, front);
      var p := Run(contract, table, start, front);
      if contract != FREEZE {
        NoErrorOutsideFreeze(contract, table, p, record);
      } else if p.schema.None? {
        StepFromNothing(contract, table, p, record);
      } else {
        FreezeAccepts(table, p, record);
      }
    }
  }
}
