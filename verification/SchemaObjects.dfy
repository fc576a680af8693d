/** The schema subsystem as it mutates objects: one inferrer is reused for every record, `finalize` copies
    only the dictionary, and merged schemas share column objects with their predecessors. Column
    dictionaries and columns are heap objects here, so that what is shared and what is copied matters. */
module SchemaObjects {
  import opened Options
  import opened SchemaTypes
  import opened SchemaStream

  class ColumnObject {
    const name: string
    var dataType: DataType
    var nullable: bool
    var inferredFrom: nat

    constructor (name: string, column: Column)
      ensures this.name == name && View() == column
    {
      this.name := name;
      dataType, nullable, inferredFrom := column.dataType, column.nullable, column.inferredFrom;
    }

    function View(): Column
      reads this
    {
      Column(dataType, nullable, inferredFrom)
    }

    /** One more value: count it, allow null, widen in place. */
    method Update(value: PyValue)
      modifies this
      ensures View() == SeenAgain(old(View()), value)
    {
      SameTypeStays(dataType);
      hide WidenType;
      var inferred := InferPythonType(value);
      inferredFrom := inferredFrom + 1;
      if value == PyNone {
        nullable := true;
      }
      if inferred != dataType {
        dataType := WidenColumnType(dataType, inferred);
      }
    }
  }

  function SeenAgain(column: Column, value: PyValue): Column {
    Column(WidenType(column.dataType, InferPythonType(value)), column.nullable || value == PyNone,
           column.inferredFrom + 1)
  }

  class ColumnDict {
    var entries: map<string, ColumnObject>

    constructor (entries: map<string, ColumnObject>)
      ensures this.entries == entries
    {
      this.entries := entries;
    }

    /** Every column is filed under its own name, so no two names share a column object. */
    ghost predicate Valid()
      reads this
    {
      forall k :: k in entries ==> entries[k].name == k
    }

    function Objects(): set<ColumnObject>
      reads this
    {
      set k | k in entries :: entries[k]
    }

    function View(): (view: map<string, Column>)
      reads this, Objects()
      ensures view.Keys == entries.Keys
    {
      map k | k in entries :: entries[k].View()
    }
  }

  /** A schema as an object. Its hash is taken when it is built, and so is the ghost `value`: what its
      columns said at that moment. `Valid` says that they still say so. */
  class SchemaObject {
    const table: string
    const columns: ColumnDict
    const version: nat
    const hash: Content
    ghost const value: Schema

    constructor (table: string, columns: ColumnDict, version: nat)
      requires columns.Valid()
      ensures this.columns == columns && this.value == Schema(table, columns.View(), version)
      ensures Valid()
    {
      this.table, this.columns, this.version := table, columns, version;
      hash := ContentOf(Schema(table, columns.View(), version));
      value := Schema(table, columns.View(), version);
    }

    ghost predicate Valid()
      reads columns, columns.Objects()
    {
      && columns.Valid()
      && value == Schema(table, columns.View(), version)
      && hash == ContentOf(value)
    }
  }

  /** A column once one more value is seen. */
  function Seen(view: map<string, Column>, name: string, value: PyValue): Column {
    if name !in view then Column(InferPythonType(value), true, 1)
    else SeenAgain(view[name], value)
  }

  function Part(record: Record, names: set<string>): (part: Record)
    ensures part.Keys == record.Keys * names
  {
    map k | k in record && k in names :: record[k]
  }

  /** Fields seen one at a time add up to the whole record seen at once. */
  lemma SeenAddsUp(view: map<string, Column>, record: Record, done: set<string>, name: string)
    requires name in record && name !in done && done <= record.Keys
    ensures var before := Observed(view, Part(record, done));
      before[name := Seen(before, name, record[name])] == Observed(view, Part(record, done + {name}))
  {
    hide WidenType;
    hide InferPythonType;
  }

  lemma NothingSeen(view: map<string, Column>, record: Record)
    ensures Observed(view, Part(record, {})) == view
    ensures Part(record, record.Keys) == record
  {
  }

  class SchemaInferrer {
    const table: string
    const columns: ColumnDict
    var recordsObserved: nat

    constructor (table: string)
      ensures this.table == table && columns.entries == map[] && fresh(columns)
    {
      this.table := table;
      columns := new ColumnDict(map[]);
      recordsObserved := 0;
    }

    /** Existing columns are widened in place; new ones get a column object of their own. */
    method Observe(record: Record)
      requires columns.Valid()
      modifies this`recordsObserved, columns, columns.Objects()
      ensures columns.Valid()
      ensures columns.View() == Observed(old(columns.View()), record)
      ensures fresh(columns.Objects() - old(columns.Objects()))
    {
      hide Observed;
      hide Part;
      hide Seen;
      ghost var view, known := columns.View(), columns.Objects();
      recordsObserved := recordsObserved + 1;
      NothingSeen(view, record);
      var names := record.Keys;
      ghost var done := {};
      while names != {}
        invariant done !! names && done + names == record.Keys
        invariant columns.Valid()
        invariant forall o :: o in columns.Objects() ==> o in known || fresh(o)
        invariant columns.View() == Observed(view, Part(record, done))
        decreases names
      {
        var name :| name in names;
        SeenAddsUp(view, record, done, name);
        ghost var mine := columns.Objects();
        ObserveField(name, record[name]);
        names, done := names - {name}, done + {name};
      }
      assert done == record.Keys;
    }

    method ObserveField(name: string, value: PyValue)
      requires columns.Valid()
      modifies columns, columns.Objects()
      ensures columns.Valid()
      ensures fresh(columns.Objects() - old(columns.Objects()))
      ensures columns.View() == old(columns.View())[name := Seen(old(columns.View()), name, value)]
    {
      hide InferPythonType;
      hide SeenAgain;
      if name !in columns.entries {
        var column := new ColumnObject(name, Column(InferPythonType(value), true, 1));
        columns.entries := columns.entries[name := column];
      } else {
        var column := columns.entries[name];
        assert forall k :: k in columns.entries && k != name ==> columns.entries[k] != column;
        column.Update(value);
      }
    }

    /** A new schema over a copy of the dictionary, sharing its column objects. */
    method Finalize() returns (s: SchemaObject)
      requires columns.Valid()
      ensures fresh(s) && fresh(s.columns) && s.Valid()
      ensures s.columns.entries == columns.entries
      ensures s.value == Schema(table, columns.View(), 1)
    {
      var copied := new ColumnDict(columns.entries);
      s := new SchemaObject(table, copied, 1);
    }

    method Reset()
      modifies this`recordsObserved, columns
      ensures columns.entries == map[] && recordsObserved == 0
    {
      columns.entries := map[];
      recordsObserved := 0;
    }
  }

  lemma SameTypeStays(t: DataType)
    ensures WidenType(t, t) == t
  {
  }

  /** The inferrer's own widening agrees with `widen_type`. */
  function WidenColumnType(current: DataType, new': DataType): (widened: DataType)
    ensures widened == WidenType(current, new')
  {
    if current == new' then current
    else if current == NULL then new'
    else if new' == NULL then current
    else if current == INTEGER && new' == FLOAT then FLOAT
    else if current == FLOAT && new' == INTEGER then FLOAT
    else STRING
  }

  method InferAll(table: string, records: seq<Record>) returns (s: SchemaObject)
    ensures s.Valid() && s.value == InferSchema(table, records)
  {
    var inferrer := new SchemaInferrer(table);
    for i := 0 to |records|
      invariant inferrer.table == table && inferrer.columns.Valid()
      invariant fresh(inferrer) && fresh(inferrer.columns) && fresh(inferrer.columns.Objects())
      invariant inferrer.columns.View() == ObservedAll(records[..i])
    {
      inferrer.Observe(record := records[i]);
      assert records[..i + 1][..i] == records[..i];
    }
    assert records[..|records|] == records;
    s := inferrer.Finalize();
  }

  datatype Evolved = Evolution(schema: SchemaObject, changes: Changes) | Frozen(column: string)

  /** One column present on both sides; always a new column object. */
  method MergeColumnObjects(name: string, oldCol: ColumnObject, newCol: ColumnObject)
    returns (column: ColumnObject, change: Option<Change>)
    ensures fresh(column) && column.name == name && column.View() == MergeColumn(oldCol.View(), newCol.View())
    ensures change == ChangeOfTypes(oldCol.dataType, newCol.dataType)
  {
    change := ChangeOfTypes(oldCol.dataType, newCol.dataType);
    column := new ColumnObject(name, MergeColumn(oldCol.View(), newCol.View()));
  }

  /** The loop over the old columns: merged where both sides have one, kept as the same object elsewhere.
      Under FREEZE it stops at the first column that changes type. */
  method MergeKnown(contract: Contract, olds: map<string, ColumnObject>, news: map<string, ColumnObject>)
    returns (merged: map<string, ColumnObject>, changes: Changes, stopped: Option<string>)
    requires forall k :: k in olds ==> olds[k].name == k
    ensures stopped.Some? ==>
      contract == FREEZE && stopped.value in olds && stopped.value in news
      && olds[stopped.value].dataType != news[stopped.value].dataType
    ensures stopped.None? ==> merged.Keys == olds.Keys
    ensures forall k :: k in merged ==> k in olds && merged[k].name == k
    ensures forall k :: k in merged ==>
      merged[k].View() == if k in news then MergeColumn(olds[k].View(), news[k].View()) else olds[k].View()
    ensures forall k :: k in changes ==> k in olds && k in news && olds[k].dataType != news[k].dataType
    ensures forall k :: k in changes ==> Some(changes[k]) == ChangeOfTypes(olds[k].dataType, news[k].dataType)
    ensures stopped.None? ==>
      forall k :: k in olds && k in news && olds[k].dataType != news[k].dataType ==> k in changes
    ensures contract == FREEZE ==> changes == map[]
  {
    hide MergeColumn;
    merged, changes := map[], map[];
    var names := olds.Keys;
    while names != {}
      invariant names <= olds.Keys && merged.Keys == olds.Keys - names
      invariant forall k :: k in merged ==> merged[k].name == k
      invariant forall k :: k in merged ==>
        merged[k].View() == if k in news then MergeColumn(olds[k].View(), news[k].View()) else olds[k].View()
      invariant forall k :: k in changes ==> k in olds && k in news && olds[k].dataType != news[k].dataType
      invariant forall k :: k in changes ==> Some(changes[k]) == ChangeOfTypes(olds[k].dataType, news[k].dataType)
      invariant forall k :: k in olds && k !in names && k in news && olds[k].dataType != news[k].dataType ==>
        k in changes
      invariant contract == FREEZE ==> changes == map[]
      decreases names
    {
      var name :| name in names;
      names := names - {name};
      if name !in news {
        merged := merged[name := olds[name]];
        continue;
      }
      var column, change := MergeColumnObjects(name, olds[name], news[name]);
      if change.Some? {
        if contract == FREEZE {
          return merged, changes, Some(name);
        }
        changes := changes[name := change.value];
      }
      merged := merged[name := column];
    }
    stopped := None;
  }

  /** The loop over the new columns: the ones the old schema lacks are added as they are, refused,
      reported as discarded, or ignored, by contract. */
  method HandleNew(contract: Contract, olds: map<string, ColumnObject>, news: map<string, ColumnObject>,
                   known: map<string, ColumnObject>, before: Changes)
    returns (merged: map<string, ColumnObject>, changes: Changes, stopped: Option<string>)
    requires known.Keys == olds.Keys
    requires forall k :: k in before ==> k in olds
    ensures stopped.Some? ==> contract == FREEZE && stopped.value in news && stopped.value !in olds
    ensures stopped.None? && contract == FREEZE ==> news.Keys <= olds.Keys
    ensures stopped.None? ==> merged.Keys == olds.Keys + if contract == EVOLVE then news.Keys else {}
    ensures forall k :: k in olds ==> k in merged && merged[k] == known[k]
    ensures forall k :: k in merged && k !in olds ==> k in news && merged[k] == news[k]
    ensures forall k :: k in before ==> k in changes && changes[k] == before[k]
    ensures forall k :: k in changes && k !in before ==> k in news && k !in olds
    ensures forall k :: k in changes && k !in before ==>
      changes[k] == if contract == EVOLVE then ColumnAdded(news[k].dataType) else ColumnDiscarded(news[k].dataType)
    ensures stopped.None? ==> forall k :: k in news && k !in olds ==>
      (k in changes <==> contract == EVOLVE || contract == DISCARD_COLUMN)
  {
    merged, changes := known, before;
    var names := news.Keys;
    while names != {}
      invariant names <= news.Keys
      invariant merged.Keys == olds.Keys + if contract == EVOLVE then news.Keys - names else {}
      invariant forall k :: k in olds ==> merged[k] == known[k]
      invariant forall k :: k in merged && k !in olds ==> merged[k] == news[k]
      invariant forall k :: k in before ==> k in changes && changes[k] == before[k]
      invariant forall k :: k in changes && k !in before ==> k in news && k !in olds
      invariant forall k :: k in changes && k !in before ==>
        changes[k] == if contract == EVOLVE then ColumnAdded(news[k].dataType) else ColumnDiscarded(news[k].dataType)
      invariant forall k :: k in news && k !in names && k !in olds ==>
        (k in changes <==> contract == EVOLVE || contract == DISCARD_COLUMN)
      invariant contract == FREEZE ==> news.Keys - names <= olds.Keys
      invariant forall k :: k in names && k !in olds ==> k !in changes
      decreases names
    {
      var name :| name in names;
      names := names - {name};
      if name in olds {
        continue;
      }
      match contract {
        case EVOLVE =>
          merged := merged[name := news[name]];
          changes := changes[name := ColumnAdded(news[name].dataType)];
        case FREEZE =>
          return merged, changes, Some(name);
        case DISCARD_COLUMN =>
          changes := changes[name := ColumnDiscarded(news[name].dataType)];
        case DISCARD_ROW =>
      }
    }
    stopped := None;
  }

  ghost predicate Assembled(contract: Contract, o: Schema, n: Schema, merged: map<string, Column>, changes: Changes) {
    && merged.Keys == o.columns.Keys + (if contract == EVOLVE then n.columns.Keys else {})
    && (forall k :: k in o.columns ==>
          merged[k] == if k in n.columns then MergeColumn(o.columns[k], n.columns[k]) else o.columns[k])
    && (forall k :: k in merged && k !in o.columns ==> merged[k] == n.columns[k])
    && (forall k :: k in changes ==> k in n.columns && ColumnChanges(contract, o, n, k))
    && (forall k :: k in changes ==> changes[k] == ChangeOf(contract, o, n, k))
    && (forall k :: k in n.columns && ColumnChanges(contract, o, n, k) ==> k in changes)
    && (contract == FREEZE ==> changes == map[] && n.columns.Keys <= o.columns.Keys)
  }

  /** Both loops. */
  method MergeLoops(contract: Contract, old': SchemaObject, new': SchemaObject)
    returns (merged: ColumnDict, changes: Changes, stopped: Option<string>)
    requires old'.Valid() && new'.Valid()
    ensures merged.Valid() && fresh(merged)
    ensures stopped.Some? ==> contract == FREEZE && BreaksFreeze(old'.value, new'.value)
    ensures stopped.None? ==> Assembled(contract, old'.value, new'.value, merged.View(), changes)
  {
    hide ChangeOf;
    hide ChangeOfTypes;
    hide MergeColumn;
    hide Assembled;
    hide ContentOf;
    ghost var o, n := old'.value, new'.value;
    var olds, news := old'.columns.entries, new'.columns.entries;
    var known, entries;
    known, changes, stopped := MergeKnown(contract, olds, news);
    if stopped.Some? {
      assert stopped.value in n.columns && o.columns[stopped.value].dataType != n.columns[stopped.value].dataType;
      merged := new ColumnDict(map[]);
      return;
    }
    ghost var found := changes;
    entries, changes, stopped := HandleNew(contract, olds, news, known, changes);
    if stopped.Some? {
      assert stopped.value in n.columns && stopped.value !in o.columns;
      merged := new ColumnDict(map[]);
      return;
    }
    merged := new ColumnDict(entries);
    AssembleLoops(contract, o, n, merged.View(), found, changes);
  }

  lemma AssembleLoops(contract: Contract, o: Schema, n: Schema, merged: map<string, Column>,
                      found: Changes, changes: Changes)
    requires merged.Keys == o.columns.Keys + if contract == EVOLVE then n.columns.Keys else {}
    requires forall k :: k in o.columns ==>
      merged[k] == if k in n.columns then MergeColumn(o.columns[k], n.columns[k]) else o.columns[k]
    requires forall k :: k in merged && k !in o.columns ==> merged[k] == n.columns[k]
    requires forall k :: k in found <==>
      k in o.columns && k in n.columns && o.columns[k].dataType != n.columns[k].dataType
    requires forall k :: k in found ==> Some(found[k]) == ChangeOfTypes(o.columns[k].dataType, n.columns[k].dataType)
    requires forall k :: k in found ==> k in changes && changes[k] == found[k]
    requires forall k :: k in changes && k !in found ==> k in n.columns && k !in o.columns
    requires forall k :: k in changes && k !in found ==>
      changes[k] == if contract == EVOLVE then ColumnAdded(n.columns[k].dataType)
                    else ColumnDiscarded(n.columns[k].dataType)
    requires forall k :: k in n.columns && k !in o.columns ==>
      (k in changes <==> contract == EVOLVE || contract == DISCARD_COLUMN)
    requires contract == FREEZE ==> found == map[] && n.columns.Keys <= o.columns.Keys
    ensures Assembled(contract, o, n, merged, changes)
  {
    ChangeOfTypesAgrees(contract, o, n);
    AddedOrDiscarded(contract, o, n);
    hide ChangeOf;
    hide ChangeOfTypes;
    hide MergeColumn;
    forall k | k in changes
      ensures k in n.columns && ColumnChanges(contract, o, n, k) && changes[k] == ChangeOf(contract, o, n, k)
    {
    }
    if contract == FREEZE {
      forall k
        ensures k !in changes
      {
      }
    }
  }

  lemma AddedOrDiscarded(contract: Contract, o: Schema, n: Schema)
    ensures forall k :: k in n.columns && k !in o.columns ==>
      ChangeOf(contract, o, n, k)
      == if contract == EVOLVE then ColumnAdded(n.columns[k].dataType) else ColumnDiscarded(n.columns[k].dataType)
  {
  }

  class SchemaEvolution {
    const contract: Contract
    var changes: Changes

    constructor (contract: Contract)
      ensures this.contract == contract && changes == map[]
    {
      this.contract := contract;
      changes := map[];
    }

    /** Merges two schemas into a new one, or returns the old object itself when the hashes match; it
        builds new column objects and changes none. */
    method MergeObjects(old': SchemaObject, new': SchemaObject) returns (result: Evolved)
      requires old'.Valid() && new'.Valid()
      modifies this
      ensures var m := MergeSchemas(contract, old'.value, new'.value);
        && (result.Frozen? <==> m.Violation?)
        && (result.Evolution? ==>
              && result.changes == m.changes && result.schema.value == m.schema && result.schema.Valid()
              && (result.schema == old' || fresh(result.schema.columns)))
    {
      hide MergeSchemas;
      hide ContentOf;
      if old'.hash == new'.hash {
        SameHash(contract, old', new');
        changes := map[];
        return Evolution(old', changes);
      }
      var evolved, found := BuildMerged(contract, old', new');
      changes := found;
      result := evolved;
    }
  }

  lemma SameHash(contract: Contract, old': SchemaObject, new': SchemaObject)
    requires old'.Valid() && new'.Valid() && old'.hash == new'.hash
    ensures MergeSchemas(contract, old'.value, new'.value) == Merged(old'.value, map[])
  {
  }

  lemma DifferentHash(old': SchemaObject, new': SchemaObject)
    requires old'.Valid() && new'.Valid() && old'.hash != new'.hash
    ensures ContentOf(old'.value) != ContentOf(new'.value)
    ensures old'.table == old'.value.table && old'.version == old'.value.version
  {
  }

  /** The merge of two schemas with different hashes. */
  method BuildMerged(contract: Contract, old': SchemaObject, new': SchemaObject)
    returns (result: Evolved, changes: Changes)
    requires old'.Valid() && new'.Valid() && old'.hash != new'.hash
    ensures var m := MergeSchemas(contract, old'.value, new'.value);
      && (result.Frozen? <==> m.Violation?)
      && (result.Evolution? ==>
            && result.changes == m.changes && result.schema.value == m.schema && result.schema.Valid()
            && fresh(result.schema.columns))
  {
    hide MergeSchemas;
    hide Assembled;
    hide ContentOf;
    hide NextVersion;
    hide BreaksFreeze;
    ghost var o, n := old'.value, new'.value;
    OnlyFreezeRaises(contract, o, n);
    DifferentHash(old', new');
    var columns, stopped;
    columns, changes, stopped := MergeLoops(contract, old', new');
    if stopped.Some? {
      return Frozen(stopped.value), changes;
    }
    ghost var merged := columns.View();
    AssembleMerge(contract, o, n, merged, changes);
    var version := NextVersion(old'.version, changes);
    var evolved := new SchemaObject(old'.table, columns, version);
    result := Evolution(evolved, changes);
  }

  lemma ChangeOfTypesAgrees(contract: Contract, o: Schema, n: Schema)
    ensures forall k :: k in o.columns && k in n.columns && o.columns[k].dataType != n.columns[k].dataType ==>
      ColumnChanges(contract, o, n, k)
      && ChangeOfTypes(o.columns[k].dataType, n.columns[k].dataType) == Some(ChangeOf(contract, o, n, k))
  {
  }

  /** Column by column and change by change, the loops built what the specification says. */
  lemma AssembleMerge(contract: Contract, o: Schema, n: Schema, merged: map<string, Column>, changes: Changes)
    requires ContentOf(o) != ContentOf(n) && Assembled(contract, o, n, merged, changes)
    ensures MergeSchemas(contract, o, n)
      == Merged(Schema(o.table, merged, NextVersion(o.version, changes)), changes)
  {
    hide MergeColumn;
    hide ContentOf;
    hide ChangeOf;
    assert merged == MergedColumns(contract, o, n);
    assert changes == ChangesOf(contract, o, n);
    if contract == FREEZE {
      forall k | k in n.columns
        ensures k in o.columns && o.columns[k].dataType == n.columns[k].dataType
      {
        assert !ColumnChanges(contract, o, n, k);
      }
    }
  }

  function ChangeOfTypes(old': DataType, new': DataType): Option<Change> {
    if old' == new' then None
    else if CanWiden(old', new') then
      if WidenType(old', new') != old' then Some(TypeWidened(old', WidenType(old', new'))) else None
    else Some(TypeConflict(old', new'))
  }

  lemma OneRecord(table: string, record: Record)
    ensures InferSchema(table, [record]) == Schema(table, Observed(map[], record), 1)
  {
    assert [record][..0] == [];
    assert ObservedAll([record][..0]) == map[];
    assert ObservedAll([record]) == Observed(map[], record);
  }

  /** A valid schema none of whose columns was written to is valid and says what it said. */
  twostate lemma Untouched(s: SchemaObject)
    requires old(s.Valid()) && unchanged(s.columns)
    requires forall o :: o in old(s.columns.Objects()) ==> unchanged(o)
    ensures s.Valid() && s.columns.View() == old(s.columns.View())
    ensures s.columns.Objects() == old(s.columns.Objects())
  {
  }

  lemma Says(s: SchemaObject)
    requires s.Valid()
    ensures s.columns.Valid() && s.columns.View() == s.value.columns
    ensures s.version == s.value.version && s.table == s.value.table
  {
  }

  /** The scan over the fields: an unknown column, or a non-null value of another type, ends it. */
  method RecordViolatesSchema(record: Record, schema: SchemaObject) returns (violates: bool)
    requires schema.Valid()
    ensures violates == Violates(record, schema.value)
  {
    Says(schema);
    var columns := schema.columns.View();
    var names := record.Keys;
    while names != {}
      invariant names <= record.Keys
      invariant forall c :: c in record && c !in names ==>
        c in columns && (InferPythonType(record[c]) == NULL || InferPythonType(record[c]) == columns[c].dataType)
      decreases names
    {
      var name :| name in names;
      names := names - {name};
      if name !in columns {
        return true;
      }
      var inferred := InferPythonType(record[name]);
      if inferred == NULL {
        continue;
      }
      if inferred != columns[name].dataType && !CanWiden(columns[name].dataType, inferred) {
        return true;
      }
      if inferred != columns[name].dataType {
        return true;
      }
    }
    violates := false;
  }

  class SchemaProcessor {
    const table: string
    const contract: Contract
    const inferrer: SchemaInferrer
    var current: SchemaObject?
    var pendingError: Option<string>
    var metrics: Metrics
    /** The state on values, and every schema ever held or handed out. */
    ghost var state: Processor
    ghost var returned: set<SchemaObject>

    ghost predicate Intact(s: SchemaObject)
      reads s.columns, s.columns.Objects()
    {
      s.columns != inferrer.columns && s.Valid()
    }

    ghost predicate Shown()
      reads this
    {
      && inferrer.table == table
      && (current != null ==> current in returned)
      && state.schema == (if current == null then None else Some(current.value))
      && state.metrics == metrics
      && (state.pendingError.Some? <==> pendingError.Some?)
    }

    ghost predicate Valid()
      reads this, set s | s in returned :: s.columns, set s, o | s in returned && o in s.columns.Objects() :: o
    {
      Shown() && forall s :: s in returned ==> Intact(s)
    }

    constructor (table: string, contract: Contract)
      ensures this.table == table && this.contract == contract
      ensures Valid() && state == Fresh() && returned == {}
      ensures current == null && pendingError == None && metrics == Metrics(0, 0, 0, 0, 1)
    {
      this.table, this.contract := table, contract;
      inferrer := new SchemaInferrer(table);
      current, pendingError, metrics := null, None, Metrics(0, 0, 0, 0, 1);
      state, returned := Fresh(), {};
    }

    method LoadSchema(schema: SchemaObject?)
      requires Valid() && (schema != null ==> Intact(schema))
      modifies this
      ensures Valid() && current == schema && pendingError == None
      ensures metrics == Metrics(0, 0, 0, 0, if schema != null then schema.version else 1)
      ensures state == Loaded(if schema == null then None else Some(schema.value))
      ensures returned == old(returned) + if schema == null then {} else {schema}
    {
      hide SchemaObject.Valid;
      if schema != null {
        Says(schema);
      }
      var counted := Metrics(0, 0, 0, 0, if schema != null then schema.version else 1);
      Adopt(schema, None, counted, Loaded(if schema == null then None else Some(schema.value)));
    }

    method Adopt(next: SchemaObject?, error: Option<string>, counted: Metrics, ghost reached: Processor)
      requires Valid() && (next != null ==> Intact(next))
      requires reached.schema == if next == null then None else Some(next.value)
      requires reached.metrics == counted && (reached.pendingError.Some? <==> error.Some?)
      modifies this
      ensures Valid() && current == next && pendingError == error && state == reached
      ensures returned == old(returned) + if next == null then {} else {next}
      ensures forall s :: s in old(returned) ==> s.columns.View() == old(s.columns.View())
    {
      hide SchemaObject.Valid;
      current, pendingError, metrics, state := next, error, counted, reached;
      returned := returned + if next == null then {} else {next};
      forall s | s in returned
        ensures Intact(s) && s.columns.View() == old(s.columns.View())
      {
        Untouched(s);
      }
    }

    /** Resetting first leaves the reused inferrer with no column to widen, so no column object that
        existed before is touched. */
    method InferRecordSchema(record: Record) returns (s: SchemaObject)
      requires inferrer.table == table
      modifies inferrer, inferrer.columns
      ensures s.Valid() && fresh(s) && fresh(s.columns)
      ensures s.value == InferSchema(table, [record])
    {
      inferrer.Reset();
      assert inferrer.columns.View() == map[];
      inferrer.Observe(record);
      s := inferrer.Finalize();
      OneRecord(table, record);
    }

    /** The row the contract drops, and the columns it cuts. */
    method Screen(record: Record) returns (kept: Option<Record>)
      requires Shown() && (current != null ==> current.Valid())
      ensures kept == if state.schema.Some? && contract == DISCARD_ROW && Violates(record, state.schema.value) then None
                      else Some(Candidate(contract, state, record))
      ensures contract == DISCARD_COLUMN && state.schema.Some? ==>
        kept == Some(map c | c in record && c in state.schema.value.columns :: record[c])
      ensures kept.Some? && (contract != DISCARD_COLUMN || state.schema.None?) ==> kept == Some(record)
    {
      hide Violates;
      hide SchemaObject.Valid;
      if current == null {
        return Some(record);
      }
      Says(current);
      if contract == DISCARD_ROW {
        var violates := RecordViolatesSchema(record, current);
        if violates {
          return None;
        }
      }
      if contract == DISCARD_COLUMN {
        return Some(map c | c in record && c in current.columns.entries :: record[c]);
      }
      return Some(record);
    }

    /** The record's schema becomes the first one, is merged into the current one, or is refused. */
    method AbsorbSchema(candidate: Record, recordSchema: SchemaObject)
      returns (forwarded: Option<Record>, next: SchemaObject?, changes: Changes,
               error: Option<string>, counted: Metrics)
      requires Shown() && recordSchema.Valid() && (current != null ==> current.Valid())
      ensures var (p, out) := Absorb(contract, state, candidate, recordSchema.value);
        && p.schema == (if next == null then None else Some(next.value))
        && p.metrics == counted && (p.pendingError.Some? <==> error.Some?)
        && out == Processed(forwarded, p.schema, changes)
      ensures next == current || next == recordSchema || fresh(next.columns)
      ensures next != null ==> next.Valid()
      ensures pendingError.Some? ==> error == pendingError
    {
      hide MergeSchemas;
      hide CountChanges;
      hide InitialChanges;
      hide SchemaObject.Valid;
      Says(recordSchema);
      counted := metrics.(recordsObserved := metrics.recordsObserved + 1);
      error := pendingError;
      var view := recordSchema.columns.View();
      if view == map[] {
        return Some(candidate), current, map[], error, counted;
      }
      if current == null {
        counted := counted.(columnsAdded := counted.columnsAdded + |view|, schemaVersion := recordSchema.version);
        changes := InitialChanges(Schema(recordSchema.table, view, recordSchema.version));
        return Some(candidate), recordSchema, changes, error, counted;
      }
      var evolution := new SchemaEvolution(contract);
      Untouched(recordSchema);
      Untouched(current);
      var merged := evolution.MergeObjects(current, recordSchema);
      if merged.Frozen? {
        Untouched(current);
        error := if pendingError.Some? then pendingError else Some(merged.column);
        return None, current, map[], error, counted;
      }
      Says(merged.schema);
      var (added, widened, conflicts) := CountChanges(merged.changes);
      counted := Metrics(counted.columnsAdded + added, counted.typesWidened + widened,
                         counted.typeConflicts + conflicts, counted.recordsObserved, merged.schema.version);
      return Some(candidate), merged.schema, merged.changes, error, counted;
    }

    /** One record: the answer and the new state are those on values, and no schema handed out before
        says anything else afterwards. */
    method ProcessRecord(record: Record)
      returns (forwarded: Option<Record>, schema: SchemaObject?, changes: Changes)
      requires Valid()
      modifies this, inferrer, inferrer.columns
      ensures Valid() && schema == current && old(returned) <= returned
      ensures state == Process(contract, table, old(state), record).0
      ensures Processed(forwarded, state.schema, changes) == Process(contract, table, old(state), record).1
      ensures contract == DISCARD_COLUMN && old(state).schema.Some? ==>
        forwarded == Some(map c | c in record && c in old(state).schema.value.columns :: record[c])
      ensures forwarded.Some? && (contract != DISCARD_COLUMN || old(state).schema.None?) ==> forwarded == Some(record)
      ensures forall s :: s in old(returned) ==> s.columns.View() == old(s.columns.View())
      ensures old(pendingError).Some? ==> pendingError == old(pendingError)
    {
      hide Absorb;
      hide InferSchema;
      hide Violates;
      hide Candidate;
      hide SchemaObject.Valid;
      ForwardsExactly(contract, table, state, record);
      var kept := Screen(record);
      if kept.Some? {
        var recordSchema := InferRecordSchema(kept.value);
        if current != null {
          Untouched(current);
        }
        var next, error, counted;
        forwarded, next, changes, error, counted := AbsorbSchema(kept.value, recordSchema);
        AllUntouched();
        Adopt(next, error, counted, Absorb(contract, state, kept.value, recordSchema.value).0);
        return forwarded, current, changes;
      }
      AllUntouched();
      return None, current, map[];
    }

    twostate lemma AllUntouched()
      requires old(Valid()) && Shown() && returned == old(returned)
      requires forall s :: s in returned ==> unchanged(s.columns)
      requires forall s, o :: s in returned && o in old(s.columns.Objects()) ==> unchanged(o)
      ensures Valid()
      ensures forall s :: s in returned ==> s.columns.View() == old(s.columns.View())
    {
      hide SchemaObject.Valid;
      forall s | s in returned
        ensures Intact(s) && s.columns.View() == old(s.columns.View())
      {
        Untouched(s);
      }
    }
  }
}
