/** The mutable context of one pipeline run: middleware counters and success hooks.

    Counters are specified by the multiset of counting events that produced them, so that two
    runs which count the same events in a different order can be compared.
    Hooks live in a dictionary keyed by object identity; a value of type `R` stands for an
    object reference, and `==` on it is Python's `is`. */
module Context {
  import opened Options

  datatype Event = In | Out | Dropped | Errored

  type Log = multiset<(string, Event)>

  datatype Counters = Counters(recordsIn: nat, recordsOut: nat, recordsDropped: nat, recordsErrored: nat)

  const ZERO := Counters(0, 0, 0, 0)

  function Tally(log: Log, name: string): Counters {
    Counters(log[(name, In)], log[(name, Out)], log[(name, Dropped)], log[(name, Errored)])
  }

  function Lookup(metrics: map<string, Counters>, name: string): Counters {
    if name in metrics then metrics[name] else ZERO
  }

  /** `times` occurrences of one event. */
  function Repeated(name: string, event: Event, times: nat): (log: Log)
    ensures forall e :: log[e] == if e == (name, event) then times else 0
  {
    multiset{}[(name, event) := times]
  }

  /** The log that brings the counters of one middleware from zero to `c`. */
  function LogOf(name: string, c: Counters): Log {
    Repeated(name, In, c.recordsIn) + Repeated(name, Errored, c.recordsErrored)
    + Repeated(name, Dropped, c.recordsDropped) + Repeated(name, Out, c.recordsOut)
  }

  lemma TallyLogOf(name: string, c: Counters)
    ensures Tally(LogOf(name, c), name) == c
    ensures forall e: (string, Event) :: e.0 != name ==> LogOf(name, c)[e] == 0
  {
  }

  ghost predicate Shows(metrics: map<string, Counters>, log: Log) {
    forall name :: Lookup(metrics, name) == Tally(log, name)
  }

  /** A success hook and its optional discard callback, both named by number. */
  datatype HookEntry = HookEntry(hook: int, onDiscard: Option<int>)

  type HookTable<!R> = map<R, seq<HookEntry>>

  function Hooks<R>(table: HookTable<R>, record: R): seq<HookEntry> {
    if record in table then table[record] else []
  }

  /** setdefault(id(record), []).extend(entries), which creates no entry for an empty extension. */
  function Attach<R>(table: HookTable<R>, record: R, entries: seq<HookEntry>): HookTable<R> {
    if entries == [] then table else table[record := Hooks(table, record) + entries]
  }

  lemma AttachCons<R>(table: HookTable<R>, record: R, entries: seq<HookEntry>)
    requires entries != []
    ensures Attach(table, record, entries) == Attach(Attach(table, record, [entries[0]]), record, entries[1..])
  {
    var once := Attach(table, record, [entries[0]]);
    assert once[record] == Hooks(table, record) + [entries[0]];
    assert entries == [entries[0]] + entries[1..];
    assert Hooks(table, record) + entries == once[record] + entries[1..];
    if entries[1..] == [] {
      assert entries == [entries[0]];
    } else {
      assert Attach(once, record, entries[1..]) == once[record := once[record] + entries[1..]];
    }
  }

  lemma CountCons(count: multiset<HookEntry>, entries: seq<HookEntry>)
    requires entries != []
    ensures count + multiset(entries) == count + multiset{entries[0]} + multiset(entries[1..])
  {
    assert entries == [entries[0]] + entries[1..];
  }

  function Transfer<R>(table: HookTable<R>, source: R, target: R): HookTable<R> {
    if source == target then table
    else Attach(table - {source}, target, Hooks(table, source))
  }

  /** The dictionary never holds an empty list. */
  ghost predicate Compact<R(!new)>(table: HookTable<R>) {
    forall record :: record in table ==> table[record] != []
  }

  /** Every entry attached to one of `records`, with multiplicity. */
  ghost function Held<R>(table: HookTable<R>, records: set<R>): multiset<HookEntry> {
    if records == {} then multiset{}
    else
      var record :| record in records;
      multiset(Hooks(table, record)) + Held(table, records - {record})
  }

  ghost function Flatten<R>(table: HookTable<R>): multiset<HookEntry> {
    Held(table, table.Keys)
  }

  /** Held does not depend on the record it splits off first. */
  lemma {:induction false} HeldSplit<R>(table: HookTable<R>, records: set<R>, record: R)
    requires record in records
    ensures Held(table, records) == multiset(Hooks(table, record)) + Held(table, records - {record})
    decreases records
  {
    var first :| first in records
      && Held(table, records) == multiset(Hooks(table, first)) + Held(table, records - {first});
    if first != record {
      HeldSplit(table, records - {first}, record);
      HeldSplit(table, records - {record}, first);
      assert records - {first} - {record} == records - {record} - {first};
      Exchange(multiset(Hooks(table, first)), multiset(Hooks(table, record)),
               Held(table, records - {first} - {record}));
    }
  }

  lemma Exchange(a: multiset<HookEntry>, b: multiset<HookEntry>, c: multiset<HookEntry>)
    ensures a + (b + c) == b + (a + c)
  {
  }

  lemma {:induction false} HeldAgree<R>(left: HookTable<R>, right: HookTable<R>, records: set<R>)
    requires forall r :: r in records ==> Hooks(left, r) == Hooks(right, r)
    ensures Held(left, records) == Held(right, records)
    decreases records
  {
    if records != {} {
      var record :| record in records;
      HeldSplit(left, records, record);
      HeldSplit(right, records, record);
      HeldAgree(left, right, records - {record});
    }
  }

  lemma HeldAdd<R>(table: HookTable<R>, records: set<R>, record: R)
    requires Hooks(table, record) == []
    ensures Held(table, records + {record}) == Held(table, records)
  {
    if record in records {
      assert records + {record} == records;
    } else {
      HeldSplit(table, records + {record}, record);
      assert records + {record} - {record} == records;
    }
  }

  lemma HeldAttach<R>(table: HookTable<R>, record: R, entries: seq<HookEntry>, records: set<R>)
    requires record in records
    ensures Held(Attach(table, record, entries), records) == Held(table, records) + multiset(entries)
  {
    var after := Attach(table, record, entries);
    HeldSplit(table, records, record);
    HeldSplit(after, records, record);
    HeldAgree(table, after, records - {record});
    MoveOut(Hooks(table, record), entries, Held(table, records - {record}));
    assert Hooks(after, record) == Hooks(table, record) + entries;
  }

  lemma MoveOut(old': seq<HookEntry>, new': seq<HookEntry>, rest: multiset<HookEntry>)
    ensures multiset(old' + new') + rest == (multiset(old') + rest) + multiset(new')
  {
  }

  lemma HeldDetach<R>(table: HookTable<R>, record: R, records: set<R>)
    requires record in records
    ensures Held(table, records) == multiset(Hooks(table, record)) + Held(table - {record}, records)
  {
    var after := table - {record};
    HeldSplit(table, records, record);
    HeldSplit(after, records, record);
    HeldAgree(table, after, records - {record});
  }

  lemma HeldTransfer<R>(table: HookTable<R>, source: R, target: R, records: set<R>)
    requires source in records && target in records
    ensures Held(Transfer(table, source, target), records) == Held(table, records)
  {
    if source != target {
      HeldDetach(table, source, records);
      HeldAttach(table - {source}, target, Hooks(table, source), records);
    }
  }

  lemma FlattenAttach<R>(table: HookTable<R>, record: R, entries: seq<HookEntry>)
    ensures Flatten(Attach(table, record, entries)) == Flatten(table) + multiset(entries)
  {
    if entries != [] {
      assert Attach(table, record, entries).Keys == table.Keys + {record};
      HeldAttach(table, record, entries, table.Keys + {record});
      if record !in table {
        HeldAdd(table, table.Keys, record);
      } else {
        assert table.Keys + {record} == table.Keys;
      }
    }
  }

  lemma FlattenDetach<R>(table: HookTable<R>, record: R)
    ensures Flatten(table) == multiset(Hooks(table, record)) + Flatten(table - {record})
  {
    if record in table {
      HeldDetach(table, record, table.Keys);
      assert (table - {record}).Keys + {record} == table.Keys;
      HeldAdd(table - {record}, (table - {record}).Keys, record);
    } else {
      assert table - {record} == table;
    }
  }

  lemma FlattenTransfer<R>(table: HookTable<R>, source: R, target: R)
    ensures Flatten(Transfer(table, source, target)) == Flatten(table)
  {
    if source != target {
      FlattenDetach(table, source);
      FlattenAttach(table - {source}, target, Hooks(table, source));
    }
  }

  lemma RemoveTwice<R>(table: HookTable<R>, first: set<R>, second: set<R>)
    ensures (table - first) - second == table - (first + second)
  {
  }

  /** What popping a list of records takes out: each record's entries once, in order of first mention. */
  function Popped<R(==)>(table: HookTable<R>, records: seq<R>): seq<HookEntry> {
    if records == [] then []
    else Hooks(table, records[0]) + Popped(table - {records[0]}, records[1..])
  }

  function AsSet<R>(records: seq<R>): set<R> { set r | r in records }

  lemma {:induction false} FlattenPop<R>(table: HookTable<R>, records: seq<R>)
    ensures Flatten(table) == multiset(Popped(table, records)) + Flatten(table - AsSet(records))
    decreases |records|
  {
    if records == [] {
      assert table - AsSet(records) == table;
    } else {
      var head, rest := records[0], records[1..];
      FlattenDetach(table, head);
      FlattenPop(table - {head}, rest);
      AsSetCons(head, rest);
      assert records == [head] + rest;
      RemoveTwice(table, {head}, AsSet(rest));
      assert multiset(Hooks(table, head) + Popped(table - {head}, rest))
          == multiset(Hooks(table, head)) + multiset(Popped(table - {head}, rest));
    }
  }

  lemma AsSetCons<R>(head: R, rest: seq<R>)
    ensures AsSet([head] + rest) == {head} + AsSet(rest)
  {
  }

  lemma AsSetSnoc<R>(front: seq<R>, last: R)
    ensures AsSet(front + [last]) == AsSet(front) + {last}
  {
  }

  lemma {:induction false} PoppedSnoc<R>(table: HookTable<R>, records: seq<R>, last: R)
    ensures Popped(table, records + [last]) == Popped(table, records) + Hooks(table - AsSet(records), last)
    decreases |records|
  {
    if records == [] {
      assert records + [last] == [last];
      assert table - AsSet(records) == table;
      assert Popped(table - {last}, []) == [];
    } else {
      var head, rest := records[0], records[1..];
      PoppedSnoc(table - {head}, rest, last);
      assert (records + [last])[1..] == rest + [last];
      AsSetCons(head, rest);
      assert records == [head] + rest;
      RemoveTwice(table, {head}, AsSet(rest));
    }
  }

  function HooksOf(entries: seq<HookEntry>): (hooks: seq<int>)
    ensures |hooks| == |entries|
    ensures forall i :: 0 <= i < |entries| ==> hooks[i] == entries[i].hook
  {
    seq(|entries|, i requires 0 <= i < |entries| => entries[i].hook)
  }

  /** The discard callbacks that run, in order; entries without one are dropped silently. */
  function DiscardsOf(entries: seq<HookEntry>): seq<int> {
    if entries == [] then []
    else (if entries[0].onDiscard.Some? then [entries[0].onDiscard.value] else []) + DiscardsOf(entries[1..])
  }

  /** How many of the entries come with a discard callback. */
  function WithDiscard(entries: seq<HookEntry>): nat {
    if entries == [] then 0
    else WithDiscard(entries[..|entries| - 1]) + if entries[|entries| - 1].onDiscard.None? then 0 else 1
  }

  /** The callbacks are those of the entries that have one, each at the place its predecessors leave it. */
  lemma {:induction false} DiscardsAre(entries: seq<HookEntry>)
    ensures |DiscardsOf(entries)| == WithDiscard(entries)
    ensures forall i :: 0 <= i < |entries| && entries[i].onDiscard.Some? ==>
      WithDiscard(entries[..i]) < |DiscardsOf(entries)|
      && DiscardsOf(entries)[WithDiscard(entries[..i])] == entries[i].onDiscard.value
    decreases |entries|
  {
    hide DiscardsOf;
    NoDiscards();
    if entries != [] {
      var front, last := entries[..|entries| - 1], entries[|entries| - 1];
      assert entries == front + [last];
      DiscardsAre(front);
      DiscardsAppend(front, [last]);
      OneDiscard(last);
      assert forall i :: 0 <= i < |front| ==> front[..i] == entries[..i] && front[i] == entries[i];
      assert entries[..|front|] == front;
    }
  }

  lemma NoDiscards()
    ensures DiscardsOf([]) == []
  {
  }

  lemma OneDiscard(entry: HookEntry)
    ensures DiscardsOf([entry]) == if entry.onDiscard.Some? then [entry.onDiscard.value] else []
  {
  }

  lemma {:induction false} DiscardsAppend(left: seq<HookEntry>, right: seq<HookEntry>)
    ensures DiscardsOf(left + right) == DiscardsOf(left) + DiscardsOf(right)
    decreases |left|
  {
    if left == [] {
      assert left + right == right;
    } else {
      assert (left + right)[1..] == left[1..] + right;
      DiscardsAppend(left[1..], right);
    }
  }

  ghost predicate Conserved<R>(registered: multiset<HookEntry>, table: HookTable<R>,
                               popped: multiset<HookEntry>, discarded: multiset<HookEntry>) {
    registered == Flatten(table) + popped + discarded
  }

  lemma RegisterConserves<R>(registered: multiset<HookEntry>, table: HookTable<R>, popped: multiset<HookEntry>,
                             discarded: multiset<HookEntry>, record: R, entries: seq<HookEntry>)
    requires Conserved(registered, table, popped, discarded)
    ensures Conserved(registered + multiset(entries), Attach(table, record, entries), popped, discarded)
  {
    FlattenAttach(table, record, entries);
    var a, b := Flatten(table), multiset(entries);
    assert a + popped + discarded + b == (a + b) + popped + discarded;
  }

  lemma TakeConserves<R>(registered: multiset<HookEntry>, before: HookTable<R>, after: HookTable<R>,
                         popped: multiset<HookEntry>, discarded: multiset<HookEntry>, taken: multiset<HookEntry>)
    requires Conserved(registered, before, popped, discarded)
    requires Flatten(before) == taken + Flatten(after)
    ensures Conserved(registered, after, popped + taken, discarded)
    ensures Conserved(registered, after, popped, discarded + taken)
  {
    var b := Flatten(after);
    assert (taken + b) + popped + discarded == b + (popped + taken) + discarded;
    assert (taken + b) + popped + discarded == b + popped + (discarded + taken);
  }

  lemma CountShows(metrics: map<string, Counters>, log: Log, name: string, event: Event, times: nat, counted: Counters)
    requires Shows(metrics, log)
    requires counted == Tally(log + Repeated(name, event, times), name)
    ensures Shows(metrics[name := counted], log + Repeated(name, event, times))
  {
    forall other | other != name
      ensures Tally(log + Repeated(name, event, times), other) == Tally(log, other)
    {
      TallyOther(log, name, event, times, other);
    }
    forall other
      ensures Lookup(metrics[name := counted], other) == Tally(log + Repeated(name, event, times), other)
    {
      assert other != name ==> Lookup(metrics, other) == Tally(log, other);
    }
  }

  lemma TallyOther(log: Log, name: string, event: Event, times: nat, other: string)
    requires other != name
    ensures Tally(log + Repeated(name, event, times), other) == Tally(log, other)
  {
    forall e: Event
      ensures Repeated(name, event, times)[(other, e)] == 0
    {
      assert (other, e) != (name, event);
    }
  }

  /** Adding one kind of event moves exactly that counter. */
  function Plus(c: Counters, event: Event, times: nat): Counters {
    match event
    case In => c.(recordsIn := c.recordsIn + times)
    case Out => c.(recordsOut := c.recordsOut + times)
    case Dropped => c.(recordsDropped := c.recordsDropped + times)
    case Errored => c.(recordsErrored := c.recordsErrored + times)
  }

  lemma TallyPlus(log: Log, name: string, event: Event, times: nat)
    ensures Tally(log + Repeated(name, event, times), name) == Plus(Tally(log, name), event, times)
  {
    var added := Repeated(name, event, times);
    assert forall e: Event :: added[(name, e)] == if e == event then times else 0;
  }

  /** The callbacks of one record; a cancellation lands in the `cut`th of them and ends the run there. */
  method RunDiscards(taken: seq<HookEntry>, cut: Option<nat>) returns (run: seq<int>, cancelled: bool)
    ensures cancelled == (cut.Some? && cut.value < |DiscardsOf(taken)|)
    ensures run == if cancelled then DiscardsOf(taken)[..cut.value + 1] else DiscardsOf(taken)
  {
    run := [];
    for j := 0 to |taken|
      invariant run == DiscardsOf(taken[..j])
      invariant cut.Some? ==> |run| <= cut.value
    {
      assert taken[..j + 1] == taken[..j] + [taken[j]] && taken == taken[..j + 1] + taken[j + 1..];
      DiscardsAppend(taken[..j], [taken[j]]);
      DiscardsAppend(taken[..j + 1], taken[j + 1..]);
      if taken[j].onDiscard.Some? {
        run := run + [taken[j].onDiscard.value];
        if cut == Some(|run| - 1) {
          return run, true;
        }
      }
    }
    assert taken[..|taken|] == taken;
    cancelled := false;
  }

  /** How many of the records discarding gets to when the `cut`th callback is cancelled: up to and including
      the record that callback belongs to. */
  function Reached<R(==)>(table: HookTable<R>, records: seq<R>, cut: Option<nat>): (n: nat)
    ensures n <= |records|
  {
    if records == [] || cut.None? then |records|
    else
      var front := records[..|records| - 1];
      if |DiscardsOf(Popped(table, front))| <= cut.value then |records| else Reached(table, front, cut)
  }

  lemma PoppedGrows<R>(table: HookTable<R>, records: seq<R>, i: nat)
    requires i < |records|
    ensures |DiscardsOf(Popped(table, records[..i]))| <= |DiscardsOf(Popped(table, records[..i + 1]))|
  {
    assert records[..i + 1] == records[..i] + [records[i]];
    PoppedSnoc(table, records[..i], records[i]);
    DiscardsAppend(Popped(table, records[..i]), Hooks(table - AsSet(records[..i]), records[i]));
  }

  lemma {:induction false} ReachedAt<R>(table: HookTable<R>, records: seq<R>, cut: nat, i: nat)
    requires i < |records|
    requires |DiscardsOf(Popped(table, records[..i]))| <= cut < |DiscardsOf(Popped(table, records[..i + 1]))|
    ensures Reached(table, records, Some(cut)) == i + 1
    ensures cut < |DiscardsOf(Popped(table, records))|
    decreases |records|
  {
    var front := records[..|records| - 1];
    if i == |front| {
      assert records[..i + 1] == records;
    } else {
      assert front[..i] == records[..i] && front[..i + 1] == records[..i + 1];
      ReachedAt(table, front, cut, i);
      PoppedGrows(table, records, |front|);
      assert records[..|front| + 1] == records;
    }
  }

  lemma NotReached<R>(table: HookTable<R>, records: seq<R>, cut: Option<nat>)
    requires cut.Some? ==> |DiscardsOf(Popped(table, records))| <= cut.value
    ensures Reached(table, records, cut) == |records|
  {
    if records != [] {
      PoppedGrows(table, records, |records| - 1);
      assert records[..|records| - 1 + 1] == records;
    }
  }

  lemma OneMorePopped<R>(table: HookTable<R>, records: seq<R>, i: nat)
    requires i < |records|
    ensures var seen, r := AsSet(records[..i]), records[i];
      && AsSet(records[..i + 1]) == seen + {r} && table - AsSet(records[..i + 1]) == (table - seen) - {r}
      && DiscardsOf(Popped(table, records[..i + 1]))
         == DiscardsOf(Popped(table, records[..i])) + DiscardsOf(Hooks(table - seen, r))
      && (r in seen ==> AsSet(records[..i + 1]) == seen)
      && (r in seen ==> DiscardsOf(Popped(table, records[..i + 1])) == DiscardsOf(Popped(table, records[..i])))
  {
    assert records[..i + 1] == records[..i] + [records[i]];
    PoppedSnoc(table, records[..i], records[i]);
    AsSetSnoc(records[..i], records[i]);
    RemoveTwice(table, AsSet(records[..i]), {records[i]});
    DiscardsAppend(Popped(table, records[..i]), Hooks(table - AsSet(records[..i]), records[i]));
  }

  lemma NonePopped<R>(table: HookTable<R>)
    ensures Popped(table, []) == [] && DiscardsOf([]) == []
  {
  }

  class PipelineContext<R(==, !new)> {
    var metrics: map<string, Counters>
    var hooks: HookTable<R>
    ghost var log: Log
    ghost var registered: multiset<HookEntry>
    ghost var popped: multiset<HookEntry>
    ghost var discarded: multiset<HookEntry>

    /** Counters show exactly the logged events, and every hook ever registered is attached to a
        record, was popped or was discarded: exactly one of the three, with multiplicity. */
    ghost predicate Valid()
      reads this
    {
      && Shows(metrics, log)
      && Compact(hooks)
      && Conserved(registered, hooks, popped, discarded)
    }

    constructor ()
      ensures Valid() && metrics == map[] && hooks == map[]
      ensures log == multiset{} && registered == popped == discarded == multiset{}
    {
      metrics, hooks := map[], map[];
      log := multiset{};
      registered, popped, discarded := multiset{}, multiset{}, multiset{};
    }

    /** The `+=` on one counter of one middleware. */
    method Count(name: string, event: Event, times: nat)
      requires Valid()
      modifies this`metrics, this`log
      ensures Valid()
      ensures log == old(log) + Repeated(name, event, times)
    {
      TallyPlus(log, name, event, times);
      var counted := Plus(Lookup(metrics, name), event, times);
      CountShows(metrics, log, name, event, times, counted);
      metrics := metrics[name := counted];
      log := log + Repeated(name, event, times);
    }

    method RegisterSuccessHook(record: R, entry: HookEntry)
      requires Valid()
      modifies this`hooks, this`registered
      ensures Valid()
      ensures hooks == Attach(old(hooks), record, [entry])
      ensures Hooks(hooks, record) == Hooks(old(hooks), record) + [entry]
      ensures forall q :: q != record ==> Hooks(hooks, q) == Hooks(old(hooks), q)
      ensures registered == old(registered) + multiset{entry}
    {
      hide Shows;
      hide Conserved;
      RegisterConserves(registered, hooks, popped, discarded, record, [entry]);
      assert multiset([entry]) == multiset{entry};
      hooks := Attach(hooks, record, [entry]);
      registered := registered + multiset{entry};
    }

    method RegisterAll(record: R, entries: seq<HookEntry>)
      requires Valid()
      modifies this`hooks, this`registered
      ensures Valid()
      ensures hooks == Attach(old(hooks), record, entries)
      ensures registered == old(registered) + multiset(entries)
    {
      if entries != [] {
        RegisterSuccessHook(record, entries[0]);
        AttachCons(old(hooks), record, entries);
        CountCons(old(registered), entries);
        RegisterAll(record, entries[1..]);
      }
    }

    method TransferSuccessHooks(source: R, target: R)
      requires Valid()
      modifies this`hooks
      ensures Valid()
      ensures hooks == Transfer(old(hooks), source, target)
      ensures source == target ==> hooks == old(hooks)
      ensures source != target ==> Hooks(hooks, source) == []
      ensures source != target ==> Hooks(hooks, target) == Hooks(old(hooks), target) + Hooks(old(hooks), source)
      ensures forall q :: q != source && q != target ==> Hooks(hooks, q) == Hooks(old(hooks), q)
    {
      FlattenTransfer(hooks, source, target);
      if source == target { return; }
      var moved := Hooks(hooks, source);
      hooks := hooks - {source};
      if moved != [] {
        hooks := hooks[target := Hooks(hooks, target) + moved];
      }
    }

    /** Removes and returns the hooks of the given records; a repeated record is taken once. */
    method PopSuccessHooks(records: seq<R>) returns (handed: seq<int>)
      requires Valid()
      modifies this`hooks, this`popped
      ensures Valid()
      ensures var taken := Popped(old(hooks), records);
        |handed| == |taken| && forall i :: 0 <= i < |taken| ==> handed[i] == taken[i].hook
      ensures hooks == old(hooks) - AsSet(records)
      ensures popped == old(popped) + multiset(Popped(old(hooks), records))
    {
      var taken := TakeAll(records);
      handed := HooksOf(taken);
      TakeConserves(registered, old(hooks), hooks, popped, discarded, multiset(taken));
      popped := popped + multiset(taken);
    }

    /** Record by record, removes the hooks and runs the discard callbacks that exist. A callback that is
        cancelled ends it: later records keep their hooks. */
    method DiscardSuccessHooks(records: seq<R>, cut: Option<nat>) returns (run: seq<int>, cancelled: bool)
      requires Valid()
      modifies this`hooks, this`discarded
      ensures Valid()
      ensures var n := Reached(old(hooks), records, cut);
        var taken := Popped(old(hooks), records[..n]);
        && hooks == old(hooks) - AsSet(records[..n])
        && discarded == old(discarded) + multiset(taken)
        && cancelled == (cut.Some? && cut.value < WithDiscard(taken))
        && |run| == (if cancelled then cut.value + 1 else WithDiscard(taken))
        && forall i :: 0 <= i < |taken| && taken[i].onDiscard.Some? && WithDiscard(taken[..i]) < |run| ==>
             run[WithDiscard(taken[..i])] == taken[i].onDiscard.value
    {
      hide Popped;
      hide DiscardsOf;
      hide WithDiscard;
      hide Reached;
      hide Hooks;
      hide Shows;
      run, cancelled := DiscardEach(records, cut);
      ghost var n := Reached(old(hooks), records, cut);
      ghost var taken := Popped(old(hooks), records[..n]);
      DiscardsAre(taken);
      FlattenPop(old(hooks), records[..n]);
      TakeConserves(registered, old(hooks), hooks, popped, discarded, multiset(taken));
      discarded := discarded + multiset(taken);
    }

    method DiscardEach(records: seq<R>, cut: Option<nat>) returns (run: seq<int>, cancelled: bool)
      requires Compact(hooks)
      modifies this`hooks
      ensures Compact(hooks)
      ensures var n := Reached(old(hooks), records, cut);
        var discards := DiscardsOf(Popped(old(hooks), records[..n]));
        && hooks == old(hooks) - AsSet(records[..n])
        && cancelled == (cut.Some? && cut.value < |discards|)
        && run == if cancelled then discards[..cut.value + 1] else discards
    {
      hide Popped;
      hide DiscardsOf;
      hide Hooks;
      hide Reached;
      ghost var before := hooks;
      run := [];
      var seen: set<R> := {};
      NonePopped(before);
      for i := 0 to |records|
        modifies this`hooks
        invariant seen == AsSet(records[..i]) && hooks == before - seen
        invariant run == DiscardsOf(Popped(before, records[..i]))
        invariant cut.Some? ==> |run| <= cut.value
      {
        OneMorePopped(before, records, i);
        if records[i] in seen {
          continue;
        }
        var entries := Hooks(hooks, records[i]);
        seen := seen + {records[i]};
        hooks := hooks - {records[i]};
        var here;
        here, cancelled := RunDiscards(entries, if cut.Some? then Some(cut.value - |run|) else None);
        if cancelled {
          ReachedAt(before, records, cut.value, i);
          run := run + here;
          return;
        }
        run := run + here;
      }
      assert records[..|records|] == records;
      NotReached(before, records, cut);
      cancelled := false;
    }

    /** One dictionary pop per record not seen before. */
    method TakeAll(records: seq<R>) returns (taken: seq<HookEntry>)
      requires Valid()
      modifies this`hooks
      ensures taken == Popped(old(hooks), records)
      ensures hooks == old(hooks) - AsSet(records)
      ensures Compact(hooks)
      ensures Flatten(old(hooks)) == multiset(taken) + Flatten(hooks)
    {
      taken := [];
      var seen: set<R> := {};
      ghost var before := hooks;
      for i := 0 to |records|
        invariant seen == AsSet(records[..i])
        invariant hooks == before - seen
        invariant taken == Popped(before, records[..i])
      {
        assert records[..i + 1] == records[..i] + [records[i]];
        PoppedSnoc(before, records[..i], records[i]);
        AsSetSnoc(records[..i], records[i]);
        if records[i] in seen {
          assert Hooks(hooks, records[i]) == [];
          assert seen + {records[i]} == seen;
          continue;
        }
        RemoveTwice(before, seen, {records[i]});
        seen := seen + {records[i]};
        taken := taken + Hooks(hooks, records[i]);
        hooks := hooks - {records[i]};
      }
      assert records[..|records|] == records;
      FlattenPop(before, records);
    }
  }

  /** Counters of two contexts are equal as soon as their event logs are. */
  lemma SameLogSameCounters(left: map<string, Counters>, right: map<string, Counters>, log: Log, name: string)
    requires Shows(left, log) && Shows(right, log)
    ensures Lookup(left, name) == Lookup(right, name)
  {
    assert Lookup(left, name) == Tally(log, name);
    assert Lookup(right, name) == Tally(log, name);
  }
}
