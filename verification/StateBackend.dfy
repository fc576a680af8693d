/** The in-memory and the SQLite state backends against one specification.

    A clock reading is a parameter of each operation that takes one; readings do not decrease over a run.
    SQL statements are atomic, and stored values survive the round trip through JSON text. */
module StateBackend {
  import opened Options
  import opened Json
  import opened Like

  datatype StoredValue = StoredValue(value: Value, expiresAt: Option<real>)

  type Table = map<string, StoredValue>

  datatype Operation =
    | Get(key: string)
    | Set(key: string, value: Value, expiresAt: Option<real>)
    | SetIfAbsent(key: string, value: Value, expiresAt: Option<real>)
    | Delete(key: string)
    | CountPrefix(prefix: string)
    | DeletePrefix(prefix: string)

  datatype Answer = Entry(entry: Option<StoredValue>) | Flag(added: bool) | Count(count: nat) | Done

  predicate Expired(e: StoredValue, now: real) {
    e.expiresAt.Some? && now >= e.expiresAt.value
  }

  predicate Live(t: Table, key: string, now: real) {
    key in t && !Expired(t[key], now)
  }

  function Unexpired(t: Table, now: real): Table {
    map k | k in t && !Expired(t[k], now) :: t[k]
  }

  function Hits(t: Table, prefix: string, eq: Comparison): (hits: set<string>)
    ensures hits <= t.Keys
  {
    set k | k in t && StartsAlike(k, prefix, eq)
  }

  /** What an operation does to the stored table and answers; `eq` is how the backend compares characters
      when it looks for a prefix. */
  function Step(t: Table, op: Operation, now: real, eq: Comparison): (Table, Answer) {
    match op
    case Get(k) =>
      if k in t && Expired(t[k], now) then (t - {k}, Entry(None))
      else (t, Entry(if k in t then Some(t[k]) else None))
    case Set(k, v, e) => (t[k := StoredValue(v, e)], Done)
    case SetIfAbsent(k, v, e) =>
      if Live(t, k, now) then (t, Flag(false)) else (t[k := StoredValue(v, e)], Flag(true))
    case Delete(k) => (t - {k}, Done)
    case CountPrefix(p) =>
      var kept := Unexpired(t, now);
      (kept, Count(|Hits(kept, p, eq)|))
    case DeletePrefix(p) => (t - Hits(t, p, eq), Count(|Hits(t, p, eq)|))
  }

  predicate Same(a: char, b: char) {
    a == b
  }

  lemma StartsWith(key: string, prefix: string)
    ensures StartsAlike(key, prefix, Same) <==> prefix <= key
  {
    if prefix <= key {
      assert forall i :: 0 <= i < |prefix| ==> prefix[i] == key[i];
    }
    if StartsAlike(key, prefix, Same) {
      assert forall i :: 0 <= i < |prefix| ==> Same(key[i], prefix[i]);
      assert key[..|prefix|] == prefix;
    }
  }

  /** What each question is answered from the stored entries and the clock alone: an entry is found strictly before
      its expiry, a key is added when none is found, counting by prefix sees what is found, and deleting by prefix
      everything that is stored. */
  lemma AnswersFromTheTable(t: Table, k: string, v: Value, e: Option<real>, prefix: string, now: real)
    ensures var found := set key | key in t && (t[key].expiresAt.Some? ==> now < t[key].expiresAt.value);
      && Step(t, Get(k), now, Same).1 == Entry(if k in found then Some(t[k]) else None)
      && Step(t, SetIfAbsent(k, v, e), now, Same).1 == Flag(k !in found)
      && Step(t, CountPrefix(prefix), now, Same).1 == Count(|set key | key in found && prefix <= key|)
      && Step(t, DeletePrefix(prefix), now, Same).1 == Count(|set key | key in t && prefix <= key|)
  {
    forall key
      ensures StartsAlike(key, prefix, Same) <==> prefix <= key
    {
      StartsWith(key, prefix);
    }
    var found := set key | key in t && (t[key].expiresAt.Some? ==> now < t[key].expiresAt.value);
    assert Hits(Unexpired(t, now), prefix, Same) == set key | key in found && prefix <= key;
    assert Hits(t, prefix, Same) == set key | key in t && prefix <= key;
  }

  // ---- the dictionary backend -------------------------------------------------------------------

  class MemoryBackend {
    var values: Table

    constructor ()
      ensures values == map[]
    {
      values := map[];
    }

    method Get(key: string, now: real) returns (entry: Option<StoredValue>)
      modifies this
      ensures (values, Entry(entry)) == Step(old(values), Operation.Get(key), now, Same)
      ensures entry.Some? <==> (key in old(values)
        && (old(values)[key].expiresAt.Some? ==> now < old(values)[key].expiresAt.value))
    {
      if key !in values {
        return None;
      }
      var found := values[key];
      if found.expiresAt.Some? && now >= found.expiresAt.value {
        values := values - {key};
        return None;
      }
      return Some(found);
    }

    method Set(key: string, value: Value, expiresAt: Option<real>)
      modifies this
      ensures (values, Done) == Step(old(values), Operation.Set(key, value, expiresAt), 0.0, Same)
    {
      values := values[key := StoredValue(value, expiresAt)];
    }

    /** `get` first drops an expired entry, so the key is absent or live when it is written. */
    method SetIfAbsent(key: string, value: Value, expiresAt: Option<real>, now: real) returns (added: bool)
      modifies this
      ensures (values, Flag(added)) == Step(old(values), Operation.SetIfAbsent(key, value, expiresAt), now, Same)
    {
      var entry := Get(key, now);
      if entry.Some? {
        return false;
      }
      values := values[key := StoredValue(value, expiresAt)];
      assert values == old(values)[key := StoredValue(value, expiresAt)];
      return true;
    }

    method Delete(key: string)
      modifies this
      ensures (values, Done) == Step(old(values), Operation.Delete(key), 0.0, Same)
    {
      values := values - {key};
    }

    /** One pass counts and collects the expired keys, a second one pops them. */
    method CountPrefix(prefix: string, now: real) returns (count: nat)
      modifies this
      ensures (values, Count(count)) == Step(old(values), Operation.CountPrefix(prefix), now, Same)
    {
      hide StartsAlike;
      ghost var kept := Unexpired(values, now);
      ghost var counted: set<string> := {};
      count := 0;
      var expired: set<string> := {};
      var keys := values.Keys;
      while keys != {}
        modifies {}
        invariant keys <= values.Keys
        invariant expired == set k | k in values && k !in keys && Expired(values[k], now)
        invariant counted == (set k | k in values && k !in keys && k in Hits(kept, prefix, Same))
        invariant count == |counted|
        decreases keys
      {
        var key :| key in keys;
        keys := keys - {key};
        StartsWith(key, prefix);
        if values[key].expiresAt.Some? && now >= values[key].expiresAt.value {
          expired := expired + {key};
          continue;
        }
        if prefix <= key {
          count, counted := count + 1, counted + {key};
        }
      }
      assert counted == Hits(kept, prefix, Same);
      PopAll(expired);
      assert values == kept;
    }

    method PopAll(keys: set<string>)
      modifies this
      ensures values == old(values) - keys
    {
      var left := keys;
      while left != {}
        invariant left <= keys && values == old(values) - (keys - left)
        decreases left
      {
        var key :| key in left;
        left := left - {key};
        values := values - {key};
      }
    }

    method DeletePrefix(prefix: string) returns (count: nat)
      modifies this
      ensures (values, Count(count)) == Step(old(values), Operation.DeletePrefix(prefix), 0.0, Same)
    {
      forall k
        ensures StartsAlike(k, prefix, Same) <==> prefix <= k
      {
        StartsWith(k, prefix);
      }
      var keys := set k | k in values && prefix <= k;
      assert keys == Hits(values, prefix, Same);
      PopAll(keys);
      count := |keys|;
    }
  }

  // ---- the SQLite backend -----------------------------------------------------------------------

  class SQLiteBackend {
    var rows: Table
    const eq: Comparison

    constructor (eq: Comparison)
      ensures rows == map[] && this.eq == eq
    {
      rows, this.eq := map[], eq;
    }

    method Get(key: string, now: real) returns (entry: Option<StoredValue>)
      modifies this
      ensures (rows, Entry(entry)) == Step(old(rows), Operation.Get(key), now, eq)
      ensures entry.Some? <==> (key in old(rows)
        && (old(rows)[key].expiresAt.Some? ==> now < old(rows)[key].expiresAt.value))
    {
      if key !in rows {
        return None;
      }
      var row := rows[key];
      if row.expiresAt.Some? && now >= row.expiresAt.value {
        rows := rows - {key};
        return None;
      }
      return Some(row);
    }

    method Set(key: string, value: Value, expiresAt: Option<real>)
      modifies this
      ensures (rows, Done) == Step(old(rows), Operation.Set(key, value, expiresAt), 0.0, eq)
    {
      rows := rows[key := StoredValue(value, expiresAt)];
    }

    /** DELETE the key's expired row, then INSERT OR IGNORE; the number of inserted rows is the answer. */
    method SetIfAbsent(key: string, value: Value, expiresAt: Option<real>, now: real) returns (added: bool)
      modifies this
      ensures (rows, Flag(added)) == Step(old(rows), Operation.SetIfAbsent(key, value, expiresAt), now, eq)
    {
      rows := map k | k in rows && !(k == key && rows[k].expiresAt.Some? && rows[k].expiresAt.value <= now) :: rows[k];
      var inserted := if key in rows then 0 else 1;
      if inserted == 1 {
        rows := rows[key := StoredValue(value, expiresAt)];
        assert rows == old(rows)[key := StoredValue(value, expiresAt)];
      } else {
        assert rows == old(rows);
      }
      return inserted > 0;
    }

    method Delete(key: string)
      modifies this
      ensures (rows, Done) == Step(old(rows), Operation.Delete(key), 0.0, eq)
    {
      rows := rows - {key};
    }

    /** DELETE every expired row, then SELECT COUNT(*) with LIKE. */
    method CountPrefix(prefix: string, now: real) returns (count: nat)
      modifies this
      ensures (rows, Count(count)) == Step(old(rows), Operation.CountPrefix(prefix), now, eq)
    {
      rows := map k | k in rows && !(rows[k].expiresAt.Some? && rows[k].expiresAt.value <= now) :: rows[k];
      assert rows == Unexpired(old(rows), now);
      var selected := set k | k in rows && LikeTest(k, Escape(prefix) + "%", eq);
      SelectedByLike(rows, prefix, eq);
      count := |selected|;
    }

    method DeletePrefix(prefix: string) returns (count: nat)
      modifies this
      ensures (rows, Count(count)) == Step(old(rows), Operation.DeletePrefix(prefix), 0.0, eq)
    {
      var selected := set k | k in rows && LikeTest(k, Escape(prefix) + "%", eq);
      SelectedByLike(rows, prefix, eq);
      rows := rows - selected;
      count := |selected|;
    }
  }

  lemma SelectedByLike(rows: Table, prefix: string, eq: Comparison)
    ensures (set k | k in rows && LikeTest(k, Escape(prefix) + "%", eq)) == Hits(rows, prefix, eq)
  {
    forall k | k in rows
      ensures LikeTest(k, Escape(prefix) + "%", eq) <==> StartsAlike(k, prefix, eq)
    {
      LikeTestMatchesPrefix(k, prefix, eq);
    }
  }

  // ---- the two backends over whole runs ---------------------------------------------------------

  type Call = (Operation, real)

  function Run(t: Table, calls: seq<Call>, eq: Comparison): (r: (Table, seq<Answer>))
    ensures |r.1| == |calls|
  {
    if calls == [] then (t, [])
    else
      var (before, answers) := Run(t, calls[..|calls| - 1], eq);
      var (after, answer) := Step(before, calls[|calls| - 1].0, calls[|calls| - 1].1, eq);
      (after, answers + [answer])
  }

  /** No key the operation would look at differs from the prefix in a way only exact comparison sees. */
  ghost predicate SeesSameKeys(t: Table, op: Operation, now: real, eq: Comparison) {
    match op
    case CountPrefix(p) => forall k :: Live(t, k, now) && StartsAlike(k, p, eq) ==> p <= k
    case DeletePrefix(p) => forall k :: k in t && StartsAlike(k, p, eq) ==> p <= k
    case _ => true
  }

  lemma HitsAgree(t: Table, prefix: string, eq: Comparison)
    requires forall c :: eq(c, c)
    ensures Hits(t, prefix, Same) <= Hits(t, prefix, eq)
    ensures Hits(t, prefix, Same) == Hits(t, prefix, eq)
      <==> (forall k :: k in t && StartsAlike(k, prefix, eq) ==> prefix <= k)
    ensures |Hits(t, prefix, Same)| == |Hits(t, prefix, eq)|
      <==> (forall k :: k in t && StartsAlike(k, prefix, eq) ==> prefix <= k)
  {
    var mine, theirs := Hits(t, prefix, Same), Hits(t, prefix, eq);
    forall k | k in t
      ensures k in mine <==> prefix <= k
      ensures k in mine ==> k in theirs
    {
      StartsWith(k, prefix);
    }
    if |mine| == |theirs| {
      SameSize(mine, theirs);
    }
  }

  lemma SameSize<T>(small: set<T>, big: set<T>)
    requires small <= big && |small| == |big|
    ensures small == big
  {
    assert |big - small| == |big| - |small|;
    assert big == small + (big - small);
  }

  /** On the same table and clock reading, one operation gives the same answer and the same table on both
      backends exactly when LIKE sees no key that does not start with the prefix. */
  lemma StepsAgree(t: Table, op: Operation, now: real, eq: Comparison)
    requires forall c :: eq(c, c)
    ensures Step(t, op, now, Same) == Step(t, op, now, eq) <==> SeesSameKeys(t, op, now, eq)
    ensures Step(t, op, now, Same).1 == Step(t, op, now, eq).1 <==> SeesSameKeys(t, op, now, eq)
  {
    hide StartsAlike;
    match op
    case CountPrefix(p) => HitsAgree(Unexpired(t, now), p, eq);
    case DeletePrefix(p) =>
      HitsAgree(t, p, eq);
    case _ =>
  }

  ghost predicate SeeSameKeys(t: Table, calls: seq<Call>, eq: Comparison) {
    forall i :: 0 <= i < |calls| ==> SeesSameKeys(Run(t, calls[..i], Same).0, calls[i].0, calls[i].1, eq)
  }

  lemma SeeSameKeysSplit(t: Table, calls: seq<Call>, eq: Comparison)
    requires calls != []
    ensures var front, last := calls[..|calls| - 1], calls[|calls| - 1];
      SeeSameKeys(t, calls, eq) <==>
      SeeSameKeys(t, front, eq) && SeesSameKeys(Run(t, front, Same).0, last.0, last.1, eq)
  {
    hide SeesSameKeys;
    hide Run;
    var front := calls[..|calls| - 1];
    assert forall i :: 0 <= i < |front| ==> front[..i] == calls[..i] && front[i] == calls[i];
    if SeeSameKeys(t, calls, eq) {
      forall i | 0 <= i < |front|
        ensures SeesSameKeys(Run(t, front[..i], Same).0, front[i].0, front[i].1, eq)
      {
        assert front[..i] == calls[..i] && front[i] == calls[i];
      }
    }
  }

  /** Two runs give the same answers exactly when that holds at every operation; the tables are then the
      same as well. */
  lemma {:induction false} RunsAgree(t: Table, calls: seq<Call>, eq: Comparison)
    requires forall c :: eq(c, c)
    ensures Run(t, calls, Same).1 == Run(t, calls, eq).1 <==> SeeSameKeys(t, calls, eq)
    ensures Run(t, calls, Same) == Run(t, calls, eq) <==> SeeSameKeys(t, calls, eq)
    decreases |calls|
  {
    hide Step;
    hide SeesSameKeys;
    if calls == [] {
    } else {
      var front, last := calls[..|calls| - 1], calls[|calls| - 1];
      RunsAgree(t, front, eq);
      SeeSameKeysSplit(t, calls, eq);
      hide SeeSameKeys;
      StepsAgree(Run(t, front, Same).0, last.0, last.1, eq);
      var mine, theirs := Run(t, front, Same), Run(t, front, eq);
      var a, b := Step(mine.0, last.0, last.1, Same), Step(theirs.0, last.0, last.1, eq);
      assert (mine.1 + [a.1])[..|mine.1|] == mine.1;
      assert (theirs.1 + [b.1])[..|theirs.1|] == theirs.1;
    }
  }

  /** No character but itself compares equal to a character of the prefix; under SQLite's comparison, the
      prefix has no ASCII letter. */
  ghost predicate ComparedExactly(prefix: string, eq: Comparison) {
    forall i, c :: 0 <= i < |prefix| && eq(c, prefix[i]) ==> c == prefix[i]
  }

  ghost predicate CallComparedExactly(op: Operation, eq: Comparison) {
    (op.CountPrefix? || op.DeletePrefix?) ==> ComparedExactly(op.prefix, eq)
  }

  lemma BackendsAgree(t: Table, calls: seq<Call>, eq: Comparison)
    requires forall c :: eq(c, c)
    requires forall i :: 0 <= i < |calls| ==> CallComparedExactly(calls[i].0, eq)
    ensures Run(t, calls, Same) == Run(t, calls, eq)
  {
    hide Run;
    forall i | 0 <= i < |calls|
      ensures SeesSameKeys(Run(t, calls[..i], Same).0, calls[i].0, calls[i].1, eq)
    {
      assert CallComparedExactly(calls[i].0, eq);
      if calls[i].0.CountPrefix? || calls[i].0.DeletePrefix? {
        var p := calls[i].0.prefix;
        forall k | StartsAlike(k, p, eq)
          ensures p <= k
        {
          assert forall j :: 0 <= j < |p| ==> eq(k[j], p[j]);
        }
      }
    }
    RunsAgree(t, calls, eq);
  }

  function FoldCase(c: char): char {
    if 'A' <= c <= 'Z' then c + ' ' else c
  }

  predicate SqliteEq(a: char, b: char) {
    FoldCase(a) == FoldCase(b)
  }

  /** SQLite's LIKE folds ASCII case: with the key "ns:a" stored, counting the prefix "NS:" finds nothing in
      memory and one key in SQLite. */
  lemma CaseFoldingSplitsTheBackends()
    ensures var t: Table := map["ns:a" := StoredValue(Null, None)];
      && Step(t, CountPrefix("NS:"), 0.0, Same).1 == Count(0)
      && Step(t, CountPrefix("NS:"), 0.0, SqliteEq).1 == Count(1)
  {
    var t: Table := map["ns:a" := StoredValue(Null, None)];
    var key, p := "ns:a", "NS:";
    assert Unexpired(t, 0.0) == t;
    assert !Same(key[0], p[0]);
    assert Hits(t, p, Same) == {};
    assert StartsAlike(key, p, SqliteEq);
    assert Hits(t, p, SqliteEq) == {key};
  }

  // ---- lazy pruning against a table that keeps everything ---------------------------------------

  /** The same operations on a table that never drops an expired entry, only looks past it. */
  function PlainStep(t: Table, op: Operation, now: real): (Table, Answer) {
    match op
    case Get(k) => (t, Entry(if Live(t, k, now) then Some(t[k]) else None))
    case Set(k, v, e) => (t[k := StoredValue(v, e)], Done)
    case SetIfAbsent(k, v, e) =>
      if Live(t, k, now) then (t, Flag(false)) else (t[k := StoredValue(v, e)], Flag(true))
    case Delete(k) => (t - {k}, Done)
    case CountPrefix(p) => (t, Count(|Hits(Unexpired(t, now), p, Same)|))
    case DeletePrefix(p) => (t - Hits(t, p, Same), Count(|Hits(Unexpired(t, now), p, Same)|))
  }

  function PlainRun(t: Table, calls: seq<Call>): (r: (Table, seq<Answer>))
    ensures |r.1| == |calls|
  {
    if calls == [] then (t, [])
    else
      var (before, answers) := PlainRun(t, calls[..|calls| - 1]);
      var (after, answer) := PlainStep(before, calls[|calls| - 1].0, calls[|calls| - 1].1);
      (after, answers + [answer])
  }

  /** The pruned table is the plain one less some entries that expired by `now`. */
  ghost predicate Prunes(t: Table, plain: Table, now: real) {
    && (forall k :: k in t ==> k in plain && t[k] == plain[k])
    && (forall k :: k in plain && k !in t ==> Expired(plain[k], now))
  }

  predicate DropsExpired(t: Table, op: Operation, now: real) {
    op.DeletePrefix? && exists k :: k in t && Expired(t[k], now) && StartsAlike(k, op.prefix, Same)
  }

  lemma PrunedSame(t: Table, plain: Table, before: real, now: real)
    requires Prunes(t, plain, before) && before <= now
    ensures Prunes(t, plain, now)
    ensures Unexpired(t, now) == Unexpired(plain, now)
    ensures forall k :: Live(t, k, now) <==> Live(plain, k, now)
  {
  }

  lemma HitsLive(t: Table, p: string, now: real)
    ensures |Hits(t, p, Same)| == |Hits(Unexpired(t, now), p, Same)| <==> !DropsExpired(t, DeletePrefix(p), now)
  {
    hide StartsAlike;
    var live, there := Hits(Unexpired(t, now), p, Same), Hits(t, p, Same);
    assert live <= there;
    if |live| == |there| {
      SameSize(live, there);
      assert forall k :: k in t && StartsAlike(k, p, Same) ==> k in there && k in live;
    }
    if !DropsExpired(t, DeletePrefix(p), now) {
      assert live == there;
    }
  }

  /** Pruning is not observable, except that `delete_prefix` also counts the expired entries that happen to
      be still there. */
  lemma StepPrunes(t: Table, plain: Table, op: Operation, before: real, now: real)
    requires Prunes(t, plain, before) && before <= now
    ensures Prunes(Step(t, op, now, Same).0, PlainStep(plain, op, now).0, now)
    ensures Step(t, op, now, Same).1 == PlainStep(plain, op, now).1 <==> !DropsExpired(t, op, now)
  {
    PrunedSame(t, plain, before, now);
    hide StartsAlike;
    match op
    case DeletePrefix(p) =>
      HitsLive(t, p, now);
    case _ =>
  }

  ghost predicate ClockRuns(calls: seq<Call>) {
    forall i, j :: 0 <= i <= j < |calls| ==> calls[i].1 <= calls[j].1
  }

  ghost predicate NeverDropsExpired(t: Table, calls: seq<Call>) {
    forall i :: 0 <= i < |calls| ==> !DropsExpired(Run(t, calls[..i], Same).0, calls[i].0, calls[i].1)
  }

  /** Hence the backend refines the plain table over any run: the answers are the same exactly when no
      `delete_prefix` meets an expired entry. */
  lemma {:induction false} RunPrunes(t: Table, calls: seq<Call>)
    requires ClockRuns(calls)
    ensures calls != [] ==> Prunes(Run(t, calls, Same).0, PlainRun(t, calls).0, calls[|calls| - 1].1)
    ensures Run(t, calls, Same).1 == PlainRun(t, calls).1 <==> NeverDropsExpired(t, calls)
    decreases |calls|
  {
    hide Step;
    hide PlainStep;
    hide DropsExpired;
    if calls != [] {
      var front, last := calls[..|calls| - 1], calls[|calls| - 1];
      RunPrunes(t, front);
      var mine, plain := Run(t, front, Same), PlainRun(t, front);
      var before := if front == [] then last.1 else front[|front| - 1].1;
      StepPrunes(mine.0, plain.0, last.0, before, last.1);
      NeverSplit(t, calls);
      hide NeverDropsExpired;
      assert Run(t, calls, Same).1[..|front|] == mine.1;
      assert PlainRun(t, calls).1[..|front|] == plain.1;
    }
  }

  lemma NeverSplit(t: Table, calls: seq<Call>)
    requires calls != []
    ensures var front, last := calls[..|calls| - 1], calls[|calls| - 1];
      NeverDropsExpired(t, calls) <==>
      NeverDropsExpired(t, front) && !DropsExpired(Run(t, front, Same).0, last.0, last.1)
  {
    hide DropsExpired;
    hide Run;
    var front := calls[..|calls| - 1];
    assert forall i :: 0 <= i < |front| ==> front[..i] == calls[..i] && front[i] == calls[i];
  }

  /** `delete_prefix` meeting an entry that expired and was never looked at: it counts it, and it would not have
      if a `get` had pruned it before. */
  lemma DeletePrefixCountsExpired(value: Value)
    ensures var t: Table := map["a" := StoredValue(value, Some(1.0))];
      && Step(t, DeletePrefix("a"), 2.0, Same).1 == Count(1)
      && PlainStep(t, DeletePrefix("a"), 2.0).1 == Count(0)
      && Step(Step(t, Get("a"), 2.0, Same).0, DeletePrefix("a"), 2.0, Same).1 == Count(0)
  {
    var t: Table := map["a" := StoredValue(value, Some(1.0))];
    assert Hits(t, "a", Same) == {"a"};
    assert Hits(Unexpired(t, 2.0), "a", Same) == {};
    assert Hits(t - {"a"}, "a", Same) == {};
  }
}
