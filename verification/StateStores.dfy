/** The stores built on a state backend: namespaced membership keys and namespaced values, both with an
    optional time to live. */
module StateStores {
  import opened Options
  import opened Json
  import opened Like
  import opened StateBackend

  /** Membership keys of the empty namespace have no prefix. */
  function MembershipPrefix(namespace: string): string {
    if namespace == "" then "" else namespace + ":"
  }

  function MembershipKey(namespace: string, key: string): string {
    MembershipPrefix(namespace) + key
  }

  function Ttl(default': Option<int>, ttl: Option<int>): Option<int> {
    if ttl.None? then default' else ttl
  }

  function ExpiresAt(ttl: Option<int>, reading: real): Option<real> {
    if ttl.None? then None else Some(reading + ttl.value as real)
  }

  /** The entry expires the given time after the reading, or else the default time after it, or never. */
  ghost predicate ExpiresAfter(e: StoredValue, ttl: Option<int>, default': Option<int>, reading: real) {
    && (ttl.Some? ==> e.expiresAt == Some(reading + ttl.value as real))
    && (ttl.None? && default'.Some? ==> e.expiresAt == Some(reading + default'.value as real))
    && (ttl.None? && default'.None? ==> e.expiresAt == None)
  }

  /** Nothing is stored under the key, or what is stored has expired. */
  ghost predicate Absent(t: Table, full: string, now: real) {
    full in t ==> t[full].expiresAt.Some? && t[full].expiresAt.value <= now
  }

  class MembershipKeyStore {
    const backend: MemoryBackend
    const namespace: string
    const defaultTtl: Option<int>

    constructor (backend: MemoryBackend, namespace: string, defaultTtl: Option<int>)
      ensures this.backend == backend && this.namespace == namespace && this.defaultTtl == defaultTtl
    {
      this.backend, this.namespace, this.defaultTtl := backend, namespace, defaultTtl;
    }

    method Contains(key: string, now: real) returns (held: bool)
      modifies backend
      ensures var (after, answer) := Step(old(backend.values), Get(MembershipKey(namespace, key)), now, Same);
        backend.values == after && held == answer.entry.Some?
    {
      var entry := backend.Get(MembershipKey(namespace, key), now);
      held := entry.Some?;
    }

    /** `stamped` is the reading the expiry is computed from. */
    method Add(key: string, ttl: Option<int>, stamped: real)
      modifies backend
      ensures backend.values == old(backend.values)[MembershipKey(namespace, key) :=
        StoredValue(Number(1.0), ExpiresAt(Ttl(defaultTtl, ttl), stamped))]
      ensures var full := if namespace == "" then key else namespace + ":" + key;
        && full in backend.values && ExpiresAfter(backend.values[full], ttl, defaultTtl, stamped)
        && backend.values - {full} == old(backend.values) - {full}
    {
      assert "" + key == key;
      backend.Set(MembershipKey(namespace, key), Number(1.0), ExpiresAt(Ttl(defaultTtl, ttl), stamped));
    }

    /** The expiry is stamped first and the key looked up afterwards. */
    method MarkIfNew(key: string, ttl: Option<int>, stamped: real, now: real) returns (isNew: bool)
      modifies backend
      ensures (backend.values, Flag(isNew)) ==
        Step(old(backend.values), Mark(namespace, key, Ttl(defaultTtl, ttl), stamped), now, Same)
      ensures var full := if namespace == "" then key else namespace + ":" + key;
        && (isNew <==> Absent(old(backend.values), full, now))
        && (!isNew ==> backend.values == old(backend.values))
        && (isNew ==> full in backend.values && ExpiresAfter(backend.values[full], ttl, defaultTtl, stamped))
        && backend.values - {full} == old(backend.values) - {full}
    {
      assert "" + key == key;
      var expiresAt := ExpiresAt(Ttl(defaultTtl, ttl), stamped);
      isNew := backend.SetIfAbsent(MembershipKey(namespace, key), Number(1.0), expiresAt, now);
    }

    method Delete(key: string)
      modifies backend
      ensures backend.values == old(backend.values) - {MembershipKey(namespace, key)}
    {
      backend.Delete(MembershipKey(namespace, key));
    }

    method CountKeys(now: real) returns (count: nat)
      modifies backend
      ensures (backend.values, Count(count)) ==
        Step(old(backend.values), CountPrefix(MembershipPrefix(namespace)), now, Same)
    {
      count := backend.CountPrefix(MembershipPrefix(namespace), now);
    }

    method Clear() returns (count: nat)
      modifies backend
      ensures (backend.values, Count(count)) ==
        Step(old(backend.values), DeletePrefix(MembershipPrefix(namespace)), 0.0, Same)
    {
      count := backend.DeletePrefix(MembershipPrefix(namespace));
    }
  }

  function Mark(namespace: string, key: string, ttl: Option<int>, stamped: real): Operation {
    SetIfAbsent(MembershipKey(namespace, key), Number(1.0), ExpiresAt(ttl, stamped))
  }

  class TTLKeyValueStore {
    const backend: MemoryBackend
    const namespace: string
    const defaultTtl: Option<int>

    constructor (backend: MemoryBackend, namespace: string, defaultTtl: Option<int>)
      ensures this.backend == backend && this.namespace == namespace && this.defaultTtl == defaultTtl
    {
      this.backend, this.namespace, this.defaultTtl := backend, namespace, defaultTtl;
    }

    function FullKey(key: string): string {
      namespace + ":" + key
    }

    /** A stored null reads like a missing key. */
    method Get(key: string, now: real) returns (value: Value)
      modifies backend
      ensures var (after, answer) := Step(old(backend.values), Operation.Get(FullKey(key)), now, Same);
        && backend.values == after
        && value == if answer.entry.Some? then answer.entry.value.value else Null
      ensures var full := namespace + ":" + key;
        value == if Absent(old(backend.values), full, now) || full !in old(backend.values) then Null
                 else old(backend.values)[full].value
    {
      var entry := backend.Get(FullKey(key), now);
      value := if entry.None? then Null else entry.value.value;
    }

    method Set(key: string, value: Value, ttl: Option<int>, now: real)
      modifies backend
      ensures backend.values ==
        old(backend.values)[FullKey(key) := StoredValue(value, ExpiresAt(Ttl(defaultTtl, ttl), now))]
      ensures var full := namespace + ":" + key;
        && full in backend.values && backend.values[full].value == value
        && ExpiresAfter(backend.values[full], ttl, defaultTtl, now)
        && backend.values - {full} == old(backend.values) - {full}
    {
      backend.Set(FullKey(key), value, ExpiresAt(Ttl(defaultTtl, ttl), now));
    }

    method Delete(key: string)
      modifies backend
      ensures backend.values == old(backend.values) - {FullKey(key)}
    {
      backend.Delete(FullKey(key));
    }

    method Clear() returns (count: nat)
      modifies backend
      ensures (backend.values, Count(count)) ==
        Step(old(backend.values), DeletePrefix(namespace + ":"), 0.0, Same)
    {
      count := backend.DeletePrefix(namespace + ":");
    }
  }

  // ---- namespaces -------------------------------------------------------------------------------

  /** Two namespaces share a key exactly when one's prefix starts with the other's, as "a:" does for the
      namespace "a:b". */
  lemma NamespacesShareAKey(one: string, two: string)
    ensures (exists k1, k2 :: MembershipKey(one, k1) == MembershipKey(two, k2))
      <==> MembershipPrefix(one) <= MembershipPrefix(two) || MembershipPrefix(two) <= MembershipPrefix(one)
  {
    var p, q := MembershipPrefix(one), MembershipPrefix(two);
    if k1, k2 :| MembershipKey(one, k1) == MembershipKey(two, k2) {
      var full := p + k1;
      assert full == q + k2;
      assert p == full[..|p|] && q == full[..|q|];
      if |p| <= |q| {
        assert q[..|p|] == p;
      } else {
        assert p[..|q|] == q;
      }
    }
    if p <= q {
      assert MembershipKey(one, q[|p|..]) == MembershipKey(two, "");
    } else if q <= p {
      assert MembershipKey(one, "") == MembershipKey(two, p[|q|..]);
    }
  }

  lemma ColonFreeNamespacesAreApart(one: string, k1: string, two: string, k2: string)
    requires one != "" && two != "" && ':' !in one && ':' !in two
    requires MembershipKey(one, k1) == MembershipKey(two, k2)
    ensures one == two && k1 == k2
  {
    var full := one + ":" + k1;
    assert full == two + ":" + k2;
    assert full[|one|] == ':' && full[|two|] == ':';
    assert forall i :: 0 <= i < |one| ==> full[i] == one[i] && one[i] in one;
    assert forall i :: 0 <= i < |two| ==> full[i] == two[i] && two[i] in two;
    assert |one| == |two|;
    assert one == full[..|one|] && two == full[..|two|];
    assert k1 == full[|one| + 1..] && k2 == full[|two| + 1..];
  }

  // ---- at most one success per time to live -----------------------------------------------------

  predicate Spares(op: Operation, key: string, eq: Comparison) {
    match op
    case Set(k, _, _) => k != key
    case Delete(k) => k != key
    case DeletePrefix(p) => !StartsAlike(key, p, eq)
    case _ => true
  }

  /** The entry is there, or its time is over. */
  predicate Holds(t: Table, key: string, e: StoredValue, now: real) {
    (key in t && t[key] == e) || Expired(e, now)
  }

  lemma StepHolds(t: Table, op: Operation, key: string, e: StoredValue, before: real, now: real, eq: Comparison)
    requires before <= now && Holds(t, key, e, before) && Spares(op, key, eq)
    ensures Holds(Step(t, op, now, eq).0, key, e, now)
  {
  }

  lemma {:induction false} RunHolds(t: Table, calls: seq<Call>, i: nat, j: nat, key: string,
                                    e: StoredValue, eq: Comparison)
    requires i < j <= |calls| && ClockRuns(calls)
    requires Holds(Run(t, calls[..i + 1], eq).0, key, e, calls[i].1)
    requires forall m :: i < m < j ==> Spares(calls[m].0, key, eq)
    ensures Holds(Run(t, calls[..j], eq).0, key, e, calls[j - 1].1)
    decreases j
  {
    if j > i + 1 {
      RunHolds(t, calls, i, j - 1, key, e, eq);
      assert calls[..j][..j - 1] == calls[..j - 1];
      var before := Run(t, calls[..j - 1], eq).0;
      hide Step;
      StepHolds(before, calls[j - 1].0, key, e, calls[j - 2].1, calls[j - 1].1, eq);
    }
  }

  lemma {:induction false} AnswerAt(t: Table, calls: seq<Call>, i: nat, eq: Comparison)
    requires i < |calls|
    ensures Run(t, calls, eq).1[i] == Step(Run(t, calls[..i], eq).0, calls[i].0, calls[i].1, eq).1
    decreases |calls|
  {
    hide Step;
    var front := calls[..|calls| - 1];
    if i < |front| {
      AnswerAt(t, front, i, eq);
      assert front[..i] == calls[..i];
    }
  }

  /** Between two calls that both marked a key as new, with nothing in between that sets or deletes it, the
      first one's time to live has passed; without one, only the first can succeed. It makes no difference
      which backend the store stands on. */
  lemma MarksApart(t: Table, calls: seq<Call>, i: nat, j: nat, namespace: string, key: string,
                   ttl: Option<int>, stamped: real, eq: Comparison)
    requires i < j < |calls| && ClockRuns(calls)
    requires calls[i].0 == Mark(namespace, key, ttl, stamped)
    requires calls[j].0.SetIfAbsent? && calls[j].0.key == MembershipKey(namespace, key)
    requires forall m :: i < m < j ==> Spares(calls[m].0, MembershipKey(namespace, key), eq)
    requires Run(t, calls, eq).1[i] == Flag(true) && Run(t, calls, eq).1[j] == Flag(true)
    ensures ttl.Some? && calls[j].1 - stamped >= ttl.value as real
  {
    var full, e := MembershipKey(namespace, key), StoredValue(Number(1.0), ExpiresAt(ttl, stamped));
    AnswerAt(t, calls, i, eq);
    AnswerAt(t, calls, j, eq);
    assert calls[..i + 1][..i] == calls[..i];
    assert Run(t, calls[..i + 1], eq).0 == Step(Run(t, calls[..i], eq).0, calls[i].0, calls[i].1, eq).0;
    RunHolds(t, calls, i, j, full, e, eq);
    assert calls[j - 1].1 <= calls[j].1;
    assert !Live(Run(t, calls[..j], eq).0, full, calls[j].1);
  }
}
