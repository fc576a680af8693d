/** The in-memory LLM cache: an LRU order kept beside a namespaced store with a time to live. */
module LruCache {
  import opened Options
  import opened Json
  import opened StateBackend
  import opened StateStores

  const NAMESPACE := "llm_cache"

  function Full(key: string): string {
    NAMESPACE + ":" + key
  }

  /** The ordered dictionary's keys, oldest first, and the backend's table. */
  datatype Cache = Cache(order: seq<string>, table: Table)

  datatype CacheCall = Lookup(key: string) | Store(key: string, value: string, ttl: int)

  datatype CacheAnswer = Found(value: Option<string>) | Stored | RaisedKeyError | RaisedTypeError

  function Drop(order: seq<string>, key: string): seq<string> {
    if order == [] then []
    else if order[0] == key then Drop(order[1..], key)
    else [order[0]] + Drop(order[1..], key)
  }

  function Touch(order: seq<string>, key: string): seq<string> {
    Drop(order, key) + [key]
  }

  function CacheStep(c: Cache, maxSize: int, call: CacheCall, now: real): (Cache, CacheAnswer) {
    match call
    case Lookup(k) =>
      var (table, answer) := Step(c.table, Get(Full(k)), now, Same);
      if answer.entry.None? || answer.entry.value.value.Null? then (Cache(Drop(c.order, k), table), Found(None))
      else if !answer.entry.value.value.String? then (Cache(c.order, table), RaisedTypeError)
      else (Cache(Touch(c.order, k), table), Found(Some(answer.entry.value.value.s)))
    case Store(k, v, ttl) =>
      if k !in c.order && |c.order| >= maxSize && c.order == [] then (c, RaisedKeyError)
      else
        var kept := if k !in c.order && |c.order| >= maxSize
                    then Cache(c.order[1..], c.table - {Full(c.order[0])}) else c;
        (Cache(Touch(kept.order, k), kept.table[Full(k) := Item(v, ttl, now)]), Stored)
  }

  function Item(value: string, ttl: int, now: real): StoredValue {
    StoredValue(String(value), Some(now + ttl as real))
  }

  class InMemoryLLMCache {
    const maxSize: int
    const backend: MemoryBackend
    const store: TTLKeyValueStore
    var order: seq<string>

    ghost predicate Valid() {
      store.backend == backend && store.namespace == NAMESPACE
    }

    function View(): Cache
      reads this, backend
    {
      Cache(order, backend.values)
    }

    constructor (maxSize: int)
      ensures Valid() && this.maxSize == maxSize && View() == Cache([], map[]) && fresh(backend)
    {
      this.maxSize := maxSize;
      var memory := new MemoryBackend();
      backend := memory;
      store := new TTLKeyValueStore(memory, NAMESPACE, Some(86400));
      order := [];
    }

    method Get(key: string, now: real) returns (answer: CacheAnswer)
      requires Valid()
      modifies this, backend
      ensures (View(), answer) == CacheStep(old(View()), maxSize, Lookup(key), now)
    {
      var value := store.Get(key, now);
      if value.Null? {
        order := Pop(order, key);
        return Found(None);
      }
      if !value.String? {
        return RaisedTypeError;
      }
      order := Pop(order, key);
      order := order + [key];
      return Found(Some(value.s));
    }

    method Set(key: string, value: string, ttl: int, now: real) returns (answer: CacheAnswer)
      requires Valid()
      modifies this, backend
      ensures (View(), answer) == CacheStep(old(View()), maxSize, Store(key, value, ttl), now)
    {
      if key !in order && |order| >= maxSize {
        if order == [] {
          return RaisedKeyError;
        }
        var oldest := order[0];
        order := order[1..];
        store.Delete(oldest);
      }
      store.Set(key, String(value), Some(ttl), now);
      order := Pop(order, key);
      order := order + [key];
      return Stored;
    }

    static method Pop(order: seq<string>, key: string) returns (rest: seq<string>)
      ensures rest == Drop(order, key)
    {
      rest := [];
      for i := 0 to |order|
        invariant rest + Drop(order[i..], key) == Drop(order, key)
      {
        assert order[i..][1..] == order[i + 1..];
        if order[i] != key {
          rest := rest + [order[i]];
        }
      }
    }
  }

  // ---- order and store agree --------------------------------------------------------------------

  predicate Distinct(order: seq<string>) {
    forall i, j :: 0 <= i < j < |order| ==> order[i] != order[j]
  }

  predicate HasKey(full: string, order: seq<string>) {
    NAMESPACE + ":" <= full && full[|NAMESPACE| + 1..] in order
  }

  /** The order lists exactly the keys physically in the store, each once, and at most `maxSize` of them. */
  ghost predicate Inv(c: Cache, maxSize: int) {
    && Distinct(c.order) && |c.order| <= maxSize
    && (forall k :: k in c.order ==> Full(k) in c.table)
    && (forall f :: f in c.table ==> HasKey(f, c.order) && c.table[f].value.String?)
  }

  lemma FullOf(key: string)
    ensures NAMESPACE + ":" <= Full(key) && Full(key)[|NAMESPACE| + 1..] == key
  {
  }

  lemma {:induction false} DropKeeps(order: seq<string>, key: string)
    ensures forall k :: k in Drop(order, key) <==> k in order && k != key
    ensures |Drop(order, key)| <= |order|
    ensures key !in order ==> Drop(order, key) == order
    ensures key in order ==> |Drop(order, key)| < |order|
    ensures Distinct(order) ==> Distinct(Drop(order, key))
  {
    if order != [] {
      var rest := Drop(order[1..], key);
      DropKeeps(order[1..], key);
      assert order == [order[0]] + order[1..];
      if Distinct(order) {
        assert order[0] !in order[1..] && order[0] !in rest;
        assert forall j :: 0 < j < |[order[0]] + rest| ==> ([order[0]] + rest)[j] == rest[j - 1];
      }
    }
  }

  lemma TouchKeeps(order: seq<string>, key: string)
    requires Distinct(order)
    ensures Distinct(Touch(order, key)) && (forall k :: k in Touch(order, key) <==> k in order || k == key)
    ensures |Touch(order, key)| <= |order| + if key in order then 0 else 1
  {
    DropKeeps(order, key);
  }

  lemma FullsDiffer(a: string, b: string)
    requires a != b
    ensures Full(a) != Full(b)
  {
    FullOf(a);
    FullOf(b);
  }

  lemma HasKeyStays(f: string, order: seq<string>, rest: seq<string>, key: string)
    requires HasKey(f, order) && f != Full(key)
    requires forall k :: k in rest <==> k in order && k != key
    ensures HasKey(f, rest)
  {
    assert f == Full(f[|NAMESPACE| + 1..]);
  }

  lemma DropKeepsInv(c: Cache, maxSize: int, key: string)
    requires Inv(c, maxSize)
    ensures Inv(Cache(Drop(c.order, key), c.table - {Full(key)}), maxSize)
  {
    hide Drop;
    hide Distinct;
    hide Full;
    hide HasKey;
    DropKeeps(c.order, key);
    var rest := Drop(c.order, key);
    forall k | k in rest
      ensures Full(k) in c.table - {Full(key)}
    {
      FullsDiffer(k, key);
    }
    forall f | f in c.table && f != Full(key)
      ensures HasKey(f, rest)
    {
      HasKeyStays(f, c.order, rest, key);
    }
  }

  lemma PutKeepsInv(c: Cache, maxSize: int, key: string, item: StoredValue)
    requires Inv(c, maxSize) && item.value.String?
    requires key in c.order || |c.order| < maxSize
    ensures Inv(Cache(Touch(c.order, key), c.table[Full(key) := item]), maxSize)
  {
    TouchKeeps(c.order, key);
    hide Touch;
    hide Distinct;
    FullOf(key);
    var order, table := Touch(c.order, key), c.table[Full(key) := item];
    forall f | f in table
      ensures HasKey(f, order)
    {
      if f != Full(key) {
        assert HasKey(f, c.order);
      }
    }
  }

  lemma DropFirst(order: seq<string>)
    requires Distinct(order) && order != []
    ensures Drop(order, order[0]) == order[1..]
  {
    DropKeeps(order[1..], order[0]);
  }

  lemma InTable(c: Cache, maxSize: int, key: string)
    requires Inv(c, maxSize)
    ensures Full(key) in c.table <==> key in c.order
    ensures key in c.order ==> c.table[Full(key)].value.String?
  {
    FullOf(key);
    if Full(key) in c.table {
      assert HasKey(Full(key), c.order);
    }
  }

  /** With room for at least one key nothing ever raises, and order and store stay in step. */
  lemma StepKeepsInv(c: Cache, maxSize: int, call: CacheCall, now: real)
    requires maxSize >= 1 && Inv(c, maxSize)
    ensures Inv(CacheStep(c, maxSize, call, now).0, maxSize)
    ensures CacheStep(c, maxSize, call, now).1.Found? <==> call.Lookup?
    ensures CacheStep(c, maxSize, call, now).1.Stored? <==> call.Store?
  {
    var k := call.key;
    InTable(c, maxSize, k);
    match call
    case Lookup(_) =>
      DropKeepsInv(c, maxSize, k);
      if Live(c.table, Full(k), now) {
        PutKeepsInv(c, maxSize, k, c.table[Full(k)]);
        assert c.table[Full(k) := c.table[Full(k)]] == c.table;
      }
      assert k !in c.order ==> c.table - {Full(k)} == c.table;
      hide Inv;
    case Store(_, v, ttl) =>
      if k !in c.order && |c.order| >= maxSize {
        DropKeepsInv(c, maxSize, c.order[0]);
        DropFirst(c.order);
        PutKeepsInv(Cache(c.order[1..], c.table - {Full(c.order[0])}), maxSize, k, Item(v, ttl, now));
      } else {
        PutKeepsInv(c, maxSize, k, Item(v, ttl, now));
      }
      hide Inv;
  }

  /** Without room every `set` raises on the empty order, and nothing is ever stored. */
  lemma NoRoomRaises(maxSize: int, call: CacheCall, now: real)
    ensures var (after, answer) := CacheStep(Cache([], map[]), maxSize, call, now);
      && (call.Store? ==> (answer.RaisedKeyError? <==> maxSize <= 0))
      && (maxSize <= 0 || call.Lookup? ==> after == Cache([], map[]))
  {
  }

  // ---- whole runs -------------------------------------------------------------------------------

  type TimedCall = (CacheCall, real)

  /** The cache after some calls, their answers, and the key each of them used: stored, or found. */
  datatype History = History(cache: Cache, answers: seq<CacheAnswer>, uses: seq<Option<string>>)

  function Used(call: CacheCall, answer: CacheAnswer): Option<string> {
    if answer.Stored? || (answer.Found? && answer.value.Some?) then Some(call.key) else None
  }

  function Extend(h: History, maxSize: int, call: TimedCall): History {
    var (cache, answer) := CacheStep(h.cache, maxSize, call.0, call.1);
    History(cache, h.answers + [answer], h.uses + [Used(call.0, answer)])
  }

  function CacheRun(maxSize: int, calls: seq<TimedCall>): (h: History)
    ensures |h.answers| == |h.uses| == |calls|
  {
    if calls == [] then History(Cache([], map[]), [], [])
    else Extend(CacheRun(maxSize, calls[..|calls| - 1]), maxSize, calls[|calls| - 1])
  }

  /** The index of the last call that used the key, or -1. */
  function LastUse(uses: seq<Option<string>>, key: string): (i: int)
    ensures -1 <= i < |uses|
    ensures i >= 0 ==> uses[i] == Some(key)
    ensures forall j :: i < j < |uses| ==> uses[j] != Some(key)
  {
    if uses == [] then -1
    else if uses[|uses| - 1] == Some(key) then |uses| - 1
    else LastUse(uses[..|uses| - 1], key)
  }

  /** Least recently used first. */
  ghost predicate ByUse(order: seq<string>, uses: seq<Option<string>>) {
    && (forall i :: 0 <= i < |order| ==> 0 <= LastUse(uses, order[i]))
    && (forall i, j :: 0 <= i < j < |order| ==> LastUse(uses, order[i]) < LastUse(uses, order[j]))
  }

  lemma LastUseSnoc(uses: seq<Option<string>>, used: Option<string>, key: string)
    ensures LastUse(uses + [used], key) == if used == Some(key) then |uses| else LastUse(uses, key)
  {
    assert (uses + [used])[..|uses|] == uses;
  }

  lemma FirstIsOldest(order: seq<string>, uses: seq<Option<string>>)
    requires ByUse(order, uses) && order != []
    ensures ByUse(order[1..], uses) && 0 <= LastUse(uses, order[0])
    ensures forall k :: k in order[1..] ==> LastUse(uses, order[0]) < LastUse(uses, k)
  {
    hide LastUse;
    var rest := order[1..];
    assert forall i :: 0 <= i < |rest| ==> rest[i] == order[i + 1];
  }

  lemma PutFirst(key: string, rest: seq<string>, uses: seq<Option<string>>)
    requires ByUse(rest, uses) && 0 <= LastUse(uses, key)
    requires forall k :: k in rest ==> LastUse(uses, key) < LastUse(uses, k)
    ensures ByUse([key] + rest, uses)
  {
    hide LastUse;
    var order := [key] + rest;
    assert forall i :: 0 < i < |order| ==> order[i] == rest[i - 1] && order[i] in rest;
  }

  lemma {:induction false} DropByUse(order: seq<string>, key: string, uses: seq<Option<string>>)
    requires ByUse(order, uses)
    ensures ByUse(Drop(order, key), uses)
  {
    hide ByUse;
    hide LastUse;
    if order == [] {
      assert Drop(order, key) == order;
    } else {
      FirstIsOldest(order, uses);
      DropByUse(order[1..], key, uses);
      DropKeeps(order[1..], key);
      if order[0] != key {
        PutFirst(order[0], Drop(order[1..], key), uses);
      }
    }
  }

  lemma ByUseSnoc(order: seq<string>, key: string, uses: seq<Option<string>>)
    requires ByUse(order, uses) && key !in order
    ensures ByUse(order + [key], uses + [Some(key)])
  {
    forall k
      ensures LastUse(uses + [Some(key)], k) == if k == key then |uses| else LastUse(uses, k)
    {
      LastUseSnoc(uses, Some(key), k);
    }
    hide LastUse;
  }

  lemma ByUseIdle(order: seq<string>, uses: seq<Option<string>>)
    requires ByUse(order, uses)
    ensures ByUse(order, uses + [None])
  {
    forall k
      ensures LastUse(uses + [None], k) == LastUse(uses, k)
    {
      LastUseSnoc(uses, None, k);
    }
    hide LastUse;
  }

  lemma ExtendByUse(h: History, maxSize: int, call: TimedCall)
    requires maxSize >= 1 && Inv(h.cache, maxSize) && ByUse(h.cache.order, h.uses)
    ensures ByUse(Extend(h, maxSize, call).cache.order, Extend(h, maxSize, call).uses)
  {
    var c, k := h.cache, call.0.key;
    StepKeepsInv(c, maxSize, call.0, call.1);
    InTable(c, maxSize, k);
    hide Inv;
    hide Step;
    hide Full;
    DropKeeps(c.order, k);
    DropByUse(c.order, k, h.uses);
    hide Drop;
    ByUseIdle(Drop(c.order, k), h.uses);
    ByUseSnoc(Drop(c.order, k), k, h.uses);
    if call.0.Store? && k !in c.order && |c.order| >= maxSize {
      var rest := c.order[1..];
      FirstIsOldest(c.order, h.uses);
      DropKeeps(rest, k);
      ByUseSnoc(rest, k, h.uses);
    }
    hide ByUse;
  }

  /** After any calls with room for at least one key: the order's keys are exactly those in the store, at
      most `maxSize` of them, least recently used first. */
  lemma {:induction false} OrderedByUse(maxSize: int, calls: seq<TimedCall>)
    requires maxSize >= 1
    ensures var h := CacheRun(maxSize, calls);
      Inv(h.cache, maxSize) && ByUse(h.cache.order, h.uses)
    decreases |calls|
  {
    if calls != [] {
      var front, last := calls[..|calls| - 1], calls[|calls| - 1];
      OrderedByUse(maxSize, front);
      var h := CacheRun(maxSize, front);
      StepKeepsInv(h.cache, maxSize, last.0, last.1);
      ExtendByUse(h, maxSize, last);
    }
  }

  /** A new key in a full cache evicts the one key used longest ago, and nothing else. */
  lemma EvictsLeastRecentlyUsed(maxSize: int, calls: seq<TimedCall>, key: string, value: string, ttl: int, now: real)
    requires maxSize >= 1
    requires key !in CacheRun(maxSize, calls).cache.order && |CacheRun(maxSize, calls).cache.order| >= maxSize
    ensures var h := CacheRun(maxSize, calls);
      var after := CacheStep(h.cache, maxSize, Store(key, value, ttl), now).0;
      exists victim :: victim in h.cache.order
        && (forall k :: k in h.cache.order && k != victim ==> LastUse(h.uses, victim) < LastUse(h.uses, k))
        && (forall k :: k in after.order <==> k == key || (k in h.cache.order && k != victim))
        && Full(victim) !in after.table
  {
    OrderedByUse(maxSize, calls);
    var h := CacheRun(maxSize, calls);
    Evicts(h.cache, maxSize, key, value, ttl, now);
    FirstIsOldest(h.cache.order, h.uses);
  }

  lemma Evicts(c: Cache, maxSize: int, key: string, value: string, ttl: int, now: real)
    requires maxSize >= 1 && Inv(c, maxSize) && key !in c.order && |c.order| >= maxSize
    ensures var after := CacheStep(c, maxSize, Store(key, value, ttl), now).0;
      && (forall k :: k in c.order[1..] <==> k in c.order && k != c.order[0])
      && (forall k :: k in after.order <==> k == key || k in c.order[1..])
      && Full(c.order[0]) !in after.table
  {
    DropKeeps(c.order[1..], key);
    FullsDiffer(c.order[0], key);
    hide Full;
  }

  // ---- what a hit returns -----------------------------------------------------------------------

  /** The entry of the last call that set the key. */
  function LastSet(calls: seq<TimedCall>, key: string): Option<StoredValue> {
    if calls == [] then None
    else
      var last := calls[|calls| - 1];
      if last.0.Store? && last.0.key == key then Some(Item(last.0.value, last.0.ttl, last.1))
      else LastSet(calls[..|calls| - 1], key)
  }

  ghost predicate ShowsLastSet(c: Cache, calls: seq<TimedCall>) {
    forall k :: k in c.order ==> Full(k) in c.table && LastSet(calls, k) == Some(c.table[Full(k)])
  }

  /** One call changes the entry of no other key, and drops one other key at most, the oldest. */
  lemma OthersInTable(c: Cache, maxSize: int, call: CacheCall, now: real, other: string)
    requires other != call.key
    ensures var after := CacheStep(c, maxSize, call, now).0;
      Full(other) in after.table ==> Full(other) in c.table && after.table[Full(other)] == c.table[Full(other)]
  {
    FullsDiffer(other, call.key);
    hide Drop;
    hide Full;
    hide Item;
  }

  lemma OthersInOrder(c: Cache, maxSize: int, call: CacheCall, now: real, other: string)
    requires other != call.key
    ensures other in CacheStep(c, maxSize, call, now).0.order ==> other in c.order
    ensures other in c.order && (c.order[0] != other || call.Lookup? || call.key in c.order || |c.order| < maxSize) ==>
      other in CacheStep(c, maxSize, call, now).0.order
  {
    DropKeeps(c.order, call.key);
    if c.order != [] {
      DropKeeps(c.order[1..], call.key);
    }
    hide Drop;
    hide Full;
    hide Item;
    hide Step;
  }

  lemma OthersKept(c: Cache, maxSize: int, call: CacheCall, now: real, other: string)
    requires maxSize >= 1 && Inv(c, maxSize) && other != call.key
    ensures var after := CacheStep(c, maxSize, call, now).0;
      other in after.order ==>
        (other in c.order && Full(other) in after.table && Full(other) in c.table
         && after.table[Full(other)] == c.table[Full(other)])
  {
    StepKeepsInv(c, maxSize, call, now);
    InTable(CacheStep(c, maxSize, call, now).0, maxSize, other);
    OthersInTable(c, maxSize, call, now, other);
    OthersInOrder(c, maxSize, call, now, other);
    hide *;
  }

  /** And its own key with the entry it stored or found. */
  lemma OwnKept(c: Cache, maxSize: int, call: CacheCall, now: real)
    requires maxSize >= 1 && Inv(c, maxSize)
    requires call.key in CacheStep(c, maxSize, call, now).0.order
    ensures var after := CacheStep(c, maxSize, call, now).0;
      && Full(call.key) in after.table
      && (call.Store? ==> after.table[Full(call.key)] == Item(call.value, call.ttl, now))
      && (call.Lookup? ==> call.key in c.order && Full(call.key) in c.table)
      && (call.Lookup? ==> after.table[Full(call.key)] == c.table[Full(call.key)])
  {
    InTable(c, maxSize, call.key);
    DropKeeps(c.order, call.key);
    hide Inv;
    hide Full;
  }

  lemma {:induction false} TableShowsLastSet(maxSize: int, calls: seq<TimedCall>)
    requires maxSize >= 1
    ensures ShowsLastSet(CacheRun(maxSize, calls).cache, calls)
    decreases |calls|
  {
    hide CacheStep;
    hide Inv;
    hide ByUse;
    hide Full;
    if calls != [] {
      var front, last := calls[..|calls| - 1], calls[|calls| - 1];
      TableShowsLastSet(maxSize, front);
      OrderedByUse(maxSize, front);
      var c := CacheRun(maxSize, front).cache;
      var after := CacheStep(c, maxSize, last.0, last.1).0;
      assert CacheRun(maxSize, calls).cache == after;
      if last.0.key in after.order {
        OwnKept(c, maxSize, last.0, last.1);
      }
      hide CacheRun;
      forall k | k in after.order
        ensures Full(k) in after.table && LastSet(calls, k) == Some(after.table[Full(k)])
      {
        if k != last.0.key {
          OthersKept(c, maxSize, last.0, last.1, k);
        }
      }
    }
  }

  /** Call `i` set the key, and no later call set it again. */
  ghost predicate SetLast(calls: seq<TimedCall>, i: nat, key: string)
    requires i < |calls|
  {
    && calls[i].0.Store? && calls[i].0.key == key
    && forall m :: i < m < |calls| && calls[m].0.Store? ==> calls[m].0.key != key
  }

  ghost function EntryOf(call: TimedCall): StoredValue
    requires call.0.Store?
  {
    StoredValue(String(call.0.value), Some(call.1 + call.0.ttl as real))
  }

  lemma {:induction false} LastSetIs(calls: seq<TimedCall>, key: string)
    requires LastSet(calls, key).Some?
    ensures exists i :: 0 <= i < |calls| && SetLast(calls, i, key) && LastSet(calls, key).value == EntryOf(calls[i])
    decreases |calls|
  {
    var front, last := calls[..|calls| - 1], calls[|calls| - 1];
    if last.0.Store? && last.0.key == key {
      assert SetLast(calls, |front|, key);
    } else {
      LastSetIs(front, key);
      var i :| 0 <= i < |front| && SetLast(front, i, key) && LastSet(front, key).value == EntryOf(front[i]);
      assert SetLast(calls, i, key);
    }
  }

  /** Every hit returns the value last set for the key, before the time to live of that call is over. */
  lemma HitReturnsLastSet(maxSize: int, calls: seq<TimedCall>, key: string, now: real)
    requires maxSize >= 1
    ensures var answer := CacheStep(CacheRun(maxSize, calls).cache, maxSize, Lookup(key), now).1;
      answer.Found? && (answer.value.Some? ==>
        exists i :: 0 <= i < |calls| && SetLast(calls, i, key) && calls[i].0.value == answer.value.value
          && now < calls[i].1 + calls[i].0.ttl as real)
  {
    TableShowsLastSet(maxSize, calls);
    OrderedByUse(maxSize, calls);
    var c := CacheRun(maxSize, calls).cache;
    InTable(c, maxSize, key);
    StepKeepsInv(c, maxSize, Lookup(key), now);
    hide CacheRun;
    hide LastSet;
    hide Inv;
    hide SetLast;
    if key in c.order {
      LastSetIs(calls, key);
    }
  }

  // ---- when a hit is certain --------------------------------------------------------------------

  function Members(order: seq<string>): set<string> {
    set k | k in order
  }

  /** The keys used more recently. */
  function After(order: seq<string>, key: string): set<string> {
    if order == [] then {}
    else if order[0] == key then Members(order[1..])
    else After(order[1..], key)
  }

  lemma {:induction false} AfterDrop(order: seq<string>, other: string, key: string)
    requires other != key
    ensures After(Drop(order, other), key) <= After(order, key)
  {
    if order != [] {
      AfterDrop(order[1..], other, key);
      DropKeeps(order[1..], other);
      assert ([order[0]] + Drop(order[1..], other))[1..] == Drop(order[1..], other);
    }
  }

  lemma {:induction false} AfterSnoc(order: seq<string>, last: string, key: string)
    requires key in order
    ensures After(order + [last], key) == After(order, key) + {last}
  {
    assert (order + [last])[1..] == order[1..] + [last];
    if order[0] != key {
      AfterSnoc(order[1..], last, key);
    } else {
      assert forall k :: k in order[1..] + [last] <==> k in order[1..] || k == last;
    }
  }

  lemma {:induction false} AfterLast(order: seq<string>, key: string)
    requires key !in order
    ensures After(order + [key], key) == {}
  {
    assert (order + [key])[1..] == if order == [] then [] else order[1..] + [key];
    if order != [] {
      AfterLast(order[1..], key);
    }
  }

  lemma {:induction false} MembersSize(order: seq<string>)
    requires Distinct(order)
    ensures |Members(order)| == |order|
  {
    if order != [] {
      MembersSize(order[1..]);
      assert Members(order) == {order[0]} + Members(order[1..]);
    }
  }

  /** Touching another key puts at most that key after this one; touching this key puts it last. */
  lemma AfterTouch(order: seq<string>, touched: string, key: string)
    requires key in order || key == touched
    ensures key in Touch(order, touched)
    ensures After(Touch(order, touched), key) <=
      if touched == key then {} else After(order, key) + {touched}
  {
    DropKeeps(order, touched);
    if touched == key {
      AfterLast(Drop(order, key), key);
    } else {
      AfterDrop(order, touched, key);
      AfterSnoc(Drop(order, touched), touched, key);
    }
  }

  /** The keys that calls `i + 1` up to `j` used. */
  function UsedSince(uses: seq<Option<string>>, i: nat, j: nat): set<string>
    requires j <= |uses|
  {
    set m | i < m < j && uses[m].Some? :: uses[m].value
  }

  ghost predicate Sheltered(c: Cache, key: string, item: StoredValue, since: set<string>) {
    && key in c.order && Full(key) in c.table && c.table[Full(key)] == item
    && After(c.order, key) <= since + {key}
  }

  /** While fewer than `maxSize` other keys are used, one call cannot evict the key. */
  lemma StaysSheltered(c: Cache, maxSize: int, call: CacheCall, now: real, key: string, item: StoredValue,
                       since: set<string>)
    requires maxSize >= 1 && Inv(c, maxSize) && Sheltered(c, key, item, since) && !Expired(item, now)
    requires call.Store? ==> call.key != key
    requires var (_, answer) := CacheStep(c, maxSize, call, now);
      |since + (if Used(call, answer).Some? then {call.key} else {}) - {key}| < maxSize
    ensures var (after, answer) := CacheStep(c, maxSize, call, now);
      Sheltered(after, key, item, since + if Used(call, answer).Some? then {call.key} else {})
  {
    InTable(c, maxSize, key);
    InTable(c, maxSize, call.key);
    match call
    case Lookup(x) =>
      if x == key {
        AfterTouch(c.order, key, key);
      } else {
        OthersKept(c, maxSize, call, now, key);
        OthersInOrder(c, maxSize, call, now, key);
        AfterTouch(c.order, x, key);
        AfterDrop(c.order, x, key);
        hide Inv;
        hide Full;
      }
    case Store(x, _, _) =>
      NotEvicted(c, maxSize, x, key, since);
      OthersKept(c, maxSize, call, now, key);
      OthersInOrder(c, maxSize, call, now, key);
      AfterTouch(c.order, x, key);
      if x !in c.order && |c.order| >= maxSize {
        AfterTouch(c.order[1..], x, key);
      }
      hide Inv;
      hide Full;
  }

  lemma NotEvicted(c: Cache, maxSize: int, stored: string, key: string, since: set<string>)
    requires maxSize >= 1 && Inv(c, maxSize) && key in c.order && stored != key
    requires After(c.order, key) <= since + {key} && |since + {stored} - {key}| < maxSize
    ensures stored !in c.order && |c.order| >= maxSize ==>
      c.order[0] != key && key in c.order[1..] && After(c.order[1..], key) == After(c.order, key)
  {
    if stored !in c.order && |c.order| >= maxSize && c.order[0] == key {
      var rest := c.order[1..];
      MembersSize(rest);
      assert key !in rest && stored !in rest;
      assert Members(rest) <= since + {key};
      hide *;
      TooMany(Members(rest), since, stored, key, maxSize);
    }
  }

  lemma TooMany(rest: set<string>, since: set<string>, stored: string, key: string, maxSize: int)
    requires rest <= since + {key} && stored !in rest && stored != key
    requires |since + {stored} - {key}| < maxSize
    ensures key !in rest ==> |rest| + 1 < maxSize
  {
    if key !in rest {
      assert |rest + {stored}| == |rest| + 1;
      NoLarger(rest + {stored}, since + {stored} - {key});
    }
  }

  lemma NoLarger(small: set<string>, big: set<string>)
    requires small <= big
    ensures |small| <= |big|
  {
    assert big == small + (big - small);
  }

  /** Call `i` set a key, no later one set it again, and the clock has not reached its expiry. */
  ghost predicate StillFresh(calls: seq<TimedCall>, i: nat, now: real)
    requires i < |calls|
  {
    && calls[i].0.Store? && now < calls[i].1 + calls[i].0.ttl as real
    && (forall m :: i < m < |calls| && calls[m].0.Store? ==> calls[m].0.key != calls[i].0.key)
    && (forall m :: i < m < |calls| ==> calls[m].1 <= now)
  }

  /** The hit guarantee: if besides fewer than `maxSize` other keys were used since, the next `get` returns
      the value that was set. */
  lemma HitIsCertain(maxSize: int, calls: seq<TimedCall>, i: nat, now: real)
    requires maxSize >= 1 && i < |calls| && StillFresh(calls, i, now)
    requires |UsedSince(CacheRun(maxSize, calls).uses, i, |calls|) - {calls[i].0.key}| < maxSize
    ensures CacheStep(CacheRun(maxSize, calls).cache, maxSize, Lookup(calls[i].0.key), now).1
      == Found(Some(calls[i].0.value))
  {
    var key := calls[i].0.key;
    var item := Item(calls[i].0.value, calls[i].0.ttl, calls[i].1);
    StaysInside(maxSize, calls, i, now);
    var c := CacheRun(maxSize, calls).cache;
    hide CacheRun;
    assert Live(c.table, Full(key), now);
  }

  lemma {:induction false} StaysInside(maxSize: int, calls: seq<TimedCall>, i: nat, now: real)
    requires maxSize >= 1 && i < |calls| && StillFresh(calls, i, now)
    requires |UsedSince(CacheRun(maxSize, calls).uses, i, |calls|) - {calls[i].0.key}| < maxSize
    ensures var h := CacheRun(maxSize, calls);
      Sheltered(h.cache, calls[i].0.key, Item(calls[i].0.value, calls[i].0.ttl, calls[i].1),
                UsedSince(h.uses, i, |calls|))
    decreases |calls|
  {
    hide Sheltered;
    hide Inv;
    hide UsedSince;
    hide CacheStep;
    hide ByUse;
    hide Item;
    var front, last := calls[..|calls| - 1], calls[|calls| - 1];
    OrderedByUse(maxSize, front);
    var before, h := CacheRun(maxSize, front), CacheRun(maxSize, calls);
    assert h == Extend(before, maxSize, last);
    hide CacheRun;
    if i == |front| {
      JustStored(before.cache, maxSize, last.0.key, last.0.value, last.0.ttl, last.1, UsedSince(h.uses, i, |calls|));
    } else {
      assert StillFresh(front, i, now);
      ShelterStep(before, maxSize, last, calls[i], i, now);
      StaysInside(maxSize, front, i, now);
    }
  }

  /** One more call of a run that uses too few other keys. */
  lemma ShelterStep(h: History, maxSize: int, call: TimedCall, stored: TimedCall, i: nat, now: real)
    requires maxSize >= 1 && Inv(h.cache, maxSize) && i < |h.uses| && call.1 <= now
    requires stored.0.Store? && now < stored.1 + stored.0.ttl as real
    requires call.0.Store? ==> call.0.key != stored.0.key
    requires |UsedSince(Extend(h, maxSize, call).uses, i, |h.uses| + 1) - {stored.0.key}| < maxSize
    ensures |UsedSince(h.uses, i, |h.uses|) - {stored.0.key}| < maxSize
    ensures var item, after := Item(stored.0.value, stored.0.ttl, stored.1), Extend(h, maxSize, call);
      Sheltered(h.cache, stored.0.key, item, UsedSince(h.uses, i, |h.uses|)) ==>
      Sheltered(after.cache, stored.0.key, item, UsedSince(after.uses, i, |h.uses| + 1))
  {
    hide Sheltered;
    hide Inv;
    hide UsedSince;
    hide CacheStep;
    var key, since := stored.0.key, UsedSince(h.uses, i, |h.uses|);
    var item := Item(stored.0.value, stored.0.ttl, stored.1);
    var (_, answer) := CacheStep(h.cache, maxSize, call.0, call.1);
    UsedGrows(h.uses, Used(call.0, answer), i);
    NoLarger(since - {key}, UsedSince(Extend(h, maxSize, call).uses, i, |h.uses| + 1) - {key});
    if Sheltered(h.cache, key, item, since) {
      assert !Expired(item, call.1);
      StaysSheltered(h.cache, maxSize, call.0, call.1, key, item, since);
    }
  }

  lemma UsedGrows(uses: seq<Option<string>>, used: Option<string>, i: nat)
    requires i < |uses|
    ensures UsedSince(uses + [used], i, |uses| + 1)
      == UsedSince(uses, i, |uses|) + if used.Some? then {used.value} else {}
  {
    var longer := uses + [used];
    assert forall m :: 0 <= m < |uses| ==> longer[m] == uses[m];
    forall k | k in UsedSince(uses, i, |uses|)
      ensures k in UsedSince(longer, i, |uses| + 1)
    {
      var m :| i < m < |uses| && uses[m] == Some(k);
      assert longer[m] == Some(k);
    }
    assert used.Some? ==> longer[|uses|] == used;
  }

  lemma JustStored(c: Cache, maxSize: int, key: string, value: string, ttl: int, now: real, since: set<string>)
    requires maxSize >= 1 && Inv(c, maxSize)
    ensures Sheltered(CacheStep(c, maxSize, Store(key, value, ttl), now).0, key, Item(value, ttl, now), since)
  {
    AfterTouch(c.order, key, key);
    if c.order != [] {
      AfterTouch(c.order[1..], key, key);
    }
  }
}
