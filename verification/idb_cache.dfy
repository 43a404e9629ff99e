/** `IdbWithInMemoryCache`: a write-through in-memory `Map` in front of an `IdbKV`.

    A cache entry bound to `None` records that the store was asked and had no
    record (confirmed absent); a key with no entry has not been looked up. The
    cache keeps a log of the calls it makes on its store, so that "answered from
    memory" can be stated as "the log did not grow". */
module IdbWithInMemoryCache {
  import opened Wrappers
  import opened JsMaps
  import IdbKV

  /** A call the cache makes on its backing store. */
  datatype StoreCall<K, V> =
    | GetCall(key: K)
    | GetBatchCall(keys: seq<K>)
    | SetCall(key: K, value: V)

  /** The cache's state: its `Map`, the backing store, and the calls made on that store so far. */
  datatype Cache<K, V> = Cache(
    entries: map<K, Option<V>>,
    idb: IdbKV.Store<K, V>,
    calls: seq<StoreCall<K, V>>)

  /** One read's outcome: the cache after it and what the returned promise settles to. */
  datatype Answer<K, V, T> = Answer(cache: Cache<K, V>, result: Result<T, IdbKV.Error>)

  /** `new IdbWithInMemoryCache(dbName)`: an empty `Map` over the store opened under that name. */
  function New<K, V>(idb: IdbKV.Store<K, V>): (c: Cache<K, V>)
    ensures c.entries == map[] && c.calls == [] && c.idb == idb
  {
    Cache(map[], idb, [])
  }

  /** `set(key, value)`: the entry is written at once; the store write is issued
      without waiting for it, and nothing about it is reported back. */
  function Set<K(!new), V>(c: Cache<K, V>, key: K, value: V): (c': Cache<K, V>)
    ensures key in c'.entries && c'.entries[key] == Some(value)
    ensures forall k :: k != key ==> (k in c'.entries <==> k in c.entries)
    ensures forall k :: k != key && k in c.entries ==> c'.entries[k] == c.entries[k]
    ensures c'.calls == c.calls + [SetCall(key, value)]
    ensures c'.idb.conn == c.idb.conn && c'.idb.reading == c.idb.reading
    ensures c.idb.conn.Live? ==> IdbKV.Lookup(c'.idb.records, key) == Some(value)
    ensures !c.idb.conn.Live? ==> c'.idb == c.idb
    ensures forall k :: k != key ==> IdbKV.Lookup(c'.idb.records, k) == IdbKV.Lookup(c.idb.records, k)
  {
    Cache(
      c.entries[key := Some(value)],
      IdbKV.Set(c.idb, key, value, IdbKV.Answers).store,
      c.calls + [SetCall(key, value)])
  }

  /** `get(key)`: an entry, value or confirmed absence, is answered from memory;
      otherwise the store is asked once and its answer becomes the entry. */
  function Get<K(!new), V>(c: Cache<K, V>, key: K, engine: IdbKV.Engine): (a: Answer<K, V, Option<V>>)
    ensures key in c.entries ==> a == Answer(c, Ok(c.entries[key]))
    ensures key !in c.entries ==> a.cache.calls == c.calls + [GetCall(key)]
    ensures key !in c.entries ==> a.result == IdbKV.Get(c.idb, key, engine)
    ensures a.result.Ok? ==> key in a.cache.entries && a.cache.entries[key] == a.result.value
    ensures forall k :: k != key ==> (k in a.cache.entries <==> k in c.entries)
    ensures forall k :: k in c.entries ==> a.cache.entries[k] == c.entries[k]
    ensures a.result.Err? ==> a.cache.entries == c.entries
    ensures a.cache.idb == c.idb
  {
    if key in c.entries then Answer(c, Ok(c.entries[key]))
    else
      var c1 := c.(calls := c.calls + [GetCall(key)]);
      match IdbKV.Get(c.idb, key, engine)
      case Ok(v) => Answer(c1.(entries := c.entries[key := v]), Ok(v))
      case Err(e) => Answer(c1, Err(e))
  }

  /** Every requested key has an entry. */
  predicate AllCached<K, V>(entries: map<K, Option<V>>, keys: seq<K>) {
    forall k | k in keys :: k in entries
  }

  /** The pairs `[key, cache.get(key)]` for the requested keys, in request order. */
  function CachedEntries<K, V>(entries: map<K, Option<V>>, keys: seq<K>): (es: seq<(K, Option<V>)>)
    requires AllCached(entries, keys)
    ensures |es| == |keys|
    ensures forall i :: 0 <= i < |keys| ==> es[i] == (keys[i], entries[keys[i]])
  {
    seq(|keys|, i requires 0 <= i < |keys| => (keys[i], entries[keys[i]]))
  }

  /** The `Map` built from memory when every requested key has an entry: exactly the
      requested keys, in request order, each with its entry. */
  function FromCache<K(==, !new), V>(entries: map<K, Option<V>>, keys: seq<K>): (m: JsMap<K, Option<V>>)
    requires AllCached(entries, keys)
    ensures Valid(m) && m.order == Dedup(keys)
    ensures forall k :: k in m.values <==> k in keys
    ensures forall k :: k in m.values ==> m.values[k] == entries[k]
  {
    var es := CachedEntries(entries, keys);
    assert EntryKeys(es) == keys;
    FromEntriesConsistent(es);
    FromEntries(es)
  }

  /** `getBatch(keys)`: answered from memory when every key has an entry; otherwise
      the WHOLE key list is fetched and every returned entry overwrites the cache. */
  function GetBatch<K(==, !new), V>(c: Cache<K, V>, keys: seq<K>, engine: IdbKV.Engine)
    : (a: Answer<K, V, JsMap<K, Option<V>>>)
    ensures AllCached(c.entries, keys) ==> a.cache == c && a.result.Ok?
    ensures AllCached(c.entries, keys) ==>
      && a.result.value.order == Dedup(keys)
      && (forall k :: k in a.result.value.values <==> k in keys)
      && (forall k :: k in keys ==> a.result.value.values[k] == c.entries[k])
    ensures !AllCached(c.entries, keys) ==> a.cache.calls == c.calls + [GetBatchCall(keys)]
    ensures !AllCached(c.entries, keys) ==> a.result == IdbKV.GetBatch(c.idb, keys, engine)
    ensures !AllCached(c.entries, keys) && a.result.Ok? ==>
      forall k :: k in keys ==> k in a.cache.entries && a.cache.entries[k] == a.result.value.values[k]
    ensures forall k :: k in a.cache.entries <==> k in c.entries || (a.result.Ok? && k in keys)
    ensures forall k :: k in c.entries && k !in keys ==> a.cache.entries[k] == c.entries[k]
    ensures a.result.Err? ==> a.cache.entries == c.entries
    ensures a.cache.idb == c.idb
  {
    if AllCached(c.entries, keys) then Answer(c, Ok(FromCache(c.entries, keys)))
    else
      var c1 := c.(calls := c.calls + [GetBatchCall(keys)]);
      match IdbKV.GetBatch(c.idb, keys, engine)
      case Ok(batch) => Answer(c1.(entries := c.entries + batch.values), Ok(batch))
      case Err(e) => Answer(c1, Err(e))
  }

  /** The first loop of `getBatch`: collect `[key, cache.get(key)]` in request order,
      stopping at the first key without an entry. */
  method ScanCache<K(==, !new), V>(entries: map<K, Option<V>>, keys: seq<K>)
    returns (readAllKeysFromCache: bool, result: JsMap<K, Option<V>>)
    ensures readAllKeysFromCache <==> AllCached(entries, keys)
    ensures readAllKeysFromCache ==> result == FromCache(entries, keys)
  {
    readAllKeysFromCache := true;
    result := Empty();
    var i := 0;
    while i < |keys|
      invariant 0 <= i <= |keys|
      invariant readAllKeysFromCache
      invariant AllCached(entries, keys[..i])
      invariant result == FromCache(entries, keys[..i])
    {
      if keys[i] in entries {
        FromCacheStep(entries, keys, i);
        result := JsMaps.Set(result, keys[i], entries[keys[i]]);
      } else {
        readAllKeysFromCache := false;
        break;
      }
      i := i + 1;
    }
    if readAllKeysFromCache {
      assert keys[..i] == keys;
    }
  }

  /** Reading one more cached key sets it on the `Map` read so far. */
  lemma FromCacheStep<K(!new), V>(entries: map<K, Option<V>>, keys: seq<K>, i: nat)
    requires i < |keys| && AllCached(entries, keys[..i]) && keys[i] in entries
    ensures AllCached(entries, keys[..i + 1])
    ensures FromCache(entries, keys[..i + 1]) == JsMaps.Set(FromCache(entries, keys[..i]), keys[i], entries[keys[i]])
  {
    assert keys[..i + 1] == keys[..i] + [keys[i]];
    var es := CachedEntries(entries, keys[..i + 1]);
    assert es[..i] == CachedEntries(entries, keys[..i]);
  }

  /** The back-fill loop of `getBatch`: `cache.set(key, value)` for every entry of the
      fetched `Map`, in its iteration order. */
  method Backfill<K(!new), V>(entries: map<K, Option<V>>, batch: JsMap<K, Option<V>>)
    returns (entries': map<K, Option<V>>)
    requires Valid(batch)
    ensures forall k :: k in entries' <==> k in entries || k in batch.values
    ensures forall k :: k in batch.values ==> entries'[k] == batch.values[k]
    ensures forall k :: k in entries && k !in batch.values ==> entries'[k] == entries[k]
  {
    entries' := entries;
    var j := 0;
    while j < |batch.order|
      invariant 0 <= j <= |batch.order|
      invariant forall k :: k in entries' <==> k in entries || k in batch.order[..j]
      invariant forall k :: k in batch.order[..j] ==> entries'[k] == batch.values[k]
      invariant forall k :: k in entries && k !in batch.order[..j] ==> entries'[k] == entries[k]
    {
      var key := batch.order[j];
      assert batch.order[..j + 1] == batch.order[..j] + [key];
      entries' := entries'[key := batch.values[key]];
      j := j + 1;
    }
    assert batch.order[..j] == batch.order;
  }

  /** `getBatch` as the source writes it: the scan, then on a miss one fetch of the
      whole key list and the back-fill. */
  method GetBatchLoop<K(==, !new), V>(c: Cache<K, V>, keys: seq<K>, engine: IdbKV.Engine)
    returns (c': Cache<K, V>, r: Result<JsMap<K, Option<V>>, IdbKV.Error>)
    ensures Answer(c', r) == GetBatch(c, keys, engine)
  {
    var readAllKeysFromCache, result := ScanCache(c.entries, keys);
    if readAllKeysFromCache {
      assert GetBatch(c, keys, engine) == Answer(c, Ok(FromCache(c.entries, keys)));
      return c, Ok(result);
    }
    var calls := c.calls + [GetBatchCall(keys)];
    var fetched := IdbKV.GetBatch(c.idb, keys, engine);
    if fetched.Err? {
      c', r := Cache(c.entries, c.idb, calls), Err(fetched.error);
      assert GetBatch(c, keys, engine) == Answer(c', r);
      return;
    }
    var batch := fetched.value;
    var entries := Backfill(c.entries, batch);
    MapUnionFromParts(c.entries, batch.values, entries);
    c', r := Cache(entries, c.idb, calls), Ok(batch);
    assert GetBatch(c, keys, engine) == Answer(c', r);
  }

  /** A map that keeps the keys and values of `old` except where `new` overrides them
      is `old + new`. */
  lemma MapUnionFromParts<K, U>(old0: map<K, U>, new0: map<K, U>, m: map<K, U>)
    requires forall k :: k in m <==> k in old0 || k in new0
    requires forall k :: k in new0 ==> m[k] == new0[k]
    requires forall k :: k in old0 && k !in new0 ==> m[k] == old0[k]
    ensures m == old0 + new0
  {
  }

  /** `set` followed by `get` of the same key answers the value just set from
      memory: no store call, nothing changes. */
  lemma SetThenGetHits<K(!new), V>(c: Cache<K, V>, key: K, value: V, engine: IdbKV.Engine)
    ensures var c1 := Set(c, key, value);
      Get(c1, key, engine) == Answer(c1, Ok(Some(value)))
  {
  }

  /** A `get` that reaches the store records its answer, confirmed absence included,
      so the next `get` of that key is answered from memory with the same result. */
  lemma GetTwiceHits<K(!new), V>(c: Cache<K, V>, key: K, e1: IdbKV.Engine, e2: IdbKV.Engine)
    requires Get(c, key, e1).result.Ok?
    ensures var a1 := Get(c, key, e1);
      Get(a1.cache, key, e2) == Answer(a1.cache, a1.result)
  {
  }

  /** A miss on a key the store has no record of answers `undefined` and leaves a
      confirmed-absent entry; asking again makes no further store call. */
  lemma AbsenceIsCached<K(!new), V>(c: Cache<K, V>, key: K, e2: IdbKV.Engine)
    requires key !in c.entries && key !in c.idb.records && c.idb.conn.Live?
    ensures var a1 := Get(c, key, IdbKV.Answers);
      && a1.result == Ok(None)
      && a1.cache.calls == c.calls + [GetCall(key)]
      && a1.cache.entries[key] == None
      && Get(a1.cache, key, e2) == Answer(a1.cache, Ok(None))
  {
  }

  /** With one requested key cached and another not, `getBatch` asks the store for
      both, not only for the miss, and overwrites the resident entry too: with
      `undefined` when the key list is read as one array key, with the store's
      record when it is read key by key. */
  lemma PartialHitFetchesAll<K(!new), V>(c: Cache<K, V>, k1: K, k2: K, engine: IdbKV.Engine)
    requires k1 in c.entries && k2 !in c.entries
    ensures var a := GetBatch(c, [k1, k2], engine);
      && a.cache.calls == c.calls + [GetBatchCall([k1, k2])]
      && (a.result.Ok? ==> a.cache.entries[k1] == a.result.value.values[k1])
      && (a.result.Ok? && c.idb.reading.ArrayAsOneKey? ==> a.cache.entries[k1] == None)
      && (a.result.Ok? && c.idb.reading.KeyByKey? ==> a.cache.entries[k1] == IdbKV.Lookup(c.idb.records, k1))
  {
    var a := GetBatch(c, [k1, k2], engine);
    assert !AllCached(c.entries, [k1, k2]) by { assert k2 in [k1, k2]; }
    assert k1 in [k1, k2];
  }

  /** A value set through one cache is read back by a fresh cache over the same store:
      a miss answered by the store. */
  lemma FreshCacheReadsWrite<K(!new), V>(c: Cache<K, V>, key: K, value: V)
    requires c.idb.conn.Live?
    ensures var other := New(Set(c, key, value).idb);
      && Get(other, key, IdbKV.Answers).result == Ok(Some(value))
      && Get(other, key, IdbKV.Answers).cache.calls == [GetCall(key)]
  {
  }

  /** The cache's public operations, each read with the engine's answer to its store call. */
  datatype Op<K, V> =
    | SetOp(key: K, value: V)
    | GetOp(key: K, engine: IdbKV.Engine)
    | GetBatchOp(keys: seq<K>, engine: IdbKV.Engine)

  function Apply<K(==, !new), V>(c: Cache<K, V>, op: Op<K, V>): Cache<K, V> {
    match op
    case SetOp(k, v) => Set(c, k, v)
    case GetOp(k, e) => Get(c, k, e).cache
    case GetBatchOp(ks, e) => GetBatch(c, ks, e).cache
  }

  function Run<K(==, !new), V>(c: Cache<K, V>, ops: seq<Op<K, V>>): Cache<K, V>
    decreases |ops|
  {
    if |ops| == 0 then c else Run(Apply(c, ops[0]), ops[1..])
  }

  /** No operation removes an entry: over any run the cached keys only grow, and the
      backing store's connection never changes (the cache cannot destroy its store). */
  lemma {:induction false} RunKeepsEntries<K(!new), V>(c: Cache<K, V>, ops: seq<Op<K, V>>)
    ensures c.entries.Keys <= Run(c, ops).entries.Keys
    ensures Run(c, ops).idb.conn == c.idb.conn
    ensures Run(c, ops).idb.reading == c.idb.reading
    decreases |ops|
  {
    if |ops| > 0 {
      RunKeepsEntries(Apply(c, ops[0]), ops[1..]);
    }
  }

  /** While the store is live, every entry agrees with the store's record: a value
      for a stored key, confirmed absence for a missing one. */
  ghost predicate Coherent<K(!new), V>(c: Cache<K, V>) {
    c.idb.conn.Live? ==> forall k :: k in c.entries ==> c.entries[k] == IdbKV.Lookup(c.idb.records, k)
  }

  /** Each operation keeps the cache coherent with a store that reads `getAll` key
      by key. */
  lemma ApplyKeepsCoherent<K(!new), V>(c: Cache<K, V>, op: Op<K, V>)
    requires Coherent(c) && c.idb.reading.KeyByKey?
    ensures Coherent(Apply(c, op))
  {
    match op
    case SetOp(k, v) =>
    case GetOp(k, e) =>
    case GetBatchOp(ks, e) =>
      var a := GetBatch(c, ks, e);
      if a.result.Ok? && c.idb.conn.Live? {
        forall k | k in a.cache.entries
          ensures a.cache.entries[k] == IdbKV.Lookup(c.idb.records, k)
        {
          if k in ks && !AllCached(c.entries, ks) {
            assert k in a.result.value.values;
          }
        }
      }
  }

  lemma {:induction false} RunKeepsCoherent<K(!new), V>(c: Cache<K, V>, ops: seq<Op<K, V>>)
    requires Coherent(c) && c.idb.reading.KeyByKey?
    ensures Coherent(Run(c, ops))
    decreases |ops|
  {
    if |ops| > 0 {
      ApplyKeepsCoherent(c, ops[0]);
      RunKeepsCoherent(Apply(c, ops[0]), ops[1..]);
    }
  }

  /** A coherent cache over a live store that reads `getAll` key by key is invisible
      to its readers: a fulfilled `get` or `getBatch` answers exactly what the store
      holds, whether from memory or not. */
  lemma CoherentReadsMatchStore<K(!new), V>(c: Cache<K, V>, key: K, keys: seq<K>, engine: IdbKV.Engine)
    requires Coherent(c) && c.idb.conn.Live? && c.idb.reading.KeyByKey?
    ensures Get(c, key, engine).result.Ok? ==>
      Get(c, key, engine).result.value == IdbKV.Lookup(c.idb.records, key)
    ensures var b := GetBatch(c, keys, engine).result;
      b.Ok? ==> forall k :: k in b.value.values ==> b.value.values[k] == IdbKV.Lookup(c.idb.records, k)
  {
  }

  /** Starting from an empty cache over a live store that reads `getAll` key by key,
      any run of operations leaves every read answering what the store holds. */
  lemma {:induction false} ReadsMatchStoreAfterAnyRun<K(!new), V>(
    idb: IdbKV.Store<K, V>, ops: seq<Op<K, V>>, key: K, engine: IdbKV.Engine)
    requires idb.conn.Live? && idb.reading.KeyByKey?
    ensures var c := Run(New(idb), ops);
      Get(c, key, engine).result.Ok? ==> Get(c, key, engine).result.value == IdbKV.Lookup(c.idb.records, key)
  {
    RunKeepsCoherent(New(idb), ops);
    RunKeepsEntries(New(idb), ops);
    CoherentReadsMatchStore(Run(New(idb), ops), key, [], engine);
  }

  /** As the source calls `getAll`: a partial hit on a coherent cache, with the key
      list read as one array key, overwrites a resident value with `undefined`. The
      cache is no longer coherent, and a later `get` answers `undefined` from memory
      for a key whose record the store still holds. */
  lemma ArrayQueryBackfillForgetsValue<K(!new), V>(c: Cache<K, V>, k1: K, k2: K)
    requires c.idb.conn.Live? && c.idb.reading.ArrayAsOneKey?
    requires Coherent(c)
    requires k1 in c.idb.records && k1 in c.entries && k2 !in c.entries
    ensures var a := GetBatch(c, [k1, k2], IdbKV.Answers);
      && a.cache.entries[k1] == None
      && !Coherent(a.cache)
      && Get(a.cache, k1, IdbKV.Answers).result == Ok(None)
      && IdbKV.Get(a.cache.idb, k1, IdbKV.Answers) == Ok(Some(c.idb.records[k1]))
  {
    PartialHitFetchesAll(c, k1, k2, IdbKV.Answers);
  }
}
