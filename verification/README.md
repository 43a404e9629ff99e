# Local key-value cache layer (`IdbKV` and `IdbWithInMemoryCache`)

A Dafny model of the two classes in `src/maxine/idb.ts`:

- **`IdbKV`** (module `IdbKV`, file `idb_kv.dfy`): a persistent key-value store over one
  IndexedDB object store, with `get`, `getBatch`, `set`, `delete` and `destroy`. The
  IndexedDB engine is an abstract `map<K, V>` of records. The instance's `db` promise is a
  `Connection`: `Live`, `OpenFailed` or `Destroyed`. Every operation first awaits the
  connection. A failed open rejects every operation with `ConnectionError`, and a destroyed
  instance rejects every operation with `TerminalError`. After that, the engine's answer to
  the one request the operation issues is an explicit `Engine` parameter: it `Answers` or it
  `Fails`. A failed request rejects with `RequestError` and leaves the records unchanged.
  The store also records how its engine reads the key list `getBatch` passes to
  `store.getAll` (`GetAllReading`). `ArrayAsOneKey` is what IndexedDB does with an array
  query: it reads it as one array-valued key, which matches no record, so the answer is
  empty. `KeyByKey` is the answer `zip` is written for: one slot per requested key, in
  request order. Every contract is stated for both readings (see "## Findings").
- **`IdbWithInMemoryCache`** (module `IdbWithInMemoryCache`, file `idb_cache.dfy`): a
  write-through in-memory `Map` in front of an `IdbKV`. An entry bound to `None` (JavaScript
  `undefined`) means the key was looked up and is confirmed absent. A key with no entry has
  not been looked up yet. The cache state also keeps a log of the calls it has made on its
  store (`calls`). "Answered from memory" is stated as "the log did not grow".
- The JavaScript `Map` returned by batched reads (module `JsMaps`, file `js_map.dfy`) keeps
  its keys in insertion order. `new Map(entries)` keeps the first position and the last
  value of a repeated key.

Each operation is a pure transition. It takes a state and returns the new state together
with a `Result`: the value the returned promise is fulfilled with, or the error it rejects
with. `getBatch` is modelled twice. `IdbWithInMemoryCache.GetBatch` is the declarative
transition. `IdbWithInMemoryCache.GetBatchLoop` follows the source's two loops: the scan
that stops at the first miss, and the back-fill over the fetched `Map`. It is proved equal
to the transition.

Two points of the code's behaviour:

- `destroy` poisons only operations that await the connection after the poisoning. An
  operation already past its `await this.db` still runs. The model is sequential, so this
  difference does not show in it.
- On a live instance the poisoning happens before the database is deleted. If the deletion
  fails, `destroy` rejects, but the instance stays destroyed (`IdbKV.Destroy`).

## Model

| member | source | states |
|---|---|---|
| `IdbKV.Get` | src/maxine/idb.ts:46-57 | Fulfils exactly when the connection is live and the engine answers. It yields the stored value, or `undefined` exactly when there is no record. A failed open rejects with the connection error, a destroyed instance with the terminal error, and an engine error with the request error. |
| `IdbKV.GetBatch` | src/maxine/idb.ts:59-74 | When fulfilled, the result `Map` has exactly the requested keys. Its order is the request order with repeats dropped. When the key list is read as one array key, as the code's `getAll(keys)` call is, every key is bound to `undefined`. When it is read key by key, each key is bound to its stored record, or to `undefined` when it has none. It rejects on the same conditions as `get`. |
| `IdbKV.Zip` | src/maxine/idb.ts:66-68 | The inner `zip`: the i-th requested key paired with the i-th answer slot, `undefined` past the answer's end. Its partner is `ZipPairsByPosition`, which states what `new Map` of the pairs holds. |
| `IdbKV.ArrayQueryBatchDisagreesWithGet` | src/maxine/idb.ts:46-71 | As written: on a store holding `1 ↦ 10`, with the key list read as one array key, `get(1)` yields `10` while `getBatch([1])` binds `1` to `undefined`. |
| `IdbKV.KeyByKeyBatchAgreesWithGet` | src/maxine/idb.ts:46-71 | As intended: with the key list read key by key, a fulfilled `getBatch` binds every requested key to exactly what `get` of that key yields. |
| `IdbKV.ZipShiftsDenseAnswer` | src/maxine/idb.ts:66-71 | An answer that lists only the existing records is misaligned by the positional pairing. When the second of three keys has no record, the third key's record is bound to the second key and the third key comes back `undefined`. |
| `IdbKV.ZipPairsByPosition` | src/maxine/idb.ts:66-71 | For ANY engine answer, `new Map(zip(keys, answer))` has every requested key, in request order. With no repeated keys, key `i` is bound to slot `i` of the answer, and to `undefined` past its end. |
| `IdbKV.Set` | src/maxine/idb.ts:76-87 | An upsert. After it succeeds, the key holds the new value. No other key's record changes. A rejected `set` leaves the store and its connection unchanged. |
| `IdbKV.Delete` | src/maxine/idb.ts:89-100 | After it succeeds, the key has no record, whether or not it had one before. No other key's record changes. A rejected `delete` changes nothing. |
| `IdbKV.Destroy` | src/maxine/idb.ts:102-117 | On a live instance, the connection becomes `Destroyed` whatever the deletion does. A successful deletion empties the records. A failed deletion rejects and keeps them. On an instance that is not live, it rejects with the connection's error and changes nothing. |
| `IdbKV.SetThenGet` | src/maxine/idb.ts:46-87 | On a live store, `set(k, v)` followed by `get(k)` yields `v`. |
| `IdbKV.DeleteThenGet` | src/maxine/idb.ts:46-100 | On a live store, `delete(k)` succeeds even when no record exists, and a following `get(k)` yields `undefined`. |
| `IdbKV.DestroyedRejectsEverything` | src/maxine/idb.ts:102-111 | After `destroy` on a live instance, every operation in any later sequence rejects with the terminal error and leaves the store unchanged. That includes `get`, `getBatch`, `set`, `delete` and `destroy` itself, whatever the engine would answer. |
| `JsMaps.FromEntries` | src/maxine/idb.ts:71 | `new Map(entries)` yields a map without repeated keys. Its keys are exactly the entries' keys, in first-occurrence order. |
| `JsMaps.FromEntriesLastWins` | src/maxine/idb.ts:71 | A key repeated among the entries is bound to the value of its last entry. |
| `IdbWithInMemoryCache.New` | src/maxine/idb.ts:123-126 | A new cache has no entries and has made no store calls, over the given store. |
| `IdbWithInMemoryCache.Set` | src/maxine/idb.ts:128-131 | The entry is written at once, and no other entry changes. One store write is logged. On a live store, the store then holds the value and no other record changes. The write's outcome never reaches the caller. |
| `IdbWithInMemoryCache.Get` | src/maxine/idb.ts:133-141 | On a hit (a value or a confirmed absence), it answers from memory: no store call, no change. On a miss, it makes exactly one store `get` and returns that outcome. If the store answers, the outcome becomes the key's entry. If the store rejects, the entries are unchanged. |
| `IdbWithInMemoryCache.GetBatch` | src/maxine/idb.ts:143-166 | When every key has an entry, it answers from memory: no store call, the state is unchanged, and each key is bound to its entry in request order. Otherwise it logs one store `getBatch` of the WHOLE key list and returns that result. On success, every requested key's entry is overwritten with the fetched value, including keys that were already cached. Other entries are kept. |
| `IdbWithInMemoryCache.ScanCache` | src/maxine/idb.ts:144-158 | The scan loop reports "all read from cache" exactly when every key has an entry. In that case it has built the from-memory `Map`. |
| `IdbWithInMemoryCache.Backfill` | src/maxine/idb.ts:160-165 | Setting each fetched entry in turn overwrites every fetched key with its fetched value and keeps all other entries. |
| `IdbWithInMemoryCache.GetBatchLoop` | src/maxine/idb.ts:143-166 | The source's loop-and-break implementation produces exactly the state and result of the `getBatch` transition. |
| `IdbWithInMemoryCache.SetThenGetHits` | src/maxine/idb.ts:128-136 | `set(k, v)` followed by `get(k)` yields `v` from memory, with no store call and no state change. |
| `IdbWithInMemoryCache.GetTwiceHits` | src/maxine/idb.ts:133-140 | After a `get` that fulfils, a second `get` of the same key is a hit with the same answer and no store call. |
| `IdbWithInMemoryCache.AbsenceIsCached` | src/maxine/idb.ts:133-140 | A miss on a key with no record yields `undefined` and leaves a confirmed-absent entry, after exactly one store call. The next `get` answers `undefined` from memory. |
| `IdbWithInMemoryCache.PartialHitFetchesAll` | src/maxine/idb.ts:143-165 | With `k1` cached and `k2` not, `getBatch([k1, k2])` asks the store for `[k1, k2]`, not only for `k2`. On success it overwrites `k1`'s resident entry with the fetched value. That value is `undefined` when the key list is read as one array key, and the store's record when it is read key by key. |
| `IdbWithInMemoryCache.ArrayQueryBackfillForgetsValue` | src/maxine/idb.ts:143-165 | As written: on a coherent cache over a live store, with the key list read as one array key, a partial hit overwrites a resident value with `undefined`. The cache stops being coherent, and a later `get` answers `undefined` from memory although the store still holds the record. |
| `IdbWithInMemoryCache.FreshCacheReadsWrite` | src/maxine/idb.ts:120-141 | A value set through one cache over a live store is read back by a new cache over the same store. It is a miss answered by the store, with exactly one store call. |
| `IdbWithInMemoryCache.RunKeepsEntries` | src/maxine/idb.ts:120-166 | Over any sequence of cache operations, the set of cached keys only grows. The store's connection never changes, because the cache has no `delete` or `destroy`. |
| `IdbWithInMemoryCache.ApplyKeepsCoherent` | src/maxine/idb.ts:128-165 | Over a store that reads the key list key by key, each of `set`, `get` and `getBatch` keeps every entry equal to the live store's record, with confirmed absence for keys that have no record. |
| `IdbWithInMemoryCache.RunKeepsCoherent` | src/maxine/idb.ts:120-166 | Over a store that reads the key list key by key, coherence with the live store holds after any sequence of cache operations. |
| `IdbWithInMemoryCache.CoherentReadsMatchStore` | src/maxine/idb.ts:133-165 | On a coherent cache over a live store that reads the key list key by key, every fulfilled `get` and `getBatch` answers exactly what the store holds, whether it answers from memory or not. |
| `IdbWithInMemoryCache.ReadsMatchStoreAfterAnyRun` | src/maxine/idb.ts:120-141 | Starting from a new cache over a live store that reads the key list key by key, after any sequence of operations, a fulfilled `get` answers the store's record. |

## Left out

- Opening the database is not modelled: `indexedDB.open`, the version-1 upgrade that creates
  the object store, and the error message. The connection state is an input of the model.
  Opening by name is also not modelled, so two instances share data only when they are
  given the same `Store` value, as in `FreshCacheReadsWrite`.
- Transactions and request callbacks (`onsuccess` and `onerror`) are not modelled. Each
  operation's single request is replaced by one `Engine` answer, and a request error
  rejects with `RequestError`.
- `IdbKV.Set`: the promise settles on the request's `onsuccess`, before the transaction
  commits. A commit that fails after a successful request, leaving the promise fulfilled
  and nothing written, is not modelled: a fulfilled `set` always takes effect.
- `IdbKV.Delete`: for the same reason as `IdbKV.Set`, a fulfilled `delete` always takes
  effect; a commit failure after the request succeeds is not modelled.
- The `ArrayAsOneKey` reading assumes no record is stored under an array-valued key equal to
  the requested key list. This holds for the string keys both callers use.
- `IdbWithInMemoryCache.PartialHitFetchesAll`: the overwrite of the resident entry with the store's record holds
  only for the `KeyByKey` reading. With the code's `ArrayAsOneKey` reading the entry
  becomes `undefined` (see "## Findings").
- `IdbWithInMemoryCache.ApplyKeepsCoherent`: holds only over a store with the `KeyByKey` reading. With the code's
  `ArrayAsOneKey` reading a partial-hit `getBatch` breaks coherence
  (`ArrayQueryBackfillForgetsValue`).
- `IdbWithInMemoryCache.RunKeepsCoherent`: holds only over a store with the `KeyByKey` reading, for the same reason
  as `ApplyKeepsCoherent`.
- `IdbWithInMemoryCache.CoherentReadsMatchStore`: holds only over a store with the `KeyByKey` reading. With the
  code's reading `getBatch` answers `undefined` for existing records
  (`ArrayQueryBatchDisagreesWithGet`).
- `IdbWithInMemoryCache.ReadsMatchStoreAfterAnyRun`: holds only over a store with the `KeyByKey` reading. With the
  code's reading, a run that contains a partial-hit `getBatch` leaves confirmed-absent
  entries for keys that have records.
- Promises and asynchrony are not modelled, including operations already in flight when
  `destroy` starts and concurrent `get` calls that race each other or a `set`. The model is
  sequential.
- `IdbWithInMemoryCache.Set`: the un-awaited store write is applied immediately and always
  succeeds when the store is live. Its swallowed failure is not modelled. With such a
  failure, coherence (`RunKeepsCoherent`) would no longer hold.
- Storing `undefined` as a value is not modelled: a stored value is always some `V`.
- Keys are compared only by equality, and the model uses one equality for both the cache
  `Map` and the store. In the code they differ. The `Map` compares keys by SameValueZero,
  which is object identity for Date, array and binary keys. IndexedDB compares those keys
  by value. The model assumes the two equalities agree, which holds for the string keys
  both callers use. IndexedDB key validity and key ordering are not modelled.
- `destroy` closing the connection and a database deletion blocked by other open
  connections are not modelled.
- `src/maxine/seen-posts.ts` and `src/maxine/bookmarked.ts` are not modelled. They are React
  hooks that build `${uri}:${cid}` keys and call the cache.
- `src/maxine/local-store.ts` is not modelled: it is `localStorage` access and cross-tab
  events.
- `src/view/icons/Logotype.tsx` is not modelled: it is SVG rendering.

## Findings

| source | as written | input that shows it | evidently intended | confidence | as-written member | corrected member |
|---|---|---|---|---|---|---|
| src/maxine/idb.ts:64 | `store.getAll(keys)` passes the key array as the query. IndexedDB reads an array query as one array-valued key, which matches no record, so `zip` binds every key to `undefined`. The cache back-fill then overwrites resident values with "confirmed absent". | A store holding `1 ↦ 10`: `get(1)` yields `10`, but `getBatch([1])` binds `1` to `undefined`. A cached `k1 ↦ v` with `k2` uncached: `getBatch([k1, k2])` turns `k1`'s entry into `undefined` (`ArrayQueryBackfillForgetsValue`). | One answer slot per requested key, in request order, so that `getBatch` agrees with `get` on every key. | medium, not executed | `IdbKV.ArrayQueryBatchDisagreesWithGet` | `IdbKV.KeyByKeyBatchAgreesWithGet` |

