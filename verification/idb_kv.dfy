/** `IdbKV`: a persistent key-value store over one IndexedDB object store.

    The engine is an abstract map of records plus the state of the instance's
    connection promise. Every operation first awaits that promise, so a failed
    open or a destroyed instance rejects before any request is issued. Whether
    the engine's request then succeeds or reports an error is a parameter. */
module IdbKV {
  import opened Wrappers
  import opened JsMaps

  /** Why an operation rejected. */
  datatype Error =
    | ConnectionError  // `indexedDB.open` reported an error
    | RequestError     // the request's `onerror` fired
    | TerminalError    // 'This idb-kv instance has been destroyed'

  /** The state of the `db` promise the instance holds. */
  datatype Connection =
    | Live        // open succeeded
    | OpenFailed  // open rejected; every operation rejects with the same error
    | Destroyed   // `destroy` replaced the promise with a rejected one

  /** How the engine answers the one request an operation issues. */
  datatype Engine = Answers | Fails

  /** How the engine reads the key list that `getBatch` hands to `store.getAll`.
      `ArrayAsOneKey` is how IndexedDB reads an array query: as ONE array-valued key.
      No record is kept under such a key, so the answer is empty. `KeyByKey` answers
      one slot per requested key, in request order. That is the answer `zip` is
      written for. */
  datatype GetAllReading = ArrayAsOneKey | KeyByKey

  /** The instance: the records of its object store, its connection, and how its
      engine reads a `getAll` key list. */
  datatype Store<K, V> = Store(records: map<K, V>, conn: Connection, reading: GetAllReading)

  /** One operation's outcome: the store after it and what the returned promise settles to. */
  datatype Step<K, V, T> = Step(store: Store<K, V>, result: Result<T, Error>)

  /** The record under `k`, or `undefined`. */
  function Lookup<K, V>(records: map<K, V>, k: K): (r: Option<V>)
    ensures r.Some? <==> k in records
    ensures r.Some? ==> records[k] == r.value
  {
    if k in records then Some(records[k]) else None
  }

  /** What `await this.db` rejects with when the connection is not live. */
  function ConnectionFault(conn: Connection): (e: Error)
    requires !conn.Live?
    ensures conn.Destroyed? <==> e == TerminalError
  {
    if conn.OpenFailed? then ConnectionError else TerminalError
  }

  /** `get(key)`: a read-only single-key lookup. */
  function Get<K, V>(s: Store<K, V>, key: K, engine: Engine): (r: Result<Option<V>, Error>)
    ensures r.Ok? <==> s.conn.Live? && engine.Answers?
    ensures !s.conn.Live? ==> r == Err(ConnectionFault(s.conn))
    ensures s.conn.Live? && engine.Fails? ==> r == Err(RequestError)
    ensures r.Ok? ==> (r.value.Some? <==> key in s.records)
    ensures r.Ok? && r.value.Some? ==> r.value.value == s.records[key]
  {
    if !s.conn.Live? then Err(ConnectionFault(s.conn))
    else if engine.Fails? then Err(RequestError)
    else Ok(Lookup(s.records, key))
  }

  /** The engine's answer to `store.getAll(keys)`. Read as one array key, the list
      matches no record. Read key by key, it gives one slot per requested key in
      request order, `undefined` where no record exists. */
  function EngineGetAll<K, V>(reading: GetAllReading, records: map<K, V>, keys: seq<K>)
    : (b: seq<Option<V>>)
    ensures reading.ArrayAsOneKey? ==> b == []
    ensures reading.KeyByKey? ==> |b| == |keys|
    ensures reading.KeyByKey? ==> forall i :: 0 <= i < |keys| ==> b[i] == Lookup(records, keys[i])
  {
    match reading
    case ArrayAsOneKey => []
    case KeyByKey => seq(|keys|, i requires 0 <= i < |keys| => Lookup(records, keys[i]))
  }

  /** `b[i]` in JavaScript: `undefined` past the end of the array. */
  function At<V>(b: seq<Option<V>>, i: nat): Option<V> {
    if i < |b| then b[i] else None
  }

  /** The inner `zip`: the i-th requested key paired with the i-th engine slot. */
  function Zip<K, V>(keys: seq<K>, b: seq<Option<V>>): (es: seq<(K, Option<V>)>)
    ensures |es| == |keys|
    ensures forall i :: 0 <= i < |keys| ==> es[i] == (keys[i], At(b, i))
  {
    seq(|keys|, i requires 0 <= i < |keys| => (keys[i], At(b, i)))
  }

  /** Whatever the engine answers, `new Map(zip(keys, b))` has exactly the requested
      keys, in request order with repeats dropped; with no repeats, key `i` is
      bound to slot `i` of the answer, and `undefined` past the answer's end. */
  lemma ZipPairsByPosition<K(!new), V>(keys: seq<K>, b: seq<Option<V>>)
    ensures var m := FromEntries(Zip(keys, b));
      && m.order == Dedup(keys)
      && (forall k :: k in m.values <==> k in keys)
      && (Distinct(keys) ==> forall i :: 0 <= i < |keys| ==> m.values[keys[i]] == At(b, i))
  {
    var es := Zip(keys, b);
    assert EntryKeys(es) == keys;
    if Distinct(keys) {
      forall i | 0 <= i < |keys|
        ensures FromEntries(es).values[keys[i]] == At(b, i)
      {
        FromEntriesLastWins(es, i);
      }
    }
  }

  /** `getBatch(keys)`: one read-only `getAll` of the key list, its answer re-paired
      with the keys by position. Read as one array key, every requested key comes
      back `undefined`; read key by key, every key comes back with its record. */
  function GetBatch<K(==, !new), V>(s: Store<K, V>, keys: seq<K>, engine: Engine)
    : (r: Result<JsMap<K, Option<V>>, Error>)
    ensures r.Ok? <==> s.conn.Live? && engine.Answers?
    ensures !s.conn.Live? ==> r == Err(ConnectionFault(s.conn))
    ensures s.conn.Live? && engine.Fails? ==> r == Err(RequestError)
    ensures r.Ok? ==> Valid(r.value) && r.value.order == Dedup(keys)
    ensures r.Ok? ==> forall k :: k in r.value.values <==> k in keys
    ensures r.Ok? && s.reading.KeyByKey? ==>
      forall k :: k in r.value.values ==> r.value.values[k] == Lookup(s.records, k)
    ensures r.Ok? && s.reading.ArrayAsOneKey? ==>
      forall k :: k in r.value.values ==> r.value.values[k] == None
  {
    if !s.conn.Live? then Err(ConnectionFault(s.conn))
    else if engine.Fails? then Err(RequestError)
    else
      var es := Zip(keys, EngineGetAll(s.reading, s.records, keys));
      assert EntryKeys(es) == keys;
      FromEntriesConsistent(es);
      Ok(FromEntries(es))
  }

  /** As the source calls it: `getAll` reads the key list as one array key, so a key
      whose record exists comes back `undefined` from `getBatch`, while `get` finds it. */
  lemma ArrayQueryBatchDisagreesWithGet()
    ensures var s := Store(map[1 := 10], Live, ArrayAsOneKey);
      && Get(s, 1, Answers) == Ok(Some(10))
      && GetBatch(s, [1], Answers).Ok?
      && GetBatch(s, [1], Answers).value.values[1] == None
  {
    var s := Store(map[1 := 10], Live, ArrayAsOneKey);
    assert 1 in GetBatch(s, [1], Answers).value.values by { assert 1 in [1]; }
  }

  /** As intended: answered key by key, `getBatch` agrees with `get` on every
      requested key. */
  lemma KeyByKeyBatchAgreesWithGet<K(!new), V>(s: Store<K, V>, keys: seq<K>, engine: Engine)
    requires s.reading.KeyByKey?
    ensures var r := GetBatch(s, keys, engine);
      r.Ok? ==> forall k :: k in keys ==> r.value.values[k] == Get(s, k, engine).value
  {
  }

  /** A dense answer, holding only the records that exist, is shifted by the pairing:
      when the second of three requested keys has no record and the answer lists
      the other two records, the third key's record is bound to the second key and
      the third key comes back `undefined`. */
  lemma ZipShiftsDenseAnswer<K(!new), V>(keys: seq<K>, records: map<K, V>, b: seq<Option<V>>)
    requires |keys| == 3 && Distinct(keys)
    requires keys[0] in records && keys[1] !in records && keys[2] in records
    requires b == [Some(records[keys[0]]), Some(records[keys[2]])]
    ensures var m := FromEntries(Zip(keys, b));
      && m.values[keys[1]] == Some(records[keys[2]])
      && m.values[keys[1]] != Lookup(records, keys[1])
      && m.values[keys[2]] == None
      && m.values[keys[2]] != Lookup(records, keys[2])
  {
    ZipPairsByPosition(keys, b);
    assert At(b, 1) == b[1] && At(b, 2) == None;
  }

  /** `set(key, value)`: a read-write `put`, an upsert. */
  function Set<K(!new), V>(s: Store<K, V>, key: K, value: V, engine: Engine): (r: Step<K, V, ()>)
    ensures r.result.Ok? <==> s.conn.Live? && engine.Answers?
    ensures !s.conn.Live? ==> r.result == Err(ConnectionFault(s.conn))
    ensures s.conn.Live? && engine.Fails? ==> r.result == Err(RequestError)
    ensures r.result.Err? ==> r.store == s
    ensures r.store.conn == s.conn && r.store.reading == s.reading
    ensures r.result.Ok? ==> Lookup(r.store.records, key) == Some(value)
    ensures forall k :: k != key ==> Lookup(r.store.records, k) == Lookup(s.records, k)
  {
    if !s.conn.Live? then Step(s, Err(ConnectionFault(s.conn)))
    else if engine.Fails? then Step(s, Err(RequestError))
    else Step(s.(records := s.records[key := value]), Ok(()))
  }

  /** `delete(key)`: a read-write removal; removing a missing record is not an error. */
  function Delete<K(!new), V>(s: Store<K, V>, key: K, engine: Engine): (r: Step<K, V, ()>)
    ensures r.result.Ok? <==> s.conn.Live? && engine.Answers?
    ensures !s.conn.Live? ==> r.result == Err(ConnectionFault(s.conn))
    ensures s.conn.Live? && engine.Fails? ==> r.result == Err(RequestError)
    ensures r.result.Err? ==> r.store == s
    ensures r.store.conn == s.conn && r.store.reading == s.reading
    ensures r.result.Ok? ==> Lookup(r.store.records, key) == None
    ensures forall k :: k != key ==> Lookup(r.store.records, k) == Lookup(s.records, k)
  {
    if !s.conn.Live? then Step(s, Err(ConnectionFault(s.conn)))
    else if engine.Fails? then Step(s, Err(RequestError))
    else Step(s.(records := s.records - {key}), Ok(()))
  }

  /** `destroy()`: closes the connection, poisons the instance at once, then deletes
      the database; only the deletion can fail, and the poisoning stands either way. */
  function Destroy<K, V>(s: Store<K, V>, engine: Engine): (r: Step<K, V, ()>)
    ensures !s.conn.Live? ==> r == Step(s, Err(ConnectionFault(s.conn)))
    ensures s.conn.Live? ==> r.store.conn == Destroyed
    ensures r.result.Ok? <==> s.conn.Live? && engine.Answers?
    ensures r.result.Ok? ==> r.store.records == map[]
    ensures s.conn.Live? && engine.Fails? ==> r.result == Err(RequestError) && r.store.records == s.records
  {
    if !s.conn.Live? then Step(s, Err(ConnectionFault(s.conn)))
    else if engine.Fails? then Step(s.(conn := Destroyed), Err(RequestError))
    else Step(s.(records := map[], conn := Destroyed), Ok(()))
  }

  /** `put` then `get` returns the value just put. */
  lemma SetThenGet<K(!new), V>(s: Store<K, V>, key: K, value: V)
    requires s.conn.Live?
    ensures Set(s, key, value, Answers).result.Ok?
    ensures Get(Set(s, key, value, Answers).store, key, Answers) == Ok(Some(value))
  {
  }

  /** `delete` then `get` finds nothing, whether or not a record was there before. */
  lemma DeleteThenGet<K(!new), V>(s: Store<K, V>, key: K)
    requires s.conn.Live?
    ensures Delete(s, key, Answers).result.Ok?
    ensures Get(Delete(s, key, Answers).store, key, Answers) == Ok(None)
  {
  }

  /** The operations of the instance, as a caller issues them. */
  datatype Request<K, V> =
    | GetReq(key: K)
    | GetBatchReq(keys: seq<K>)
    | SetReq(key: K, value: V)
    | DeleteReq(key: K)
    | DestroyReq

  /** What a fulfilled operation yields. */
  datatype Reply<K, V> =
    | Value(value: Option<V>)
    | Batch(batch: JsMap<K, Option<V>>)
    | Done

  /** One request against the instance. */
  function Perform<K(==, !new), V>(s: Store<K, V>, req: Request<K, V>, engine: Engine)
    : Step<K, V, Reply<K, V>>
  {
    match req
    case GetReq(k) =>
      (match Get(s, k, engine)
       case Ok(v) => Step(s, Ok(Value(v)))
       case Err(e) => Step(s, Err(e)))
    case GetBatchReq(ks) =>
      (match GetBatch(s, ks, engine)
       case Ok(m) => Step(s, Ok(Batch(m)))
       case Err(e) => Step(s, Err(e)))
    case SetReq(k, v) =>
      var r := Set(s, k, v, engine);
      Step(r.store, if r.result.Ok? then Ok(Done) else Err(r.result.error))
    case DeleteReq(k) =>
      var r := Delete(s, k, engine);
      Step(r.store, if r.result.Ok? then Ok(Done) else Err(r.result.error))
    case DestroyReq =>
      var r := Destroy(s, engine);
      Step(r.store, if r.result.Ok? then Ok(Done) else Err(r.result.error))
  }

  /** A sequence of requests, each met with its own engine answer; the outcomes in order. */
  function Run<K(==, !new), V>(s: Store<K, V>, reqs: seq<Request<K, V>>, engines: seq<Engine>)
    : (r: (Store<K, V>, seq<Result<Reply<K, V>, Error>>))
    requires |engines| == |reqs|
    ensures |r.1| == |reqs|
    decreases |reqs|
  {
    if |reqs| == 0 then (s, [])
    else
      var first := Perform(s, reqs[0], engines[0]);
      var rest := Run(first.store, reqs[1..], engines[1..]);
      (rest.0, [first.result] + rest.1)
  }

  /** After `destroy` every later operation, `destroy` included, rejects with the
      terminal error and changes nothing, however the engine would have answered. */
  lemma {:induction false} DestroyedRejectsEverything<K(!new), V>(
    s: Store<K, V>, engine: Engine, reqs: seq<Request<K, V>>, engines: seq<Engine>)
    requires s.conn.Live?
    requires |engines| == |reqs|
    ensures var d := Destroy(s, engine).store;
      && Run(d, reqs, engines).0 == d
      && forall i :: 0 <= i < |reqs| ==> Run(d, reqs, engines).1[i] == Err(TerminalError)
  {
    var d := Destroy(s, engine).store;
    RunOnDestroyed(d, reqs, engines);
  }

  lemma {:induction false} RunOnDestroyed<K(!new), V>(
    d: Store<K, V>, reqs: seq<Request<K, V>>, engines: seq<Engine>)
    requires d.conn.Destroyed?
    requires |engines| == |reqs|
    ensures Run(d, reqs, engines).0 == d
    ensures forall i :: 0 <= i < |reqs| ==> Run(d, reqs, engines).1[i] == Err(TerminalError)
  {
    if |reqs| > 0 {
      assert Perform(d, reqs[0], engines[0]) == Step(d, Err(TerminalError));
      RunOnDestroyed(d, reqs[1..], engines[1..]);
      var rest := Run(d, reqs[1..], engines[1..]);
      forall i | 0 <= i < |reqs|
        ensures Run(d, reqs, engines).1[i] == Err(TerminalError)
      {
        if i > 0 {
          assert Run(d, reqs, engines).1[i] == rest.1[i - 1];
        }
      }
    }
  }
}
