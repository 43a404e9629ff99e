/** The JavaScript `Map` the store and the cache hand back from a batched read:
    keys kept in insertion order, each key bound once. */
module JsMaps {

  /** No element occurs twice. */
  predicate Distinct<K(==)>(s: seq<K>) {
    forall i, j :: 0 <= i < j < |s| ==> s[i] != s[j]
  }

  /** `order` lists the keys in insertion order; `values` binds each of them. */
  datatype JsMap<K, V> = JsMap(order: seq<K>, values: map<K, V>)

  ghost predicate Valid<K(!new), V>(m: JsMap<K, V>) {
    && Distinct(m.order)
    && (forall k :: k in m.values <==> k in m.order)
  }

  /** `new Map()` */
  function Empty<K(!new), V>(): (m: JsMap<K, V>)
    ensures Valid(m)
    ensures m.order == [] && m.values == map[]
  {
    JsMap([], map[])
  }

  /** `m.set(k, v)`: a new key goes to the end of the iteration order, a key already
      present keeps its place and takes the new value. */
  function Set<K(!new), V>(m: JsMap<K, V>, k: K, v: V): (r: JsMap<K, V>)
    requires Valid(m)
    ensures Valid(r)
    ensures k in r.values && r.values[k] == v
    ensures forall k' :: k' != k ==> (k' in r.values <==> k' in m.values)
    ensures forall k' :: k' != k && k' in m.values ==> r.values[k'] == m.values[k']
    ensures k in m.values ==> r.order == m.order
    ensures k !in m.values ==> r.order == m.order + [k]
  {
    if k in m.values then JsMap(m.order, m.values[k := v])
    else JsMap(m.order + [k], m.values[k := v])
  }

  /** The keys of a list of entries, in list order. */
  function EntryKeys<K, V>(es: seq<(K, V)>): (ks: seq<K>)
    ensures |ks| == |es|
    ensures forall i :: 0 <= i < |es| ==> ks[i] == es[i].0
  {
    seq(|es|, i requires 0 <= i < |es| => es[i].0)
  }

  /** The elements of `s` in order of first occurrence, each once. */
  function Dedup<K(==, !new)>(s: seq<K>): (r: seq<K>)
    ensures Distinct(r)
    ensures forall k :: k in r <==> k in s
    ensures Distinct(s) ==> r == s
  {
    if |s| == 0 then []
    else
      var d := Dedup(s[..|s| - 1]);
      var last := s[|s| - 1];
      assert s == s[..|s| - 1] + [last];
      if last in d then d else d + [last]
  }

  /** `new Map(entries)`: the entries are set one after the other, so a key keeps the
      place of its first entry and the value of its last one. */
  function FromEntries<K(==, !new), V>(es: seq<(K, V)>): (r: JsMap<K, V>)
    ensures Valid(r)
    ensures r.order == Dedup(EntryKeys(es))
    ensures forall k :: k in r.values <==> k in EntryKeys(es)
  {
    if |es| == 0 then Empty()
    else
      var init := es[..|es| - 1];
      assert EntryKeys(init) == EntryKeys(es)[..|es| - 1];
      Set(FromEntries(init), es[|es| - 1].0, es[|es| - 1].1)
  }

  /** The value bound to a key is the one of the LAST entry carrying that key. */
  lemma {:induction false} FromEntriesLastWins<K(!new), V>(es: seq<(K, V)>, i: nat)
    requires i < |es|
    requires forall j :: i < j < |es| ==> es[j].0 != es[i].0
    ensures es[i].0 in FromEntries(es).values
    ensures FromEntries(es).values[es[i].0] == es[i].1
  {
    if i < |es| - 1 {
      FromEntriesLastWins(es[..|es| - 1], i);
    }
  }

  /** When entries with equal keys carry equal values (no key is given two answers),
      every key is bound to the value of each of its entries. */
  lemma {:induction false} FromEntriesConsistent<K(!new), V>(es: seq<(K, V)>)
    requires forall i, j :: 0 <= i < |es| && 0 <= j < |es| && es[i].0 == es[j].0 ==> es[i].1 == es[j].1
    ensures forall i :: 0 <= i < |es| ==> es[i].0 in FromEntries(es).values
    ensures forall i :: 0 <= i < |es| ==> FromEntries(es).values[es[i].0] == es[i].1
  {
    forall i | 0 <= i < |es|
      ensures es[i].0 in FromEntries(es).values && FromEntries(es).values[es[i].0] == es[i].1
    {
      var j := LastIndexOf(es, i);
      FromEntriesLastWins(es, j);
    }
  }

  /** The last position whose entry has the key of entry `i`. */
  ghost function LastIndexOf<K, V>(es: seq<(K, V)>, i: nat): (j: nat)
    requires i < |es|
    ensures i <= j < |es| && es[j].0 == es[i].0
    ensures forall j' :: j < j' < |es| ==> es[j'].0 != es[i].0
  {
    if es[|es| - 1].0 == es[i].0 then |es| - 1
    else LastIndexOf(es[..|es| - 1], i)
  }
}
