/** Python dictionaries, whose keys keep their order of insertion: of sets, and of lists. */
module OrderedDict {
  // --- sets by key ------------------------------------------------------------------

  /** One key of a `dict` of sets; `d[key].add(member)` appends a new key. */
  datatype Entry<K, V> = Entry(key: K, members: set<V>)

  ghost predicate UniqueKeys<K, V>(d: seq<Entry<K, V>>) {
    forall i, j :: 0 <= i < j < |d| ==> d[i].key != d[j].key
  }

  ghost predicate NoEmpty<K, V>(d: seq<Entry<K, V>>) {
    forall i :: 0 <= i < |d| ==> d[i].members != {}
  }

  ghost predicate Has<K, V>(d: seq<Entry<K, V>>, k: K, v: V) {
    exists i :: 0 <= i < |d| && d[i].key == k && v in d[i].members
  }

  function IndexOf<K(==), V>(d: seq<Entry<K, V>>, k: K): (i: nat)
    ensures i <= |d|
    ensures i < |d| ==> d[i].key == k
    ensures forall j :: 0 <= j < i ==> d[j].key != k
  {
    if d == [] then 0 else if d[0].key == k then 0 else 1 + IndexOf(d[1..], k)
  }

  function Add<K(==), V>(d: seq<Entry<K, V>>, k: K, v: V): (r: seq<Entry<K, V>>)
    ensures UniqueKeys(d) ==> UniqueKeys(r)
    ensures NoEmpty(d) ==> NoEmpty(r)
  {
    var i := IndexOf(d, k);
    if i < |d| then d[i := Entry(k, d[i].members + {v})] else d + [Entry(k, {v})]
  }

  lemma AddHas<K, V>(d: seq<Entry<K, V>>, k: K, v: V, k': K, v': V)
    requires UniqueKeys(d)
    ensures Has(Add(d, k, v), k', v') <==> Has(d, k', v') || (k' == k && v' == v)
  {
    var i, r := IndexOf(d, k), Add(d, k, v);
    if Has(d, k', v') {
      var j :| 0 <= j < |d| && d[j].key == k' && v' in d[j].members;
      assert r[j].key == k' && v' in r[j].members;
    }
    if k' == k && v' == v {
      assert r[i].key == k && v in r[i].members;
    }
    if Has(r, k', v') {
      var j :| 0 <= j < |r| && r[j].key == k' && v' in r[j].members;
      if j < |d| && !(j == i && v' == v) {
        assert d[j].key == k' && v' in d[j].members;
      }
    }
  }

  // --- lists by key -----------------------------------------------------------------

  datatype Keyed<K, V> = Keyed(key: K, value: V)

  /** A Python `defaultdict(list)`: the lists, and their keys in insertion order. */
  datatype Lists<K(==), V> = Lists(keys: seq<K>, at: map<K, seq<V>>) {
    function Get(k: K): seq<V> {
      if k in at then at[k] else []
    }

    function Append(e: Keyed<K, V>): Lists<K, V> {
      Lists(if e.key in at then keys else keys + [e.key], at[e.key := Get(e.key) + [e.value]])
    }
  }

  /** The keys of `es`, each where it is first met. */
  ghost function KeysOf<K, V>(es: seq<Keyed<K, V>>): seq<K> {
    if es == [] then [] else
      var met, k := KeysOf(es[..|es| - 1]), es[|es| - 1].key;
      if k in met then met else met + [k]
  }

  /** The values filed under `k`, in order. */
  ghost function ValuesAt<K, V>(es: seq<Keyed<K, V>>, k: K): seq<V> {
    if es == [] then [] else
      ValuesAt(es[..|es| - 1], k) + if es[|es| - 1].key == k then [es[|es| - 1].value] else []
  }

  /** `d` is what appending `es` one by one to an empty dictionary gives. */
  ghost predicate Collects<K(!new), V>(d: Lists<K, V>, es: seq<Keyed<K, V>>) {
    && d.keys == KeysOf(es) && (forall k :: k in d.at <==> k in d.keys)
    && (forall k :: d.Get(k) == ValuesAt(es, k))
  }

  lemma CollectsAppend<K(!new), V>(d: Lists<K, V>, es: seq<Keyed<K, V>>, e: Keyed<K, V>)
    requires Collects(d, es)
    ensures Collects(d.Append(e), es + [e])
  {
    assert (es + [e])[..|es|] == es;
    forall k ensures d.Append(e).Get(k) == ValuesAt(es + [e], k) {
      assert d.Get(k) == ValuesAt(es, k);
    }
  }

  lemma {:induction false} ValuesAtMembers<K, V>(es: seq<Keyed<K, V>>, k: K, v: V)
    ensures v in ValuesAt(es, k) <==> Keyed(k, v) in es
  {
    if es != [] {
      ValuesAtMembers(es[..|es| - 1], k, v);
      assert es == es[..|es| - 1] + [es[|es| - 1]];
    }
  }

  lemma {:induction false} KeysOfMembers<K, V>(es: seq<Keyed<K, V>>, k: K)
    ensures k in KeysOf(es) <==> ValuesAt(es, k) != []
  {
    if es != [] {
      KeysOfMembers(es[..|es| - 1], k);
    }
  }

  /** The values of `es`, gathered key by key. */
  ghost function Gathered<K, V>(keys: seq<K>, es: seq<Keyed<K, V>>): seq<V> {
    if keys == [] then [] else Gathered(keys[..|keys| - 1], es) + ValuesAt(es, keys[|keys| - 1])
  }

  ghost function Values<K, V>(es: seq<Keyed<K, V>>): seq<V> {
    if es == [] then [] else Values(es[..|es| - 1]) + [es[|es| - 1].value]
  }

  ghost predicate Distinct<K>(keys: seq<K>) {
    forall i, j :: 0 <= i < j < |keys| ==> keys[i] != keys[j]
  }

  lemma {:induction false} KeysOfDistinct<K, V>(es: seq<Keyed<K, V>>)
    ensures Distinct(KeysOf(es))
  {
    if es != [] {
      KeysOfDistinct(es[..|es| - 1]);
    }
  }

  lemma ValuesAtAppend<K, V>(es: seq<Keyed<K, V>>, e: Keyed<K, V>, k: K)
    ensures ValuesAt(es + [e], k) == ValuesAt(es, k) + if e.key == k then [e.value] else []
  {
    assert (es + [e])[..|es|] == es;
  }

  lemma LastKeyIsNew<K>(keys: seq<K>)
    requires Distinct(keys) && keys != []
    ensures Distinct(keys[..|keys| - 1]) && keys[|keys| - 1] !in keys[..|keys| - 1]
    ensures forall k :: k in keys <==> k in keys[..|keys| - 1] || k == keys[|keys| - 1]
  {
    assert keys == keys[..|keys| - 1] + [keys[|keys| - 1]];
  }

  lemma {:induction false} GatheredAppend<K, V>(keys: seq<K>, es: seq<Keyed<K, V>>, e: Keyed<K, V>)
    requires Distinct(keys)
    ensures multiset(Gathered(keys, es + [e])) ==
            multiset(Gathered(keys, es)) + if e.key in keys then multiset{e.value} else multiset{}
  {
    if keys != [] {
      var front, last := keys[..|keys| - 1], keys[|keys| - 1];
      LastKeyIsNew(keys);
      GatheredAppend(front, es, e);
      ValuesAtAppend(es, e, last);
    }
  }

  /** Gathering by key loses no value and repeats none. */
  lemma {:induction false} GatheringConserves<K, V>(es: seq<Keyed<K, V>>)
    ensures multiset(Gathered(KeysOf(es), es)) == multiset(Values(es))
  {
    if es != [] {
      var front, last := es[..|es| - 1], es[|es| - 1];
      var met := KeysOf(front);
      assert es == front + [last];
      GatheringConserves(front);
      KeysOfDistinct(front);
      GatheredAppend(met, front, last);
      if last.key !in met {
        KeysOfMembers(front, last.key);
        assert (met + [last.key])[..|met|] == met;
      }
    }
  }

  // --- the order of a dictionary of sets ---------------------------------------------

  ghost function KeyList<K, V>(d: seq<Entry<K, V>>): seq<K> {
    seq(|d|, i requires 0 <= i < |d| => d[i].key)
  }

  lemma AddKeepsOrder<K, V>(d: seq<Entry<K, V>>, es: seq<Keyed<K, V>>, k: K, v: V)
    requires KeyList(d) == KeysOf(es)
    ensures KeyList(Add(d, k, v)) == KeysOf(es + [Keyed(k, v)])
  {
    assert (es + [Keyed(k, v)])[..|es|] == es;
    assert IndexOf(d, k) < |d| ==> KeyList(d)[IndexOf(d, k)] == k;
    assert forall i :: 0 <= i < |d| ==> KeyList(d)[i] == d[i].key;
    assert k in KeysOf(es) <==> IndexOf(d, k) < |d|;
  }
}
