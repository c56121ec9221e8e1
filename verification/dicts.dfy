/**
 * Python dictionaries, which remember insertion order: the keys in the order they were
 * first assigned, and the map from keys to values. Assigning to an existing key keeps its
 * position; a new key goes last.
 */
module Dicts {
  import opened Common
  import Seqs

  datatype Dict<K, V> = Dict(keys: seq<K>, values: map<K, V>)

  /** `{}`. */
  function Empty<K, V>(): Dict<K, V> {
    Dict([], map[])
  }

  /** The shape of every dictionary the program builds: each key listed once, and listed exactly when it has a value. */
  ghost predicate Valid<K(!new), V>(d: Dict<K, V>) {
    && (forall i, j :: 0 <= i < j < |d.keys| ==> d.keys[i] != d.keys[j])
    && (forall k :: k in d.values <==> k in d.keys)
  }

  /** `d.get(k)`. */
  function Get<K, V>(d: Dict<K, V>, k: K): Option<V> {
    if k in d.values then Some(d.values[k]) else None
  }

  /** `d[k] = v`. */
  function Put<K(!new), V>(d: Dict<K, V>, k: K, v: V): (r: Dict<K, V>)
    ensures Get(r, k) == Some(v)
    ensures forall k' :: k' != k ==> Get(r, k') == Get(d, k')
    ensures k in d.values ==> r.keys == d.keys
    ensures k !in d.values ==> r.keys == d.keys + [k]
  {
    Dict(if k in d.values then d.keys else d.keys + [k], d.values[k := v])
  }

  /** Assignment keeps a dictionary well formed. */
  lemma PutValid<K(!new), V>(d: Dict<K, V>, k: K, v: V)
    requires Valid(d)
    ensures Valid(Put(d, k, v))
  {
    var r := Put(d, k, v);
    if k !in d.values {
      forall i, j | 0 <= i < j < |r.keys| ensures r.keys[i] != r.keys[j] {
        if j == |d.keys| {
          assert r.keys[i] == d.keys[i];
        }
      }
    }
  }

  lemma EmptyValid<K(!new), V>()
    ensures Valid(Empty<K, V>())
  {
  }

  /** The entries of the map listed under keys `ks`, in that order; keys without a value are skipped. */
  function ItemsOf<K, V>(ks: seq<K>, m: map<K, V>): seq<(K, V)> {
    if |ks| == 0 then []
    else (if ks[0] in m then [(ks[0], m[ks[0]])] else []) + ItemsOf(ks[1..], m)
  }

  /** Every item listed is an entry of the map, and no key yields more than one item. */
  lemma {:induction false} ItemsOfEntries<K, V>(ks: seq<K>, m: map<K, V>)
    ensures |ItemsOf(ks, m)| <= |ks|
    ensures forall i :: 0 <= i < |ItemsOf(ks, m)| ==> ItemsOf(ks, m)[i].0 in m && m[ItemsOf(ks, m)[i].0] == ItemsOf(ks, m)[i].1
  {
    if |ks| > 0 {
      ItemsOfEntries(ks[1..], m);
    }
  }

  /** `list(d.items())`. */
  function Items<K, V>(d: Dict<K, V>): seq<(K, V)> {
    ItemsOf(d.keys, d.values)
  }

  /** The keys of a list of pairs, in order. */
  function KeysOf<K, V>(ps: seq<(K, V)>): seq<K> {
    if |ps| == 0 then [] else [ps[0].0] + KeysOf(ps[1..])
  }

  /** The keys are listed one for one, in order. */
  lemma {:induction false} KeysOfIndex<K, V>(ps: seq<(K, V)>)
    ensures |KeysOf(ps)| == |ps|
    ensures forall i :: 0 <= i < |ps| ==> KeysOf(ps)[i] == ps[i].0
  {
    if |ps| > 0 {
      KeysOfIndex(ps[1..]);
    }
  }

  /**
   * A list of pairs that are all entries of `m`, read back through its keys, is the list
   * itself: so `dict(pairs)` lists exactly `pairs` when they come from one dictionary.
   */
  lemma {:induction false} ItemsOfKeys<K, V>(ps: seq<(K, V)>, m: map<K, V>)
    requires forall i :: 0 <= i < |ps| ==> ps[i].0 in m && m[ps[i].0] == ps[i].1
    ensures ItemsOf(KeysOf(ps), m) == ps
  {
    if |ps| > 0 {
      assert KeysOf(ps)[1..] == KeysOf(ps[1..]);
      ItemsOfKeys(ps[1..], m);
    }
  }

  /** In a well-formed dictionary the items are the keys in order, each with its value. */
  lemma {:induction false} ItemsOfValid<K, V>(ks: seq<K>, m: map<K, V>)
    requires forall i :: 0 <= i < |ks| ==> ks[i] in m
    ensures |ItemsOf(ks, m)| == |ks|
    ensures forall i :: 0 <= i < |ks| ==> ItemsOf(ks, m)[i] == (ks[i], m[ks[i]])
  {
    if |ks| > 0 {
      ItemsOfValid(ks[1..], m);
      forall i | 0 < i < |ks| ensures ItemsOf(ks, m)[i] == (ks[i], m[ks[i]]) {
        assert ks[1..][i - 1] == ks[i];
      }
    }
  }

  /** A pair is an item of a well-formed dictionary exactly when it is one of its entries. */
  lemma ItemsIff<K(!new), V>(d: Dict<K, V>, e: (K, V))
    requires Valid(d)
    ensures e in Items(d) <==> Get(d, e.0) == Some(e.1)
  {
    ItemsOfValid(d.keys, d.values);
    if Get(d, e.0) == Some(e.1) {
      var i :| 0 <= i < |d.keys| && d.keys[i] == e.0;
      assert Items(d)[i] == e;
    }
  }

  /** In a well-formed dictionary no item is listed twice. */
  lemma ItemsDistinct<K(!new), V>(d: Dict<K, V>)
    requires Valid(d)
    ensures Seqs.Distinct(Items(d))
  {
    ItemsOfValid(d.keys, d.values);
  }

  /** Pairs without repeats that are all entries of one map have distinct keys. */
  lemma EntriesKeysDistinct<K, V>(ps: seq<(K, V)>, m: map<K, V>)
    requires Seqs.Distinct(ps)
    requires forall i :: 0 <= i < |ps| ==> ps[i].0 in m && m[ps[i].0] == ps[i].1
    ensures Seqs.Distinct(KeysOf(ps))
  {
    KeysOfIndex(ps);
    forall i, j | 0 <= i < j < |ps| ensures KeysOf(ps)[i] != KeysOf(ps)[j] {
      assert ps[i] != ps[j];
      assert m[ps[i].0] == ps[i].1 && m[ps[j].0] == ps[j].1;
    }
  }

  /** A rearrangement of the items of a well-formed dictionary still names every key. */
  lemma PermutedItemsCoverKeys<K(!new), V>(d: Dict<K, V>, ps: seq<(K, V)>)
    requires Valid(d) && multiset(ps) == multiset(Items(d))
    ensures forall k :: k in d.values ==> k in KeysOf(ps)
  {
    ItemsOfValid(d.keys, d.values);
    KeysOfIndex(ps);
    forall k | k in d.values ensures k in KeysOf(ps) {
      var i :| 0 <= i < |d.keys| && d.keys[i] == k;
      assert Items(d)[i] in multiset(ps);
      var j :| 0 <= j < |ps| && ps[j] == Items(d)[i];
      assert KeysOf(ps)[j] == k;
    }
  }

  /**
   * `dict(pairs)` over a rearrangement of a well-formed dictionary's items is well formed:
   * every key is listed once, and exactly the keys with values are listed.
   */
  lemma PermutedItemsValid<K(!new), V>(d: Dict<K, V>, ps: seq<(K, V)>)
    requires Valid(d) && multiset(ps) == multiset(Items(d))
    requires forall i :: 0 <= i < |ps| ==> ps[i].0 in d.values && d.values[ps[i].0] == ps[i].1
    ensures Valid(Dict(KeysOf(ps), d.values))
  {
    var ks := KeysOf(ps);
    assert Seqs.Distinct(ks) by {
      ItemsDistinct(d);
      Seqs.DistinctPermutation(Items(d), ps);
      EntriesKeysDistinct(ps, d.values);
    }
    assert forall k :: k in d.values ==> k in ks by {
      PermutedItemsCoverKeys(d, ps);
    }
    forall k | k in ks ensures k in d.values {
      var i :| 0 <= i < |ks| && ks[i] == k;
      KeysOfIndex(ps);
      assert ks[i] == ps[i].0;
    }
  }
}
