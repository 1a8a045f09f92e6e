/**
 * An insertion-ordered map, as `java.util.LinkedHashMap` behaves: a list of key/value pairs
 * with distinct keys, where `put` of a new key appends and `put` of a present key replaces the
 * value in place. `FromEntries` is `Utils.orderedMap`; the evaluation context's variable store
 * is the same structure.
 */
module OrderedMap {
  import opened Wrappers

  type OMap<K, V> = seq<(K, V)>

  function Keys<K, V>(m: OMap<K, V>): (ks: seq<K>)
    ensures |ks| == |m|
    ensures forall i :: 0 <= i < |m| ==> ks[i] == m[i].0
  {
    if m == [] then [] else [m[0].0] + Keys(m[1..])
  }

  predicate Distinct<T(==)>(s: seq<T>) {
    forall i, j :: 0 <= i < j < |s| ==> s[i] != s[j]
  }

  /** The invariant every map built here keeps: no key occurs twice. */
  predicate Valid<K(==), V>(m: OMap<K, V>) {
    Distinct(Keys(m))
  }

  function Get<K(==), V>(m: OMap<K, V>, k: K): (r: Option<V>)
    ensures r.Some? <==> k in Keys(m)
    ensures r.Some? ==> exists i :: 0 <= i < |m| && m[i] == (k, r.value)
  {
    if m == [] then None
    else if m[0].0 == k then Some(m[0].1)
    else Get(m[1..], k)
  }

  /** The position of a present key. */
  function IndexOf<K(==), V>(m: OMap<K, V>, k: K): (i: nat)
    requires k in Keys(m)
    ensures i < |m| && m[i].0 == k
    ensures forall j :: 0 <= j < i ==> m[j].0 != k
  {
    if m[0].0 == k then 0 else 1 + IndexOf(m[1..], k)
  }

  /** `LinkedHashMap.put`. */
  function Put<K(==,!new), V>(m: OMap<K, V>, k: K, v: V): (r: OMap<K, V>)
    requires Valid(m)
    ensures Valid(r)
    ensures Get(r, k) == Some(v)
    ensures forall j :: j != k ==> Get(r, j) == Get(m, j)
    ensures k in Keys(m) ==> Keys(r) == Keys(m)
    ensures k !in Keys(m) ==> Keys(r) == Keys(m) + [k] && r == m + [(k, v)]
  {
    if k in Keys(m) then
      var i := IndexOf(m, k);
      var r := m[i := (k, v)];
      assert Keys(r) == Keys(m);
      LemmaGetUnique(r, i);
      forall j | j != k ensures Get(r, j) == Get(m, j) {
        LemmaGetOtherKey(m, i, v, j);
      }
      r
    else
      var r := m + [(k, v)];
      assert Keys(r) == Keys(m) + [k];
      LemmaGetUnique(r, |m|);
      forall j | j != k ensures Get(r, j) == Get(m, j) {
        LemmaGetAppend(m, k, v, j);
      }
      r
  }

  lemma LemmaGetUnique<K, V>(m: OMap<K, V>, i: nat)
    requires Valid(m) && i < |m|
    ensures Get(m, m[i].0) == Some(m[i].1)
  {
    if i > 0 {
      assert Keys(m[1..])[i - 1] == m[i].0;
      assert Valid(m[1..]) by {
        forall a, b | 0 <= a < b < |m[1..]| ensures Keys(m[1..])[a] != Keys(m[1..])[b] {
          assert Keys(m)[a + 1] != Keys(m)[b + 1];
        }
      }
      LemmaGetUnique(m[1..], i - 1);
      assert m[0].0 != m[i].0 by { assert Keys(m)[0] != Keys(m)[i]; }
    }
  }

  lemma LemmaGetOtherKey<K, V>(m: OMap<K, V>, i: nat, v: V, j: K)
    requires i < |m| && j != m[i].0
    ensures Get(m[i := (m[i].0, v)], j) == Get(m, j)
  {
    if m != [] && i > 0 {
      assert m[i := (m[i].0, v)][1..] == m[1..][i - 1 := (m[i].0, v)];
      LemmaGetOtherKey(m[1..], i - 1, v, j);
    }
  }

  lemma LemmaGetAppend<K, V>(m: OMap<K, V>, k: K, v: V, j: K)
    requires j != k
    ensures Get(m + [(k, v)], j) == Get(m, j)
  {
    if m != [] {
      assert (m + [(k, v)])[1..] == m[1..] + [(k, v)];
      LemmaGetAppend(m[1..], k, v, j);
    }
  }

  /** `Utils.orderedMap(List<Entry>)`: put every entry, in list order. */
  function FromEntries<K(==,!new), V>(entries: seq<(K, V)>): (r: OMap<K, V>)
    ensures Valid(r)
    ensures forall k :: k in Keys(r) <==> k in Keys(entries)
    decreases |entries|
  {
    if entries == [] then []
    else
      var last := entries[|entries| - 1];
      var init := entries[..|entries| - 1];
      assert Keys(entries) == Keys(init) + [last.0];
      Put(FromEntries(init), last.0, last.1)
  }

  lemma LemmaDistinctInit<T>(s: seq<T>)
    requires Distinct(s) && s != []
    ensures Distinct(s[..|s| - 1])
    ensures s[|s| - 1] !in s[..|s| - 1]
  {
  }

  /** With distinct keys, the ordered map is exactly the given pairs, in the given order. */
  lemma {:induction false} LemmaFromDistinctEntries<K(!new), V>(entries: seq<(K, V)>)
    requires Distinct(Keys(entries))
    ensures FromEntries(entries) == entries
    decreases |entries|
  {
    if entries != [] {
      var init := LemmaLastEntryNew(entries);
      LemmaFromDistinctEntries(init);
      LemmaFromEntriesLast(entries);
      assert entries == init + [entries[|entries| - 1]];
    }
  }

  /** The last of distinct entries is new to the ones before it, which are distinct too. */
  lemma LemmaLastEntryNew<K(!new), V>(entries: seq<(K, V)>) returns (init: seq<(K, V)>)
    requires Distinct(Keys(entries)) && entries != []
    ensures init == entries[..|entries| - 1] && Distinct(Keys(init))
    ensures entries[|entries| - 1].0 !in Keys(init)
  {
    init := entries[..|entries| - 1];
    var ks := Keys(entries);
    LemmaDistinctInit(ks);
    assert ks[..|ks| - 1] == Keys(init);
  }

  /** The map of a list of entries is the map of all but the last with the last put in. */
  lemma LemmaFromEntriesLast<K(!new), V>(entries: seq<(K, V)>)
    requires entries != []
    ensures FromEntries(entries) ==
      Put(FromEntries(entries[..|entries| - 1]), entries[|entries| - 1].0, entries[|entries| - 1].1)
  {
  }

  /** Every key maps to the value it was last paired with. */
  lemma {:induction false} LemmaFromEntriesGet<K(!new), V>(entries: seq<(K, V)>, i: nat)
    requires i < |entries|
    requires forall j :: i < j < |entries| ==> entries[j].0 != entries[i].0
    ensures Get(FromEntries(entries), entries[i].0) == Some(entries[i].1)
    decreases |entries|
  {
    var last := entries[|entries| - 1];
    var init := entries[..|entries| - 1];
    if i < |entries| - 1 {
      LemmaFromEntriesGet(init, i);
    }
  }

  /** `Utils.orderedMap(k0, v0, k1, v1)`. */
  function OrderedMap2<K(==,!new), V>(k0: K, v0: V, k1: K, v1: V): (r: OMap<K, V>)
    ensures k0 != k1 ==> Keys(r) == [k0, k1] && Get(r, k0) == Some(v0) && Get(r, k1) == Some(v1)
    ensures k0 != k1 ==> |r| == 2
    ensures k0 == k1 ==> r == [(k0, v1)]
  {
    var entries := [(k0, v0), (k1, v1)];
    if k0 != k1 then
      assert Keys(entries) == [k0, k1];
      LemmaFromDistinctEntries(entries);
      FromEntries(entries)
    else
      assert entries[..1] == [(k0, v0)];
      assert [(k0, v0)][..0] == [];
      assert FromEntries([(k0, v0)]) == [(k0, v0)];
      assert Keys([(k0, v0)]) == [k0];
      FromEntries(entries)
  }

  /** `Utils.orderedMap(k0, v0, k1, v1, k2, v2, k3, v3)`. */
  function OrderedMap4<K(==,!new), V>(k0: K, v0: V, k1: K, v1: V, k2: K, v2: V, k3: K, v3: V): (r: OMap<K, V>)
    ensures Distinct([k0, k1, k2, k3]) ==>
      && Keys(r) == [k0, k1, k2, k3] && |r| == 4
      && Get(r, k0) == Some(v0) && Get(r, k1) == Some(v1)
      && Get(r, k2) == Some(v2) && Get(r, k3) == Some(v3)
  {
    var entries := [(k0, v0), (k1, v1), (k2, v2), (k3, v3)];
    if Distinct([k0, k1, k2, k3]) then
      assert Keys(entries) == [k0, k1, k2, k3];
      LemmaFromDistinctEntries(entries);
      assert Valid(entries);
      LemmaGetUnique(entries, 0);
      LemmaGetUnique(entries, 1);
      LemmaGetUnique(entries, 2);
      LemmaGetUnique(entries, 3);
      FromEntries(entries)
    else
      FromEntries(entries)
  }
}
