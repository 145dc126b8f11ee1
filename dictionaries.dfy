/** A .NET `Dictionary<K, V>` from which nothing is ever removed, as the three registry
    dictionaries of ProviderFactory are. .NET leaves the enumeration order of `Keys` and
    `Values` unspecified; the model fixes it to the order the keys were first added, which is
    what the implementation does when nothing is removed. Writing to a present key replaces
    its value and keeps its place. */
module Dictionaries {

  datatype Dict<K, V> = Dict(keys: seq<K>, entries: map<K, V>)

  /** The result of the indexer read `d[k]`. */
  datatype Lookup<V> = Found(value: V) | KeyNotFound

  ghost predicate Distinct<K>(s: seq<K>) {
    forall i, j :: 0 <= i < j < |s| ==> s[i] != s[j]
  }

  /** The enumeration order lists every key exactly once. */
  ghost predicate Valid<K, V>(d: Dict<K, V>) {
    && Distinct(d.keys)
    && d.entries.Keys == set k | k in d.keys
  }

  function Empty<K, V>(): (d: Dict<K, V>)
    ensures Valid(d) && |d.keys| == 0
  {
    Dict([], map[])
  }

  /** The indexer read `d[k]`: throws KeyNotFoundException when k is absent. */
  function Get<K, V>(d: Dict<K, V>, k: K): (r: Lookup<V>)
    ensures r.Found? <==> k in d.entries
    ensures r.Found? ==> r.value == d.entries[k]
  {
    if k in d.entries then Found(d.entries[k]) else KeyNotFound
  }

  /** The indexer write `d[k] = v`: a present key keeps its place and takes the new value,
      an absent one is enumerated last. */
  function Put<K, V>(d: Dict<K, V>, k: K, v: V): (r: Dict<K, V>)
    requires Valid(d)
    ensures Valid(r)
    ensures r.entries == d.entries[k := v]
    ensures k in d.entries ==> r.keys == d.keys
    ensures k !in d.entries ==> r.keys == d.keys + [k]
  {
    if k in d.entries then Dict(d.keys, d.entries[k := v])
    else Dict(d.keys + [k], d.entries[k := v])
  }

  /** `d.Values`, in enumeration order. */
  function Values<K, V>(d: Dict<K, V>): (vs: seq<V>)
    requires Valid(d)
    ensures |vs| == |d.keys|
    ensures forall i :: 0 <= i < |vs| ==> vs[i] == d.entries[d.keys[i]]
  {
    seq(|d.keys|, i requires 0 <= i < |d.keys| => d.entries[d.keys[i]])
  }

  lemma {:induction false} DistinctCard<K>(s: seq<K>)
    requires Distinct(s)
    ensures |set k | k in s| == |s|
  {
    if s != [] {
      var init := s[..|s| - 1];
      var last := s[|s| - 1];
      assert Distinct(init);
      DistinctCard(init);
      assert (set k | k in s) == (set k | k in init) + {last} by {
        forall k ensures k in s <==> k in init || k == last {
          assert s == init + [last];
        }
      }
      assert last !in (set k | k in init);
    }
  }

  /** `d.Count` is the number of keys enumerated. */
  lemma EntryCount<K, V>(d: Dict<K, V>)
    requires Valid(d)
    ensures |d.entries| == |d.keys|
  {
    DistinctCard(d.keys);
  }
}
