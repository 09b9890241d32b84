/**
 * Python's `dict` as the scraper and the combiner use it: keys remember the
 * order of their first insertion, assigning to an existing key replaces its
 * value in place without moving it, and `del` removes a key.
 */
module Dicts {

  predicate Distinct<K(==)>(s: seq<K>) {
    forall i, j :: 0 <= i < j < |s| ==> s[i] != s[j]
  }

  datatype Dict<V> = Dict(keys: seq<string>, values: map<string, V>) {
    /** Every key is listed once, and the listed keys are exactly the mapped ones. */
    ghost predicate Valid() {
      Distinct(keys) && (forall k :: k in values <==> k in keys)
    }
  }

  function Empty<V>(): (d: Dict<V>)
    ensures d.Valid() && d.keys == []
  {
    Dict([], map[])
  }

  /** `d[k] = v` */
  function Put<V>(d: Dict<V>, k: string, v: V): (r: Dict<V>)
    requires d.Valid()
    ensures r.Valid()
    ensures r.values == d.values[k := v]
    ensures k in d.values ==> r.keys == d.keys
    ensures k !in d.values ==> r.keys == d.keys + [k]
  {
    if k in d.values then Dict(d.keys, d.values[k := v]) else Dict(d.keys + [k], d.values[k := v])
  }

  /** The positions of the keys of `ks` that are not in `gone`: ascending, and all of them. */
  function KeptPositions(ks: seq<string>, gone: set<string>): (ps: seq<nat>)
    ensures forall i, j :: 0 <= i < j < |ps| ==> ps[i] < ps[j]
    ensures forall i :: 0 <= i < |ps| ==> ps[i] < |ks|
    ensures forall p :: 0 <= p < |ks| ==> (p in ps <==> ks[p] !in gone)
  {
    if ks == [] then []
    else
      var n := |ks| - 1;
      assert forall p :: 0 <= p < n ==> ks[..n][p] == ks[p];
      KeptPositions(ks[..n], gone) + (if ks[n] in gone then [] else [n])
  }

  /** The keys of `ks` with those of `gone` removed, order kept. */
  function Without(ks: seq<string>, gone: set<string>): (r: seq<string>)
    ensures |r| == |KeptPositions(ks, gone)|
    ensures forall i :: 0 <= i < |r| ==> r[i] == ks[KeptPositions(ks, gone)[i]]
  {
    if ks == [] then []
    else
      var n := |ks| - 1;
      var init := ks[..n];
      assert forall p :: 0 <= p < n ==> init[p] == ks[p];
      assert KeptPositions(ks, gone) == KeptPositions(init, gone) + (if ks[n] in gone then [] else [n]);
      var rest := Without(init, gone);
      if ks[n] in gone then rest
      else
        var r := rest + [ks[n]];
        assert forall i :: 0 <= i < |rest| ==> r[i] == rest[i];
        r
  }

  /** A key is kept exactly when it is listed and not removed. */
  lemma WithoutMembers(ks: seq<string>, gone: set<string>)
    ensures forall k :: k in Without(ks, gone) <==> k in ks && k !in gone
  {
    var ps := KeptPositions(ks, gone);
    var r := Without(ks, gone);
    forall k | k in r
      ensures k in ks && k !in gone
    {
      var i :| 0 <= i < |r| && r[i] == k;
      assert ks[ps[i]] == k && ps[i] in ps;
    }
    forall k | k in ks && k !in gone
      ensures k in r
    {
      var p :| 0 <= p < |ks| && ks[p] == k;
      var i :| 0 <= i < |ps| && ps[i] == p;
      assert r[i] == k;
    }
  }

  /** Removing keys from a list without repeats leaves a list without repeats. */
  lemma WithoutDistinct(ks: seq<string>, gone: set<string>)
    requires Distinct(ks)
    ensures Distinct(Without(ks, gone))
  {
    var ps := KeptPositions(ks, gone);
    var r := Without(ks, gone);
    forall i, j | 0 <= i < j < |r|
      ensures r[i] != r[j]
    {
      assert ps[i] < ps[j] && r[i] == ks[ps[i]] && r[j] == ks[ps[j]];
    }
  }

  /** `for c in gone: del d[c]` */
  function DeleteKeys<V>(d: Dict<V>, gone: set<string>): (r: Dict<V>)
    requires d.Valid()
    ensures r.Valid()
    ensures r.values == d.values - gone
    ensures r.keys == Without(d.keys, gone)
  {
    WithoutMembers(d.keys, gone);
    WithoutDistinct(d.keys, gone);
    Dict(Without(d.keys, gone), d.values - gone)
  }

  /** Removing every listed key leaves no key. */
  lemma WithoutAll(ks: seq<string>, gone: set<string>)
    requires forall k :: k in ks ==> k in gone
    ensures Without(ks, gone) == []
  {
    var ps := KeptPositions(ks, gone);
    forall p | 0 <= p < |ks|
      ensures p !in ps
    {
      assert ks[p] in ks;
    }
    assert forall i :: 0 <= i < |ps| ==> ps[i] in ps;
  }

  /** Deleting every key of a dict empties it. */
  lemma DeleteEveryKey<V>(d: Dict<V>)
    requires d.Valid()
    ensures DeleteKeys(d, set k | k in d.keys) == Dict([], map[])
  {
    WithoutAll(d.keys, set k | k in d.keys);
    assert d.values - (set k | k in d.keys) == map[];
  }
}
