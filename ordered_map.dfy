/**
 * A Python `dict` as the servicer and the registry use it: a finite map whose iteration
 * order is the order in which keys were first inserted. Assigning to an existing key keeps
 * its position; deleting a key keeps the relative order of the others.
 */
module OrderedMaps {
  import opened Wrappers

  ghost predicate Distinct<K>(s: seq<K>) {
    forall i, j :: 0 <= i < j < |s| ==> s[i] != s[j]
  }

  /** `s` with every occurrence of `k` dropped, the rest in the same order. */
  function Without<K(==,!new)>(s: seq<K>, k: K): (r: seq<K>)
    ensures forall x :: x in r <==> x in s && x != k
    ensures |r| <= |s|
    ensures Distinct(s) ==> Distinct(r)
  {
    if s == [] then []
    else if s[0] == k then Without(s[1..], k)
    else
      assert Distinct(s) ==> s[0] !in s[1..];
      [s[0]] + Without(s[1..], k)
  }

  lemma {:induction false} WithoutAbsent<K(!new)>(s: seq<K>, k: K)
    requires k !in s
    ensures Without(s, k) == s
  {
    if s != [] {
      WithoutAbsent(s[1..], k);
    }
  }

  /** `s` without the elements of `gone`, the rest in the same order. */
  function Minus<K(==,!new)>(s: seq<K>, gone: seq<K>): (r: seq<K>)
    ensures forall x :: x in r <==> x in s && x !in gone
    ensures |r| <= |s|
  {
    if s == [] then []
    else (if s[0] in gone then [] else [s[0]]) + Minus(s[1..], gone)
  }

  lemma {:induction false} MinusNothing<K(!new)>(s: seq<K>)
    ensures Minus(s, []) == s
  {
    if s != [] {
      MinusNothing(s[1..]);
      assert [s[0]] + s[1..] == s;
    }
  }

  /** Dropping one more key from a filtered list is filtering by one more key. */
  lemma {:induction false} WithoutMinus<K(!new)>(s: seq<K>, gone: seq<K>, k: K)
    ensures Without(Minus(s, gone), k) == Minus(s, gone + [k])
  {
    if s != [] {
      WithoutMinus(s[1..], gone, k);
      var m := Minus(s[1..], gone);
      var m' := Minus(s[1..], gone + [k]);
      if s[0] in gone {
        assert Minus(s, gone) == [] + m == m;
        assert Minus(s, gone + [k]) == [] + m' == m';
      } else {
        var front := [s[0]] + m;
        assert Minus(s, gone) == front;
        assert front[0] == s[0] && front[1..] == m;
        if s[0] == k {
          assert Without(front, k) == Without(m, k);
          assert Minus(s, gone + [k]) == [] + m' == m';
        } else {
          assert Without(front, k) == [s[0]] + Without(m, k);
          assert Minus(s, gone + [k]) == [s[0]] + m';
        }
      }
    }
  }

  lemma {:induction false} MinusAppend<K(!new)>(s: seq<K>, x: K, gone: seq<K>)
    ensures Minus(s + [x], gone) == Minus(s, gone) + (if x in gone then [] else [x])
  {
    if s == [] {
      assert [x][1..] == [];
    } else {
      assert (s + [x])[1..] == s[1..] + [x];
      MinusAppend(s[1..], x, gone);
    }
  }

  /** Filtering by a key that does not occur changes nothing. */
  lemma {:induction false} MinusIgnores<K(!new)>(s: seq<K>, gone: seq<K>, k: K)
    requires k !in s
    ensures Minus(s, gone + [k]) == Minus(s, gone)
  {
    if s != [] {
      MinusIgnores(s[1..], gone, k);
    }
  }

  lemma {:induction false} DistinctCardinality<K>(s: seq<K>)
    requires Distinct(s)
    ensures |set x | x in s| == |s|
  {
    if s != [] {
      var init := s[..|s| - 1];
      DistinctCardinality(init);
      assert (set x | x in s) == (set x | x in init) + {s[|s| - 1]};
      assert s[|s| - 1] !in init;
    }
  }

  datatype OrderedMap<K(==,!new), V> = OrderedMap(keys: seq<K>, entries: map<K, V>) {

    /** Every key listed once, and the listed keys are exactly the keys of the map. */
    ghost predicate Valid() {
      Distinct(keys) && forall k :: k in entries <==> k in keys
    }

    /** `d.get(k)` */
    function Get(k: K): (r: Option<V>)
      ensures r.Some? <==> k in entries
      ensures r.Some? ==> r.value == entries[k]
    {
      if k in entries then Some(entries[k]) else None
    }

    /** `d[k] = v` */
    function Put(k: K, v: V): (r: OrderedMap<K, V>)
      ensures Valid() ==> r.Valid()
      ensures r.Get(k) == Some(v)
      ensures forall j :: j != k ==> r.Get(j) == Get(j)
      ensures k in entries ==> r.keys == keys
      ensures k !in entries ==> r.keys == keys + [k]
    {
      OrderedMap(if k in entries then keys else keys + [k], entries[k := v])
    }

    /** `del d[k]` when `k` is present; no change otherwise. */
    function Remove(k: K): (r: OrderedMap<K, V>)
      ensures Valid() ==> r.Valid()
      ensures r.Get(k) == None
      ensures forall j :: j != k ==> r.Get(j) == Get(j)
      ensures r.keys == Without(keys, k)
    {
      OrderedMap(Without(keys, k), entries - {k})
    }

    /** `del d[k]` for each `k` of `ks` in turn: the other keys keep their order. */
    function RemoveAll(ks: seq<K>): (r: OrderedMap<K, V>)
      ensures Valid() ==> r.Valid()
      ensures r.entries == entries - (set k | k in ks)
      ensures r.keys == Minus(keys, ks)
      decreases |ks|
    {
      if ks == [] then
        MinusNothing(keys);
        this
      else
        var before := RemoveAll(ks[..|ks| - 1]);
        WithoutMinus(keys, ks[..|ks| - 1], ks[|ks| - 1]);
        assert ks[..|ks| - 1] + [ks[|ks| - 1]] == ks;
        before.Remove(ks[|ks| - 1])
    }

    /** `list(d.values())` */
    function Values(): (vs: seq<V>)
      requires Valid()
      ensures |vs| == |keys| == |entries|
      ensures forall i :: 0 <= i < |keys| ==> vs[i] == entries[keys[i]]
    {
      DistinctCardinality(keys);
      assert entries.Keys == set x | x in keys;
      seq(|keys|, i requires 0 <= i < |keys| => entries[keys[i]])
    }
  }

  lemma RemoveAllStep<K(!new), V>(d: OrderedMap<K, V>, ks: seq<K>, j: nat)
    requires j < |ks|
    ensures d.RemoveAll(ks[..j + 1]) == d.RemoveAll(ks[..j]).Remove(ks[j])
  {
    assert ks[..j + 1][..j] == ks[..j];
  }

  /** Removing an absent key changes nothing. */
  lemma RemoveAbsent<K(!new), V>(d: OrderedMap<K, V>, k: K)
    requires d.Valid() && k !in d.entries
    ensures d.Remove(k) == d
  {
    WithoutAbsent(d.keys, k);
  }

  function Empty<K(==,!new), V>(): (d: OrderedMap<K, V>)
    ensures d.Valid() && d.entries == map[] && d.keys == []
  {
    OrderedMap([], map[])
  }
}
