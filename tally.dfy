/**
 * Counting maps built the way the registry's statistics build them: for each item in turn,
 * `counts[item] = counts.get(item, 0) + 1`.
 */
module Tally {

  ghost function PickKey<K(!new)>(m: map<K, nat>): (k: K)
    requires m != map[]
    ensures k in m
  {
    var k :| k in m; k
  }

  /** Sum of the values of a map, independent of any iteration order. */
  ghost function SumValues<K(!new)>(m: map<K, nat>): nat
    decreases m.Keys
  {
    if m == map[] then 0
    else
      var k := PickKey(m);
      m[k] + SumValues(m - {k})
  }

  /** Whatever key is taken out first, the sum is the same. */
  lemma {:induction false} SumValuesRemove<K(!new)>(m: map<K, nat>, k: K)
    requires k in m
    ensures SumValues(m) == m[k] + SumValues(m - {k})
    decreases m.Keys
  {
    var j := PickKey(m);
    if j != k {
      assert (m - {j}) - {k} == (m - {k}) - {j};
      SumValuesRemove(m - {j}, k);
      SumValuesRemove(m - {k}, j);
    }
  }

  /** One counting step: `counts[k] = counts.get(k, 0) + 1`. */
  function Bump<K(!new)>(counts: map<K, nat>, k: K): (r: map<K, nat>)
    ensures r.Keys == counts.Keys + {k}
    ensures k !in counts ==> r[k] == 1
    ensures k in counts ==> r[k] == counts[k] + 1
    ensures forall j :: j in counts && j != k ==> r[j] == counts[j]
    ensures SumValues(r) == SumValues(counts) + 1
  {
    var r := counts[k := (if k in counts then counts[k] else 0) + 1];
    SumValuesRemove(r, k);
    if k in counts then
      assert r - {k} == counts - {k};
      SumValuesRemove(counts, k);
      r
    else
      assert r - {k} == counts;
      r
  }

  /**
   * `counts` tallies `items`: its keys are exactly the items that occur, each value is the
   * number of occurrences, and so the values add up to the number of items.
   */
  ghost predicate IsTally<K(!new)>(counts: map<K, nat>, items: seq<K>) {
    && (forall k :: k in counts <==> k in items)
    && (forall k :: k in counts ==> counts[k] == multiset(items)[k])
    && SumValues(counts) == |items|
  }

  lemma TallyEmpty<K(!new)>(items: seq<K>)
    requires items == []
    ensures IsTally(map[], items)
  {
  }

  lemma TallyStep<K(!new)>(counts: map<K, nat>, items: seq<K>, k: K)
    requires IsTally(counts, items)
    ensures IsTally(Bump(counts, k), items + [k])
  {
    assert multiset(items + [k]) == multiset(items) + multiset{k};
  }

  /** The tally of a sequence is unique: two maps that both tally it are equal. */
  lemma TallyUnique<K(!new)>(c1: map<K, nat>, c2: map<K, nat>, items: seq<K>)
    requires IsTally(c1, items) && IsTally(c2, items)
    ensures c1 == c2
  {
  }
}
