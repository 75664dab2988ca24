/** `impl LowerBound for BTreeMap<T, V>` and `impl UpperBound for BTreeMap<T, V>`:
    the linear scan `iter().position(|(y, _)| ..).ok_or(len)` over the map's
    entries in ascending key order. The comparator sees each key and never
    the value stored with it. */
module MapScan {
  import opened Bound
  import Linear

  /** A `BTreeMap`, seen through `iter()`: its (key, value) entries in
      ascending key order. */
  datatype BTreeMap<K, V> = BTreeMap(entries: seq<(K, V)>)
  {
    /** `BTreeMap::len`. */
    function Len(): nat
    {
      |entries|
    }

    /** The keys, in iteration order. */
    function Keys(): (ks: seq<K>)
      ensures |ks| == |entries|
      ensures forall i :: 0 <= i < |entries| ==> ks[i] == entries[i].0
    {
      seq(|entries|, i requires 0 <= i < |entries| => entries[i].0)
    }

    /** What a `BTreeMap` guarantees of its iteration order: keys strictly ascending. */
    ghost predicate Valid(cmp: (K, K) -> Ordering)
    {
      forall i, j :: 0 <= i < j < |entries| ==> cmp(entries[i].0, entries[j].0) == Less
    }
  }

  lemma ValidIsSorted<K, V>(m: BTreeMap<K, V>, cmp: (K, K) -> Ordering)
    ensures m.Valid(cmp) ==> Sorted(m.Keys(), cmp)
  {
  }

  /** `BTreeMap::lower_bound_by`: scanning the entries while testing only
      their keys gives the linear lower bound of the key sequence. */
  function LowerBoundBy<K, V>(m: BTreeMap<K, V>, f: K -> Ordering): (r: SearchResult)
    ensures r == Linear.LowerBoundBy(m.Keys(), f)
  {
    var r := OkOr(Linear.Position(m.entries, (e: (K, V)) => f(e.0) != Less), m.Len());
    Linear.FirstNotLessUnique(m.Keys(), f, r, Linear.LowerBoundBy(m.Keys(), f));
    r
  }

  /** `BTreeMap::upper_bound_by`: scanning the entries while testing only
      their keys gives the linear upper bound of the key sequence. */
  function UpperBoundBy<K, V>(m: BTreeMap<K, V>, f: K -> Ordering): (r: SearchResult)
    ensures r == Linear.UpperBoundBy(m.Keys(), f)
  {
    var r := OkOr(Linear.Position(m.entries, (e: (K, V)) => f(e.0) == Greater), m.Len());
    Linear.FirstGreaterUnique(m.Keys(), f, r, Linear.UpperBoundBy(m.Keys(), f));
    r
  }

  /** `BTreeMap::lower_bound`: the position of the first key not less than
      `x`; in a valid map every key before it is less than `x`. */
  function LowerBound<K(!new), V>(m: BTreeMap<K, V>, x: K, cmp: (K, K) -> Ordering): (r: SearchResult)
    ensures r.index <= m.Len() && (r.Err? <==> r.index == m.Len())
    ensures TotalOrder(cmp) && m.Valid(cmp) ==>
      && (forall j :: 0 <= j < r.index ==> cmp(m.entries[j].0, x) == Less)
      && (forall j :: r.index <= j < m.Len() ==> cmp(m.entries[j].0, x) != Less)
  {
    ValidIsSorted(m, cmp);
    Linear.SortedMonotone(m.Keys(), cmp, x);
    Linear.LowerBoundSplits(m.Keys(), ValueCmp(cmp, x));
    LowerBoundBy(m, ValueCmp(cmp, x))
  }

  /** `BTreeMap::upper_bound`: the position of the first key greater than
      `x`; in a valid map every key before it is at most `x`. */
  function UpperBound<K(!new), V>(m: BTreeMap<K, V>, x: K, cmp: (K, K) -> Ordering): (r: SearchResult)
    ensures r.index <= m.Len() && (r.Err? <==> r.index == m.Len())
    ensures TotalOrder(cmp) && m.Valid(cmp) ==>
      && (forall j :: 0 <= j < r.index ==> cmp(m.entries[j].0, x) != Greater)
      && (forall j :: r.index <= j < m.Len() ==> cmp(m.entries[j].0, x) == Greater)
  {
    ValidIsSorted(m, cmp);
    Linear.SortedMonotone(m.Keys(), cmp, x);
    Linear.UpperBoundSplits(m.Keys(), ValueCmp(cmp, x));
    UpperBoundBy(m, ValueCmp(cmp, x))
  }

  /** `BTreeMap::lower_bound_by_key`: the first key whose derived key is not
      less than `k`. */
  function LowerBoundByKey<K, V, J>(m: BTreeMap<K, V>, k: J, key: K -> J, cmp: (J, J) -> Ordering): (r: SearchResult)
    ensures r.index <= m.Len() && (r.Err? <==> r.index == m.Len())
    ensures forall j :: 0 <= j < r.index ==> cmp(key(m.entries[j].0), k) == Less
    ensures r.index < m.Len() ==> cmp(key(m.entries[r.index].0), k) != Less
  {
    LowerBoundBy(m, KeyCmp(key, cmp, k))
  }

  /** `BTreeMap::upper_bound_by_key`: the first key whose derived key is
      greater than `k`. */
  function UpperBoundByKey<K, V, J>(m: BTreeMap<K, V>, k: J, key: K -> J, cmp: (J, J) -> Ordering): (r: SearchResult)
    ensures r.index <= m.Len() && (r.Err? <==> r.index == m.Len())
    ensures forall j :: 0 <= j < r.index ==> cmp(key(m.entries[j].0), k) != Greater
    ensures r.index < m.Len() ==> cmp(key(m.entries[r.index].0), k) == Greater
  {
    UpperBoundBy(m, KeyCmp(key, cmp, k))
  }

  /** Two maps with the same keys in the same order answer every query alike,
      whatever values they hold. */
  lemma IgnoresValues<K, V, W>(m1: BTreeMap<K, V>, m2: BTreeMap<K, W>, f: K -> Ordering)
    requires |m1.entries| == |m2.entries|
    requires forall i :: 0 <= i < |m1.entries| ==> m1.entries[i].0 == m2.entries[i].0
    ensures LowerBoundBy(m1, f) == LowerBoundBy(m2, f)
    ensures UpperBoundBy(m1, f) == UpperBoundBy(m2, f)
  {
    assert m1.Keys() == m2.Keys();
  }
}
