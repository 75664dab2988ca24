/** `impl LowerBound for BTreeSet<T>` and `impl UpperBound for BTreeSet<T>`:
    the linear scan `iter().position(..).ok_or(len)` over the set's ascending
    iteration order. */
module SetScan {
  import opened Bound
  import Linear

  /** A `BTreeSet`, seen through `iter()`: its elements in ascending order. */
  datatype BTreeSet<T> = BTreeSet(elems: seq<T>)
  {
    /** `BTreeSet::len`. */
    function Len(): nat
    {
      |elems|
    }

    /** What a `BTreeSet` guarantees of its iteration order: strictly ascending. */
    ghost predicate Valid(cmp: (T, T) -> Ordering)
    {
      forall i, j :: 0 <= i < j < |elems| ==> cmp(elems[i], elems[j]) == Less
    }
  }

  lemma ValidIsSorted<T>(t: BTreeSet<T>, cmp: (T, T) -> Ordering)
    ensures t.Valid(cmp) ==> Sorted(t.elems, cmp)
  {
  }

  /** `BTreeSet::lower_bound_by`: the first member `f` does not call `Less`,
      or `Err(len)`; when those members form a suffix, the answer splits the
      set there. */
  function LowerBoundBy<T>(t: BTreeSet<T>, f: T -> Ordering): (r: SearchResult)
    ensures Linear.FirstNotLess(t.elems, f, r)
    ensures Linear.LowerMonotone(t.elems, f) ==> Linear.LowerPartitioned(t.elems, f, r.index)
  {
    Linear.LowerBoundSplits(t.elems, f);
    Linear.LowerBoundBy(t.elems, f)
  }

  /** `BTreeSet::upper_bound_by`: the first member `f` calls `Greater`, or
      `Err(len)`; when those members form a suffix, the answer splits the set
      there. */
  function UpperBoundBy<T>(t: BTreeSet<T>, f: T -> Ordering): (r: SearchResult)
    ensures Linear.FirstGreater(t.elems, f, r)
    ensures Linear.UpperMonotone(t.elems, f) ==> Linear.UpperPartitioned(t.elems, f, r.index)
  {
    Linear.UpperBoundSplits(t.elems, f);
    Linear.UpperBoundBy(t.elems, f)
  }

  /** `BTreeSet::lower_bound`: the position of the first member not less than
      `x`, so that every member before it is less than `x`. */
  function LowerBound<T(!new)>(t: BTreeSet<T>, x: T, cmp: (T, T) -> Ordering): (r: SearchResult)
    ensures r.index <= t.Len() && (r.Err? <==> r.index == t.Len())
    ensures TotalOrder(cmp) && t.Valid(cmp) ==>
      && (forall j :: 0 <= j < r.index ==> cmp(t.elems[j], x) == Less)
      && (forall j :: r.index <= j < t.Len() ==> cmp(t.elems[j], x) != Less)
  {
    ValidIsSorted(t, cmp);
    Linear.SortedMonotone(t.elems, cmp, x);
    LowerBoundBy(t, ValueCmp(cmp, x))
  }

  /** `BTreeSet::upper_bound`: the position of the first member greater than
      `x`, so that every member before it is at most `x`. */
  function UpperBound<T(!new)>(t: BTreeSet<T>, x: T, cmp: (T, T) -> Ordering): (r: SearchResult)
    ensures r.index <= t.Len() && (r.Err? <==> r.index == t.Len())
    ensures TotalOrder(cmp) && t.Valid(cmp) ==>
      && (forall j :: 0 <= j < r.index ==> cmp(t.elems[j], x) != Greater)
      && (forall j :: r.index <= j < t.Len() ==> cmp(t.elems[j], x) == Greater)
  {
    ValidIsSorted(t, cmp);
    Linear.SortedMonotone(t.elems, cmp, x);
    UpperBoundBy(t, ValueCmp(cmp, x))
  }

  /** `BTreeSet::lower_bound_by_key`: the first member whose key is not less
      than `k`; for members ordered by that key, every later key is not less. */
  function LowerBoundByKey<T, K(!new)>(t: BTreeSet<T>, k: K, key: T -> K, cmp: (K, K) -> Ordering): (r: SearchResult)
    ensures r.index <= t.Len() && (r.Err? <==> r.index == t.Len())
    ensures forall j :: 0 <= j < r.index ==> cmp(key(t.elems[j]), k) == Less
    ensures r.index < t.Len() ==> cmp(key(t.elems[r.index]), k) != Less
    ensures TotalOrder(cmp) && SortedBy(t.elems, key, cmp) ==>
      forall j :: r.index <= j < t.Len() ==> cmp(key(t.elems[j]), k) != Less
  {
    Linear.SortedByMonotone(t.elems, key, cmp, k);
    LowerBoundBy(t, KeyCmp(key, cmp, k))
  }

  /** `BTreeSet::upper_bound_by_key`: the first member whose key is greater
      than `k`; for members ordered by that key, every later key is greater. */
  function UpperBoundByKey<T, K(!new)>(t: BTreeSet<T>, k: K, key: T -> K, cmp: (K, K) -> Ordering): (r: SearchResult)
    ensures r.index <= t.Len() && (r.Err? <==> r.index == t.Len())
    ensures forall j :: 0 <= j < r.index ==> cmp(key(t.elems[j]), k) != Greater
    ensures r.index < t.Len() ==> cmp(key(t.elems[r.index]), k) == Greater
    ensures TotalOrder(cmp) && SortedBy(t.elems, key, cmp) ==>
      forall j :: r.index <= j < t.Len() ==> cmp(key(t.elems[j]), k) == Greater
  {
    Linear.SortedByMonotone(t.elems, key, cmp, k);
    UpperBoundBy(t, KeyCmp(key, cmp, k))
  }

  /** In a set, where no two members compare `Equal`, the upper bound of `x`
      is one past the lower bound exactly when `x` is a member. */
  lemma UpperIsLowerPlusMembership<T(!new)>(t: BTreeSet<T>, x: T, cmp: (T, T) -> Ordering)
    requires TotalOrder(cmp) && t.Valid(cmp)
    ensures UpperBound(t, x, cmp).index == LowerBound(t, x, cmp).index + (if Contains(t.elems, cmp, x) then 1 else 0)
  {
    var lo, up := LowerBound(t, x, cmp), UpperBound(t, x, cmp);
    ValidIsSorted(t, cmp);
    Linear.LowerNotAboveUpper(t.elems, cmp, x);
    if Contains(t.elems, cmp, x) {
      var k :| 0 <= k < |t.elems| && cmp(t.elems[k], x) == Equal;
      assert lo.index == k;
      if k + 1 < |t.elems| {
        assert cmp(t.elems[k], t.elems[k + 1]) == Less;
      }
      assert up.index == k + 1;
    }
  }
}
