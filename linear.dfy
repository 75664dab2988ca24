/** The linear reading of both searches, `iter().position(pred).ok_or(len)`:
    the one-line definition the binary searches replace (the commented-out
    line in each of them) and the body of the `BinaryHeap`, `BTreeMap` and
    `BTreeSet` impls. The laws that hold of every container live here. */
module Linear {
  import opened Bound

  /** `Iterator::position`: the index of the first element satisfying `p`. */
  function Position<E>(s: seq<E>, p: E -> bool): (r: Option<nat>)
    ensures r.Some? ==> r.value < |s| && p(s[r.value])
    ensures r.Some? ==> forall j :: 0 <= j < r.value ==> !p(s[j])
    ensures r.None? ==> forall j :: 0 <= j < |s| ==> !p(s[j])
  {
    if |s| == 0 then None
    else if p(s[0]) then Some(0)
    else match Position(s[1..], p)
      case None => None
      case Some(i) => Some(i + 1)
  }

  /** `r` is the lower-bound answer on `s`: the first index whose element `f`
      does not call `Less`, as `Ok`, or `Err(|s|)` when there is none. */
  ghost predicate FirstNotLess<T>(s: seq<T>, f: T -> Ordering, r: SearchResult)
  {
    && r.index <= |s|
    && (r.Err? <==> r.index == |s|)
    && (forall j :: 0 <= j < r.index ==> f(s[j]) == Less)
    && (r.index < |s| ==> f(s[r.index]) != Less)
  }

  /** `r` is the upper-bound answer on `s`: the first index whose element `f`
      calls `Greater`, as `Ok`, or `Err(|s|)` when there is none. */
  ghost predicate FirstGreater<T>(s: seq<T>, f: T -> Ordering, r: SearchResult)
  {
    && r.index <= |s|
    && (r.Err? <==> r.index == |s|)
    && (forall j :: 0 <= j < r.index ==> f(s[j]) != Greater)
    && (r.index < |s| ==> f(s[r.index]) == Greater)
  }

  /** `iter().position(|e| f(e) != Ordering::Less).ok_or(len)`. */
  function LowerBoundBy<T>(s: seq<T>, f: T -> Ordering): (r: SearchResult)
    ensures FirstNotLess(s, f, r)
  {
    OkOr(Position(s, (y: T) => f(y) != Less), |s|)
  }

  /** `iter().position(|e| f(e) == Ordering::Greater).ok_or(len)`. */
  function UpperBoundBy<T>(s: seq<T>, f: T -> Ordering): (r: SearchResult)
    ensures FirstGreater(s, f, r)
  {
    OkOr(Position(s, (y: T) => f(y) == Greater), |s|)
  }

  lemma FirstNotLessUnique<T>(s: seq<T>, f: T -> Ordering, r1: SearchResult, r2: SearchResult)
    requires FirstNotLess(s, f, r1) && FirstNotLess(s, f, r2)
    ensures r1 == r2
  {
  }

  lemma FirstGreaterUnique<T>(s: seq<T>, f: T -> Ordering, r1: SearchResult, r2: SearchResult)
    requires FirstGreater(s, f, r1) && FirstGreater(s, f, r2)
    ensures r1 == r2
  {
  }

  /** The order the lower bound needs: the elements `f` calls `Less` form a prefix. */
  ghost predicate LowerMonotone<T>(s: seq<T>, f: T -> Ordering)
  {
    forall i, j :: 0 <= i < j < |s| && f(s[j]) == Less ==> f(s[i]) == Less
  }

  /** The order the upper bound needs: the elements `f` calls `Greater` form a suffix. */
  ghost predicate UpperMonotone<T>(s: seq<T>, f: T -> Ordering)
  {
    forall i, j :: 0 <= i < j < |s| && f(s[i]) == Greater ==> f(s[j]) == Greater
  }

  /** `i` splits `s` into a `Less` prefix and a not-`Less` suffix. */
  ghost predicate LowerPartitioned<T>(s: seq<T>, f: T -> Ordering, i: nat)
  {
    && i <= |s|
    && (forall j :: 0 <= j < i ==> f(s[j]) == Less)
    && (forall j :: i <= j < |s| ==> f(s[j]) != Less)
  }

  /** `i` splits `s` into a not-`Greater` prefix and a `Greater` suffix. */
  ghost predicate UpperPartitioned<T>(s: seq<T>, f: T -> Ordering, i: nat)
  {
    && i <= |s|
    && (forall j :: 0 <= j < i ==> f(s[j]) != Greater)
    && (forall j :: i <= j < |s| ==> f(s[j]) == Greater)
  }

  /** For a monotone comparator the lower bound is pinned down by two
      neighbouring probes: `Less` just before `i`, not `Less` at `i`. */
  lemma LowerBoundAt<T>(s: seq<T>, f: T -> Ordering, i: nat)
    requires i <= |s|
    requires LowerMonotone(s, f)
    requires 0 < i ==> f(s[i - 1]) == Less
    requires i < |s| ==> f(s[i]) != Less
    ensures LowerBoundBy(s, f) == (if i == |s| then Err(i) else Ok(i))
    ensures LowerPartitioned(s, f, i)
  {
    FirstNotLessUnique(s, f, LowerBoundBy(s, f), if i == |s| then Err(i) else Ok(i));
  }

  /** For a monotone comparator the upper bound is pinned down by two
      neighbouring probes: not `Greater` just before `i`, `Greater` at `i`. */
  lemma UpperBoundAt<T>(s: seq<T>, f: T -> Ordering, i: nat)
    requires i <= |s|
    requires UpperMonotone(s, f)
    requires 0 < i ==> f(s[i - 1]) != Greater
    requires i < |s| ==> f(s[i]) == Greater
    ensures UpperBoundBy(s, f) == (if i == |s| then Err(i) else Ok(i))
    ensures UpperPartitioned(s, f, i)
  {
    FirstGreaterUnique(s, f, UpperBoundBy(s, f), if i == |s| then Err(i) else Ok(i));
  }

  /** A sequence sorted under a total order makes the value comparator monotone
      for both searches, whatever the query. */
  lemma SortedMonotone<T(!new)>(s: seq<T>, cmp: (T, T) -> Ordering, x: T)
    ensures TotalOrder(cmp) && Sorted(s, cmp) ==>
      LowerMonotone(s, ValueCmp(cmp, x)) && UpperMonotone(s, ValueCmp(cmp, x))
  {
    if TotalOrder(cmp) && Sorted(s, cmp) {
      forall i, j | 0 <= i < j < |s| && cmp(s[j], x) == Less
        ensures cmp(s[i], x) == Less
      {
        LeLessTrans(cmp, s[i], s[j], x);
      }
      forall i, j | 0 <= i < j < |s| && cmp(s[i], x) == Greater
        ensures cmp(s[j], x) == Greater
      {
        LessLeTrans(cmp, x, s[i], s[j]);
      }
    }
  }

  /** The same for a sequence sorted by a key and a key comparator. */
  lemma SortedByMonotone<T, K(!new)>(s: seq<T>, key: T -> K, cmp: (K, K) -> Ordering, k: K)
    ensures TotalOrder(cmp) && SortedBy(s, key, cmp) ==>
      LowerMonotone(s, KeyCmp(key, cmp, k)) && UpperMonotone(s, KeyCmp(key, cmp, k))
  {
    if TotalOrder(cmp) && SortedBy(s, key, cmp) {
      forall i, j | 0 <= i < j < |s| && cmp(key(s[j]), k) == Less
        ensures cmp(key(s[i]), k) == Less
      {
        LeLessTrans(cmp, key(s[i]), key(s[j]), k);
      }
      forall i, j | 0 <= i < j < |s| && cmp(key(s[i]), k) == Greater
        ensures cmp(key(s[j]), k) == Greater
      {
        LessLeTrans(cmp, k, key(s[i]), key(s[j]));
      }
    }
  }

  /** Under a monotone comparator the linear lower bound splits `s` into the
      `Less` prefix and the not-`Less` suffix. */
  lemma LowerBoundSplits<T>(s: seq<T>, f: T -> Ordering)
    ensures LowerMonotone(s, f) ==> LowerPartitioned(s, f, LowerBoundBy(s, f).index)
  {
    if LowerMonotone(s, f) {
      LowerBoundAt(s, f, LowerBoundBy(s, f).index);
    }
  }

  /** Under a monotone comparator the linear upper bound splits `s` into the
      not-`Greater` prefix and the `Greater` suffix. */
  lemma UpperBoundSplits<T>(s: seq<T>, f: T -> Ordering)
    ensures UpperMonotone(s, f) ==> UpperPartitioned(s, f, UpperBoundBy(s, f).index)
  {
    if UpperMonotone(s, f) {
      UpperBoundAt(s, f, UpperBoundBy(s, f).index);
    }
  }

  /** An empty collection answers `Err(0)` to every query. */
  lemma EmptyIsErrZero<T>(f: T -> Ordering)
    ensures LowerBoundBy([], f) == Err(0)
    ensures UpperBoundBy([], f) == Err(0)
  {
  }

  /** A larger query never moves the lower bound to the left. */
  lemma LowerBoundMonotoneInQuery<T(!new)>(s: seq<T>, cmp: (T, T) -> Ordering, x1: T, x2: T)
    requires TotalOrder(cmp)
    requires cmp(x1, x2) != Greater
    ensures LowerBoundBy(s, ValueCmp(cmp, x1)).index <= LowerBoundBy(s, ValueCmp(cmp, x2)).index
  {
    var r1, r2 := LowerBoundBy(s, ValueCmp(cmp, x1)), LowerBoundBy(s, ValueCmp(cmp, x2));
    if r2.index < |s| {
      var e := s[r2.index];
      assert cmp(x2, e) != Greater;
      LeTrans(cmp, x1, x2, e);
      assert cmp(e, x1) != Less;
    }
  }

  /** A larger query never moves the upper bound to the left. */
  lemma UpperBoundMonotoneInQuery<T(!new)>(s: seq<T>, cmp: (T, T) -> Ordering, x1: T, x2: T)
    requires TotalOrder(cmp)
    requires cmp(x1, x2) != Greater
    ensures UpperBoundBy(s, ValueCmp(cmp, x1)).index <= UpperBoundBy(s, ValueCmp(cmp, x2)).index
  {
    var r1, r2 := UpperBoundBy(s, ValueCmp(cmp, x1)), UpperBoundBy(s, ValueCmp(cmp, x2));
    if r2.index < |s| {
      var e := s[r2.index];
      assert cmp(x2, e) == Less;
      LeLessTrans(cmp, x1, x2, e);
      assert cmp(e, x1) == Greater;
    }
  }

  /** On a sorted sequence the two bounds bracket the run of elements that
      compare `Equal` to the query: lower never exceeds upper, and they meet
      exactly when no element does. */
  lemma LowerNotAboveUpper<T(!new)>(s: seq<T>, cmp: (T, T) -> Ordering, x: T)
    requires TotalOrder(cmp) && Sorted(s, cmp)
    ensures LowerBoundBy(s, ValueCmp(cmp, x)).index <= UpperBoundBy(s, ValueCmp(cmp, x)).index
    ensures LowerBoundBy(s, ValueCmp(cmp, x)).index == UpperBoundBy(s, ValueCmp(cmp, x)).index <==> !Contains(s, cmp, x)
  {
    var lo, up := LowerBoundBy(s, ValueCmp(cmp, x)), UpperBoundBy(s, ValueCmp(cmp, x));
    SortedMonotone(s, cmp, x);
    LowerBoundAt(s, ValueCmp(cmp, x), lo.index);
    UpperBoundAt(s, ValueCmp(cmp, x), up.index);
    if up.index < |s| {
      assert cmp(s[up.index], x) != Less;
    }
    if Contains(s, cmp, x) {
      var k :| 0 <= k < |s| && cmp(s[k], x) == Equal;
      assert lo.index <= k < up.index;
    }
    if lo.index < up.index {
      assert cmp(s[lo.index], x) == Equal;
    }
  }

  /** A key form whose key is the element itself answers as the value form. */
  lemma IdentityKeyAgrees<T>(s: seq<T>, cmp: (T, T) -> Ordering, x: T)
    ensures LowerBoundBy(s, KeyCmp((e: T) => e, cmp, x)) == LowerBoundBy(s, ValueCmp(cmp, x))
    ensures UpperBoundBy(s, KeyCmp((e: T) => e, cmp, x)) == UpperBoundBy(s, ValueCmp(cmp, x))
  {
    FirstNotLessUnique(s, ValueCmp(cmp, x), LowerBoundBy(s, KeyCmp((e: T) => e, cmp, x)), LowerBoundBy(s, ValueCmp(cmp, x)));
    FirstGreaterUnique(s, ValueCmp(cmp, x), UpperBoundBy(s, KeyCmp((e: T) => e, cmp, x)), UpperBoundBy(s, ValueCmp(cmp, x)));
  }
}
