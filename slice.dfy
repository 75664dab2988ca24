/** `impl LowerBound for [T]` and `impl UpperBound for [T]`: bisection over a
    half-open window `[left, right)` of a slice, and the value and key forms
    that build a comparator and call it. A slice is a `seq`. */
module Slice {
  import opened Bound
  import Linear

  /** `[T]::lower_bound_by`. Whatever `f` is, the answer sits between a `Less`
      element and a not-`Less` one; when the `Less` elements form a prefix it
      is the first not-`Less` position, the same answer as the linear scan. */
  method LowerBoundBy<T>(s: seq<T>, f: T -> Ordering) returns (r: SearchResult)
    ensures r.index <= |s| && (r.Err? <==> r.index == |s|)
    ensures 0 < r.index ==> f(s[r.index - 1]) == Less
    ensures r.index < |s| ==> f(s[r.index]) != Less
    ensures Linear.LowerMonotone(s, f) ==>
      r == Linear.LowerBoundBy(s, f) && Linear.LowerPartitioned(s, f, r.index)
  {
    var left := 0;
    var len := |s|;
    var right := len;
    while left < right
      invariant left <= right <= len
      invariant 0 < left ==> f(s[left - 1]) == Less
      invariant right < len ==> f(s[right]) != Less
      decreases right - left
    {
      var mid := left + (right - left) / 2;
      match f(s[mid])
      case Less => left := mid + 1;
      case _ => right := mid;
    }
    assert left == right;
    if Linear.LowerMonotone(s, f) {
      Linear.LowerBoundAt(s, f, left);
    }
    if left == len {
      r := Err(left);
    } else {
      r := Ok(left);
    }
  }

  /** `[T]::upper_bound_by`. Whatever `f` is, the answer sits between a
      not-`Greater` element and a `Greater` one; when the `Greater` elements
      form a suffix it is the first `Greater` position, the same answer as
      the linear scan. */
  method UpperBoundBy<T>(s: seq<T>, f: T -> Ordering) returns (r: SearchResult)
    ensures r.index <= |s| && (r.Err? <==> r.index == |s|)
    ensures 0 < r.index ==> f(s[r.index - 1]) != Greater
    ensures r.index < |s| ==> f(s[r.index]) == Greater
    ensures Linear.UpperMonotone(s, f) ==>
      r == Linear.UpperBoundBy(s, f) && Linear.UpperPartitioned(s, f, r.index)
  {
    var left := 0;
    var len := |s|;
    var right := len;
    while left < right
      invariant left <= right <= len
      invariant 0 < left ==> f(s[left - 1]) != Greater
      invariant right < len ==> f(s[right]) == Greater
      decreases right - left
    {
      var mid := left + (right - left) / 2;
      match f(s[mid])
      case Greater => right := mid;
      case _ => left := mid + 1;
    }
    assert left == right;
    if Linear.UpperMonotone(s, f) {
      Linear.UpperBoundAt(s, f, left);
    }
    if left == len {
      r := Err(left);
    } else {
      r := Ok(left);
    }
  }

  /** `[T]::lower_bound`: on a sorted slice, the first position whose element
      is not less than `x`. */
  method LowerBound<T(!new)>(s: seq<T>, x: T, cmp: (T, T) -> Ordering) returns (r: SearchResult)
    ensures r.index <= |s| && (r.Err? <==> r.index == |s|)
    ensures TotalOrder(cmp) && Sorted(s, cmp) ==>
      && r == Linear.LowerBoundBy(s, ValueCmp(cmp, x))
      && (forall j :: 0 <= j < r.index ==> cmp(s[j], x) == Less)
      && (forall j :: r.index <= j < |s| ==> cmp(s[j], x) != Less)
  {
    Linear.SortedMonotone(s, cmp, x);
    r := LowerBoundBy(s, ValueCmp(cmp, x));
  }

  /** `[T]::upper_bound`: on a sorted slice, the first position whose element
      is greater than `x`. */
  method UpperBound<T(!new)>(s: seq<T>, x: T, cmp: (T, T) -> Ordering) returns (r: SearchResult)
    ensures r.index <= |s| && (r.Err? <==> r.index == |s|)
    ensures TotalOrder(cmp) && Sorted(s, cmp) ==>
      && r == Linear.UpperBoundBy(s, ValueCmp(cmp, x))
      && (forall j :: 0 <= j < r.index ==> cmp(s[j], x) != Greater)
      && (forall j :: r.index <= j < |s| ==> cmp(s[j], x) == Greater)
  {
    Linear.SortedMonotone(s, cmp, x);
    r := UpperBoundBy(s, ValueCmp(cmp, x));
  }

  /** `[T]::lower_bound_by_key`: on a slice sorted by `key`, the first
      position whose key is not less than `k`. */
  method LowerBoundByKey<T, K(!new)>(s: seq<T>, k: K, key: T -> K, cmp: (K, K) -> Ordering)
    returns (r: SearchResult)
    ensures r.index <= |s| && (r.Err? <==> r.index == |s|)
    ensures TotalOrder(cmp) && SortedBy(s, key, cmp) ==>
      && r == Linear.LowerBoundBy(s, KeyCmp(key, cmp, k))
      && (forall j :: 0 <= j < r.index ==> cmp(key(s[j]), k) == Less)
      && (forall j :: r.index <= j < |s| ==> cmp(key(s[j]), k) != Less)
  {
    Linear.SortedByMonotone(s, key, cmp, k);
    r := LowerBoundBy(s, KeyCmp(key, cmp, k));
  }

  /** `[T]::upper_bound_by_key`: on a slice sorted by `key`, the first
      position whose key is greater than `k`. */
  method UpperBoundByKey<T, K(!new)>(s: seq<T>, k: K, key: T -> K, cmp: (K, K) -> Ordering)
    returns (r: SearchResult)
    ensures r.index <= |s| && (r.Err? <==> r.index == |s|)
    ensures TotalOrder(cmp) && SortedBy(s, key, cmp) ==>
      && r == Linear.UpperBoundBy(s, KeyCmp(key, cmp, k))
      && (forall j :: 0 <= j < r.index ==> cmp(key(s[j]), k) != Greater)
      && (forall j :: r.index <= j < |s| ==> cmp(key(s[j]), k) == Greater)
  {
    Linear.SortedByMonotone(s, key, cmp, k);
    r := UpperBoundBy(s, KeyCmp(key, cmp, k));
  }
}
