/** `impl LowerBound for VecDeque<T>` and `impl UpperBound for VecDeque<T>`:
    every operation hands the FRONT slice of `as_slices()` to the slice impl.
    The wrap-around slice is never looked at, so a deque whose contents
    still wrap is searched only in part; callers are told to call
    `make_contiguous` (and sort) first. */
module DequeAdapter {
  import opened Bound
  import Linear
  import Slice

  /** A `VecDeque`, seen as the two slices `as_slices()` returns: the front
      segment and the wrap-around segment that logically follows it.
      `as_slices` never returns an empty front with a non-empty back; the
      datatype admits that state, and the contracts below hold in it too. */
  datatype VecDeque<T> = VecDeque(front: seq<T>, back: seq<T>)
  {
    /** `VecDeque::as_slices`. */
    function AsSlices(): (seq<T>, seq<T>)
    {
      (front, back)
    }

    /** The deque's logical contents, front to back. */
    function Contents(): seq<T>
    {
      front + back
    }
  }

  /** `VecDeque::lower_bound`: the slice answer on the front segment, so
      `Err` carries the front segment's length. On a contiguous deque this
      is the answer on the whole contents. */
  method LowerBound<T(!new)>(d: VecDeque<T>, x: T, cmp: (T, T) -> Ordering) returns (r: SearchResult)
    ensures r.index <= |d.front| && (r.Err? <==> r.index == |d.front|)
    ensures TotalOrder(cmp) && Sorted(d.front, cmp) ==> r == Linear.LowerBoundBy(d.front, ValueCmp(cmp, x))
    ensures d.back == [] && TotalOrder(cmp) && Sorted(d.Contents(), cmp) ==>
      r == Linear.LowerBoundBy(d.Contents(), ValueCmp(cmp, x))
  {
    if d.back == [] {
      assert d.Contents() == d.front;
    }
    r := Slice.LowerBound(d.AsSlices().0, x, cmp);
  }

  /** `VecDeque::lower_bound_by`. */
  method LowerBoundBy<T>(d: VecDeque<T>, f: T -> Ordering) returns (r: SearchResult)
    ensures r.index <= |d.front| && (r.Err? <==> r.index == |d.front|)
    ensures 0 < r.index ==> f(d.front[r.index - 1]) == Less
    ensures r.index < |d.front| ==> f(d.front[r.index]) != Less
    ensures Linear.LowerMonotone(d.front, f) ==> r == Linear.LowerBoundBy(d.front, f)
    ensures d.back == [] && Linear.LowerMonotone(d.Contents(), f) ==>
      r == Linear.LowerBoundBy(d.Contents(), f)
  {
    if d.back == [] {
      assert d.Contents() == d.front;
    }
    r := Slice.LowerBoundBy(d.AsSlices().0, f);
  }

  /** `VecDeque::lower_bound_by_key`. */
  method LowerBoundByKey<T, K(!new)>(d: VecDeque<T>, k: K, key: T -> K, cmp: (K, K) -> Ordering)
    returns (r: SearchResult)
    ensures r.index <= |d.front| && (r.Err? <==> r.index == |d.front|)
    ensures TotalOrder(cmp) && SortedBy(d.front, key, cmp) ==>
      r == Linear.LowerBoundBy(d.front, KeyCmp(key, cmp, k))
    ensures d.back == [] && TotalOrder(cmp) && SortedBy(d.Contents(), key, cmp) ==>
      r == Linear.LowerBoundBy(d.Contents(), KeyCmp(key, cmp, k))
  {
    if d.back == [] {
      assert d.Contents() == d.front;
    }
    r := Slice.LowerBoundByKey(d.AsSlices().0, k, key, cmp);
  }

  /** `VecDeque::upper_bound`: the slice answer on the front segment. */
  method UpperBound<T(!new)>(d: VecDeque<T>, x: T, cmp: (T, T) -> Ordering) returns (r: SearchResult)
    ensures r.index <= |d.front| && (r.Err? <==> r.index == |d.front|)
    ensures TotalOrder(cmp) && Sorted(d.front, cmp) ==> r == Linear.UpperBoundBy(d.front, ValueCmp(cmp, x))
    ensures d.back == [] && TotalOrder(cmp) && Sorted(d.Contents(), cmp) ==>
      r == Linear.UpperBoundBy(d.Contents(), ValueCmp(cmp, x))
  {
    if d.back == [] {
      assert d.Contents() == d.front;
    }
    r := Slice.UpperBound(d.AsSlices().0, x, cmp);
  }

  /** `VecDeque::upper_bound_by`. */
  method UpperBoundBy<T>(d: VecDeque<T>, f: T -> Ordering) returns (r: SearchResult)
    ensures r.index <= |d.front| && (r.Err? <==> r.index == |d.front|)
    ensures 0 < r.index ==> f(d.front[r.index - 1]) != Greater
    ensures r.index < |d.front| ==> f(d.front[r.index]) == Greater
    ensures Linear.UpperMonotone(d.front, f) ==> r == Linear.UpperBoundBy(d.front, f)
    ensures d.back == [] && Linear.UpperMonotone(d.Contents(), f) ==>
      r == Linear.UpperBoundBy(d.Contents(), f)
  {
    if d.back == [] {
      assert d.Contents() == d.front;
    }
    r := Slice.UpperBoundBy(d.AsSlices().0, f);
  }

  /** `VecDeque::upper_bound_by_key`. */
  method UpperBoundByKey<T, K(!new)>(d: VecDeque<T>, k: K, key: T -> K, cmp: (K, K) -> Ordering)
    returns (r: SearchResult)
    ensures r.index <= |d.front| && (r.Err? <==> r.index == |d.front|)
    ensures TotalOrder(cmp) && SortedBy(d.front, key, cmp) ==>
      r == Linear.UpperBoundBy(d.front, KeyCmp(key, cmp, k))
    ensures d.back == [] && TotalOrder(cmp) && SortedBy(d.Contents(), key, cmp) ==>
      r == Linear.UpperBoundBy(d.Contents(), KeyCmp(key, cmp, k))
  {
    if d.back == [] {
      assert d.Contents() == d.front;
    }
    r := Slice.UpperBoundByKey(d.AsSlices().0, k, key, cmp);
  }
}
