/** `impl LowerBound for Vec<T>` and `impl UpperBound for Vec<T>`: every
    operation hands `as_slice()` to the slice impl. */
module VecAdapter {
  import opened Bound
  import Linear
  import Slice

  /** A `Vec`, seen through the one capability the searches use. */
  datatype Vec<T> = Vec(elems: seq<T>)
  {
    /** `Vec::as_slice`: the whole vector, contiguous. */
    function AsSlice(): seq<T>
    {
      elems
    }
  }

  /** `Vec::lower_bound`. */
  method LowerBound<T(!new)>(v: Vec<T>, x: T, cmp: (T, T) -> Ordering) returns (r: SearchResult)
    ensures r.index <= |v.elems| && (r.Err? <==> r.index == |v.elems|)
    ensures TotalOrder(cmp) && Sorted(v.elems, cmp) ==>
      && r == Linear.LowerBoundBy(v.elems, ValueCmp(cmp, x))
      && (forall j :: 0 <= j < r.index ==> cmp(v.elems[j], x) == Less)
      && (forall j :: r.index <= j < |v.elems| ==> cmp(v.elems[j], x) != Less)
  {
    r := Slice.LowerBound(v.AsSlice(), x, cmp);
  }

  /** `Vec::lower_bound_by`. */
  method LowerBoundBy<T>(v: Vec<T>, f: T -> Ordering) returns (r: SearchResult)
    ensures r.index <= |v.elems| && (r.Err? <==> r.index == |v.elems|)
    ensures 0 < r.index ==> f(v.elems[r.index - 1]) == Less
    ensures r.index < |v.elems| ==> f(v.elems[r.index]) != Less
    ensures Linear.LowerMonotone(v.elems, f) ==>
      r == Linear.LowerBoundBy(v.elems, f) && Linear.LowerPartitioned(v.elems, f, r.index)
  {
    r := Slice.LowerBoundBy(v.AsSlice(), f);
  }

  /** `Vec::lower_bound_by_key`. */
  method LowerBoundByKey<T, K(!new)>(v: Vec<T>, k: K, key: T -> K, cmp: (K, K) -> Ordering)
    returns (r: SearchResult)
    ensures r.index <= |v.elems| && (r.Err? <==> r.index == |v.elems|)
    ensures TotalOrder(cmp) && SortedBy(v.elems, key, cmp) ==>
      && r == Linear.LowerBoundBy(v.elems, KeyCmp(key, cmp, k))
      && (forall j :: 0 <= j < r.index ==> cmp(key(v.elems[j]), k) == Less)
      && (forall j :: r.index <= j < |v.elems| ==> cmp(key(v.elems[j]), k) != Less)
  {
    r := Slice.LowerBoundByKey(v.AsSlice(), k, key, cmp);
  }

  /** `Vec::upper_bound`. */
  method UpperBound<T(!new)>(v: Vec<T>, x: T, cmp: (T, T) -> Ordering) returns (r: SearchResult)
    ensures r.index <= |v.elems| && (r.Err? <==> r.index == |v.elems|)
    ensures TotalOrder(cmp) && Sorted(v.elems, cmp) ==>
      && r == Linear.UpperBoundBy(v.elems, ValueCmp(cmp, x))
      && (forall j :: 0 <= j < r.index ==> cmp(v.elems[j], x) != Greater)
      && (forall j :: r.index <= j < |v.elems| ==> cmp(v.elems[j], x) == Greater)
  {
    r := Slice.UpperBound(v.AsSlice(), x, cmp);
  }

  /** `Vec::upper_bound_by`. */
  method UpperBoundBy<T>(v: Vec<T>, f: T -> Ordering) returns (r: SearchResult)
    ensures r.index <= |v.elems| && (r.Err? <==> r.index == |v.elems|)
    ensures 0 < r.index ==> f(v.elems[r.index - 1]) != Greater
    ensures r.index < |v.elems| ==> f(v.elems[r.index]) == Greater
    ensures Linear.UpperMonotone(v.elems, f) ==>
      r == Linear.UpperBoundBy(v.elems, f) && Linear.UpperPartitioned(v.elems, f, r.index)
  {
    r := Slice.UpperBoundBy(v.AsSlice(), f);
  }

  /** `Vec::upper_bound_by_key`. */
  method UpperBoundByKey<T, K(!new)>(v: Vec<T>, k: K, key: T -> K, cmp: (K, K) -> Ordering)
    returns (r: SearchResult)
    ensures r.index <= |v.elems| && (r.Err? <==> r.index == |v.elems|)
    ensures TotalOrder(cmp) && SortedBy(v.elems, key, cmp) ==>
      && r == Linear.UpperBoundBy(v.elems, KeyCmp(key, cmp, k))
      && (forall j :: 0 <= j < r.index ==> cmp(key(v.elems[j]), k) != Greater)
      && (forall j :: r.index <= j < |v.elems| ==> cmp(key(v.elems[j]), k) == Greater)
  {
    r := Slice.UpperBoundByKey(v.AsSlice(), k, key, cmp);
  }
}
