/** `impl LowerBound for BinaryHeap<T>` and `impl UpperBound for BinaryHeap<T>`:
    a heap offers no random access, so both searches are the linear scan
    `iter().position(..).ok_or(len)` over the heap's iteration order. That
    order is not sorted, so the answer is "first qualifying element in
    iteration order" and nothing more. */
module HeapScan {
  import opened Bound
  import Linear

  /** A `BinaryHeap`, seen through `iter()`: its elements in iteration order. */
  datatype BinaryHeap<T> = BinaryHeap(items: seq<T>)
  {
    /** `BinaryHeap::len`. */
    function Len(): nat
    {
      |items|
    }
  }

  /** `BinaryHeap::lower_bound_by`: the first element in iteration order that
      `f` does not call `Less`, or `Err(len)`. */
  function LowerBoundBy<T>(h: BinaryHeap<T>, f: T -> Ordering): (r: SearchResult)
    ensures Linear.FirstNotLess(h.items, f, r)
  {
    Linear.LowerBoundBy(h.items, f)
  }

  /** `BinaryHeap::upper_bound_by`: the first element in iteration order that
      `f` calls `Greater`, or `Err(len)`. */
  function UpperBoundBy<T>(h: BinaryHeap<T>, f: T -> Ordering): (r: SearchResult)
    ensures Linear.FirstGreater(h.items, f, r)
  {
    Linear.UpperBoundBy(h.items, f)
  }

  /** `BinaryHeap::lower_bound`: the first element in iteration order not less than `x`. */
  function LowerBound<T>(h: BinaryHeap<T>, x: T, cmp: (T, T) -> Ordering): (r: SearchResult)
    ensures r.index <= h.Len() && (r.Err? <==> r.index == h.Len())
    ensures forall j :: 0 <= j < r.index ==> cmp(h.items[j], x) == Less
    ensures r.index < h.Len() ==> cmp(h.items[r.index], x) != Less
  {
    LowerBoundBy(h, ValueCmp(cmp, x))
  }

  /** `BinaryHeap::upper_bound`: the first element in iteration order greater than `x`. */
  function UpperBound<T>(h: BinaryHeap<T>, x: T, cmp: (T, T) -> Ordering): (r: SearchResult)
    ensures r.index <= h.Len() && (r.Err? <==> r.index == h.Len())
    ensures forall j :: 0 <= j < r.index ==> cmp(h.items[j], x) != Greater
    ensures r.index < h.Len() ==> cmp(h.items[r.index], x) == Greater
  {
    UpperBoundBy(h, ValueCmp(cmp, x))
  }

  /** `BinaryHeap::lower_bound_by_key`: the first element in iteration order
      whose key is not less than `k`. */
  function LowerBoundByKey<T, K>(h: BinaryHeap<T>, k: K, key: T -> K, cmp: (K, K) -> Ordering): (r: SearchResult)
    ensures r.index <= h.Len() && (r.Err? <==> r.index == h.Len())
    ensures forall j :: 0 <= j < r.index ==> cmp(key(h.items[j]), k) == Less
    ensures r.index < h.Len() ==> cmp(key(h.items[r.index]), k) != Less
  {
    LowerBoundBy(h, KeyCmp(key, cmp, k))
  }

  /** `BinaryHeap::upper_bound_by_key`: the first element in iteration order
      whose key is greater than `k`. */
  function UpperBoundByKey<T, K>(h: BinaryHeap<T>, k: K, key: T -> K, cmp: (K, K) -> Ordering): (r: SearchResult)
    ensures r.index <= h.Len() && (r.Err? <==> r.index == h.Len())
    ensures forall j :: 0 <= j < r.index ==> cmp(key(h.items[j]), k) != Greater
    ensures r.index < h.Len() ==> cmp(key(h.items[r.index]), k) == Greater
  {
    UpperBoundBy(h, KeyCmp(key, cmp, k))
  }
}
