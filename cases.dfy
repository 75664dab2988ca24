/** The crate's unit tests and the `VecDeque` doc-test, as methods and lemmas
    whose postconditions are the expected answers, and the law that every
    container gives the same answer on the same sorted contents. */
module Cases {
  import opened Bound
  import Linear
  import VecAdapter
  import DequeAdapter
  import HeapScan
  import MapScan
  import SetScan

  /** On a sorted integer sequence the lower bound of `x` is the `i` with
      everything before it below `x` and `s[i]` at least `x`. */
  lemma IntLowerAt(s: seq<int>, x: int, i: nat)
    requires Chained(s, IntCmp)
    requires i <= |s|
    requires 0 < i ==> s[i - 1] < x
    requires i < |s| ==> x <= s[i]
    ensures Linear.LowerBoundBy(s, ValueCmp(IntCmp, x)) == (if i == |s| then Err(i) else Ok(i))
  {
    IntCmpIsTotalOrder();
    ChainedIsSorted(s, IntCmp);
    Linear.SortedMonotone(s, IntCmp, x);
    Linear.LowerBoundAt(s, ValueCmp(IntCmp, x), i);
  }

  /** On a sorted integer sequence the upper bound of `x` is the `i` with
      everything before it at most `x` and `s[i]` above `x`. */
  lemma IntUpperAt(s: seq<int>, x: int, i: nat)
    requires Chained(s, IntCmp)
    requires i <= |s|
    requires 0 < i ==> s[i - 1] <= x
    requires i < |s| ==> x < s[i]
    ensures Linear.UpperBoundBy(s, ValueCmp(IntCmp, x)) == (if i == |s| then Err(i) else Ok(i))
  {
    IntCmpIsTotalOrder();
    ChainedIsSorted(s, IntCmp);
    Linear.SortedMonotone(s, IntCmp, x);
    Linear.UpperBoundAt(s, ValueCmp(IntCmp, x), i);
  }

  /** `Vec::lower_bound` on a sorted integer vector, pinned down by the two
      elements around the expected position. */
  method VecLowerBoundAt(v: VecAdapter.Vec<int>, x: int, i: nat) returns (r: SearchResult)
    requires Chained(v.elems, IntCmp)
    requires i <= |v.elems|
    requires 0 < i ==> v.elems[i - 1] < x
    requires i < |v.elems| ==> x <= v.elems[i]
    ensures r == if i == |v.elems| then Err(i) else Ok(i)
  {
    IntCmpIsTotalOrder();
    ChainedIsSorted(v.elems, IntCmp);
    r := VecAdapter.LowerBound(v, x, IntCmp);
    IntLowerAt(v.elems, x, i);
  }

  /** `Vec::upper_bound` on a sorted integer vector, pinned down by the two
      elements around the expected position. */
  method VecUpperBoundAt(v: VecAdapter.Vec<int>, x: int, i: nat) returns (r: SearchResult)
    requires Chained(v.elems, IntCmp)
    requires i <= |v.elems|
    requires 0 < i ==> v.elems[i - 1] <= x
    requires i < |v.elems| ==> x < v.elems[i]
    ensures r == if i == |v.elems| then Err(i) else Ok(i)
  {
    IntCmpIsTotalOrder();
    ChainedIsSorted(v.elems, IntCmp);
    r := VecAdapter.UpperBound(v, x, IntCmp);
    IntUpperAt(v.elems, x, i);
  }

  /** `test_lower_bound`: an empty `Vec` and `vec![1, 2, 4, 5, 5, 6, 6]`
      queried with 0 and 1, and with 0 through 9. */
  method VecLowerBoundCases() returns (onEmpty: seq<SearchResult>, onFilled: seq<SearchResult>)
    ensures onEmpty == [Err(0), Err(0)]
    ensures onFilled == [Ok(0), Ok(0), Ok(1), Ok(2), Ok(2), Ok(3), Ok(5), Err(7), Err(7), Err(7)]
  {
    var e: VecAdapter.Vec<int> := VecAdapter.Vec([]);
    var e0 := VecAdapter.LowerBound(e, 0, IntCmp);
    var e1 := VecAdapter.LowerBound(e, 1, IntCmp);
    onEmpty := [e0, e1];

    var v := VecAdapter.Vec([1, 2, 4, 5, 5, 6, 6]);
    var r0 := VecLowerBoundAt(v, 0, 0);
    var r1 := VecLowerBoundAt(v, 1, 0);
    var r2 := VecLowerBoundAt(v, 2, 1);
    var r3 := VecLowerBoundAt(v, 3, 2);
    var r4 := VecLowerBoundAt(v, 4, 2);
    var r5 := VecLowerBoundAt(v, 5, 3);
    var r6 := VecLowerBoundAt(v, 6, 5);
    var r7 := VecLowerBoundAt(v, 7, 7);
    var r8 := VecLowerBoundAt(v, 8, 7);
    var r9 := VecLowerBoundAt(v, 9, 7);
    onFilled := [r0, r1, r2, r3, r4, r5, r6, r7, r8, r9];
  }

  /** `test_upper_bound`: an empty `Vec` and `vec![-1, 1, 2, 4, 5, 5, 6, 6]`
      queried with 0 and 1, and with 0 through 9. */
  method VecUpperBoundCases() returns (onEmpty: seq<SearchResult>, onFilled: seq<SearchResult>)
    ensures onEmpty == [Err(0), Err(0)]
    ensures onFilled == [Ok(1), Ok(2), Ok(3), Ok(3), Ok(4), Ok(6), Err(8), Err(8), Err(8), Err(8)]
  {
    var e: VecAdapter.Vec<int> := VecAdapter.Vec([]);
    var e0 := VecAdapter.UpperBound(e, 0, IntCmp);
    var e1 := VecAdapter.UpperBound(e, 1, IntCmp);
    onEmpty := [e0, e1];

    var v := VecAdapter.Vec([-1, 1, 2, 4, 5, 5, 6, 6]);
    var r0 := VecUpperBoundAt(v, 0, 1);
    var r1 := VecUpperBoundAt(v, 1, 2);
    var r2 := VecUpperBoundAt(v, 2, 3);
    var r3 := VecUpperBoundAt(v, 3, 3);
    var r4 := VecUpperBoundAt(v, 4, 4);
    var r5 := VecUpperBoundAt(v, 5, 6);
    var r6 := VecUpperBoundAt(v, 6, 8);
    var r7 := VecUpperBoundAt(v, 7, 8);
    var r8 := VecUpperBoundAt(v, 8, 8);
    var r9 := VecUpperBoundAt(v, 9, 8);
    onFilled := [r0, r1, r2, r3, r4, r5, r6, r7, r8, r9];
  }

  /** `test_lower_bound_btreeset`: an empty set and the set {1, 2, 4, 5, 6}
      (what collecting `vec![1, 2, 4, 5, 5, 6, 6]` yields), queried with 0
      and 1, and with 0 through 9. */
  lemma {:induction false} SetLowerBoundCases()
    ensures var e := SetScan.BTreeSet([]);
      SetScan.LowerBound(e, 0, IntCmp) == Err(0) && SetScan.LowerBound(e, 1, IntCmp) == Err(0)
    ensures var t := SetScan.BTreeSet([1, 2, 4, 5, 6]);
      && SetScan.LowerBound(t, 0, IntCmp) == Ok(0)
      && SetScan.LowerBound(t, 1, IntCmp) == Ok(0)
      && SetScan.LowerBound(t, 2, IntCmp) == Ok(1)
      && SetScan.LowerBound(t, 3, IntCmp) == Ok(2)
      && SetScan.LowerBound(t, 4, IntCmp) == Ok(2)
      && SetScan.LowerBound(t, 5, IntCmp) == Ok(3)
      && SetScan.LowerBound(t, 6, IntCmp) == Ok(4)
      && SetScan.LowerBound(t, 7, IntCmp) == Err(5)
      && SetScan.LowerBound(t, 8, IntCmp) == Err(5)
      && SetScan.LowerBound(t, 9, IntCmp) == Err(5)
  {
    var s := [1, 2, 4, 5, 6];
    IntLowerAt(s, 0, 0);
    IntLowerAt(s, 1, 0);
    IntLowerAt(s, 2, 1);
    IntLowerAt(s, 3, 2);
    IntLowerAt(s, 4, 2);
    IntLowerAt(s, 5, 3);
    IntLowerAt(s, 6, 4);
    IntLowerAt(s, 7, 5);
    IntLowerAt(s, 8, 5);
    IntLowerAt(s, 9, 5);
  }

  /** The `VecDeque` doc-test: a deque built by pushing 1, 2, 3 at the back,
      whose contents sit in the front slice. */
  method DequeDocCases() returns (lower2: SearchResult, upper2: SearchResult, upper0: SearchResult, lower4: SearchResult)
    ensures lower2 == Ok(1) && upper2 == Ok(2) && upper0 == Ok(0) && lower4 == Err(3)
  {
    var d := DequeAdapter.VecDeque([1, 2, 3], []);
    IntCmpIsTotalOrder();
    ChainedIsSorted(d.front, IntCmp);
    lower2 := DequeAdapter.LowerBound(d, 2, IntCmp);
    IntLowerAt(d.front, 2, 1);
    upper2 := DequeAdapter.UpperBound(d, 2, IntCmp);
    IntUpperAt(d.front, 2, 2);
    upper0 := DequeAdapter.UpperBound(d, 0, IntCmp);
    IntUpperAt(d.front, 0, 0);
    lower4 := DequeAdapter.LowerBound(d, 4, IntCmp);
    IntLowerAt(d.front, 4, 3);
  }

  /** Why the deque must be made contiguous first: the same contents
      [1, 2, 3], once stored contiguously and once wrapped after the first
      element, give different answers to the lower bound of 3. The wrapped
      deque reports `Err(1)`, the length of its front slice, although 3 is
      present at position 2. */
  method WrappedDequeSearchesFrontOnly() returns (contiguous: SearchResult, wrapped: SearchResult)
    ensures contiguous == Ok(2)
    ensures wrapped == Err(1)
  {
    var whole := DequeAdapter.VecDeque([1, 2, 3], []);
    var split := DequeAdapter.VecDeque([1], [2, 3]);
    assert whole.Contents() == split.Contents();
    IntCmpIsTotalOrder();
    ChainedIsSorted(whole.front, IntCmp);
    contiguous := DequeAdapter.LowerBound(whole, 3, IntCmp);
    IntLowerAt(whole.front, 3, 2);
    wrapped := DequeAdapter.LowerBound(split, 3, IntCmp);
  }

  /** `Ord` for pairs that compares the first field only: a lawful order
      whose `Equal` is not identity. */
  function ByFirst(a: (int, int), b: (int, int)): Ordering
  {
    IntCmp(a.0, b.0)
  }

  /** `ByFirst` meets the laws, although it calls distinct pairs `Equal`, so
      the sortedness hypotheses of the searches cover such orders. */
  lemma ByFirstIsTotalOrder()
    ensures TotalOrder(ByFirst)
    ensures ByFirst((1, 0), (1, 1)) == Equal && (1, 0) != (1, 1)
  {
  }

  /** The same strictly ascending contents held by a `Vec`, a contiguous
      `VecDeque`, a `BinaryHeap` that iterates them in that order, a
      `BTreeSet` and a `BTreeMap` (with any values) give one lower bound. */
  method LowerAgreesAcrossContainers<T(!new), V>(s: seq<T>, vals: seq<V>, x: T, cmp: (T, T) -> Ordering)
    returns (onVec: SearchResult, onDeque: SearchResult, onHeap: SearchResult, onSet: SearchResult, onMap: SearchResult)
    requires TotalOrder(cmp)
    requires forall i, j :: 0 <= i < j < |s| ==> cmp(s[i], s[j]) == Less
    requires |vals| == |s|
    ensures onDeque == onVec && onHeap == onVec && onSet == onVec && onMap == onVec
    ensures Linear.LowerPartitioned(s, ValueCmp(cmp, x), onVec.index)
  {
    var m := MapScan.BTreeMap(seq(|s|, i requires 0 <= i < |s| => (s[i], vals[i])));
    assert m.Keys() == s;
    Linear.SortedMonotone(s, cmp, x);
    onVec := VecAdapter.LowerBound(VecAdapter.Vec(s), x, cmp);
    onDeque := DequeAdapter.LowerBound(DequeAdapter.VecDeque(s, []), x, cmp);
    onHeap := HeapScan.LowerBound(HeapScan.BinaryHeap(s), x, cmp);
    onSet := SetScan.LowerBound(SetScan.BTreeSet(s), x, cmp);
    onMap := MapScan.LowerBound(m, x, cmp);
    Linear.LowerBoundSplits(s, ValueCmp(cmp, x));
  }

  /** The upper-bound counterpart of `LowerAgreesAcrossContainers`. */
  method UpperAgreesAcrossContainers<T(!new), V>(s: seq<T>, vals: seq<V>, x: T, cmp: (T, T) -> Ordering)
    returns (onVec: SearchResult, onDeque: SearchResult, onHeap: SearchResult, onSet: SearchResult, onMap: SearchResult)
    requires TotalOrder(cmp)
    requires forall i, j :: 0 <= i < j < |s| ==> cmp(s[i], s[j]) == Less
    requires |vals| == |s|
    ensures onDeque == onVec && onHeap == onVec && onSet == onVec && onMap == onVec
    ensures Linear.UpperPartitioned(s, ValueCmp(cmp, x), onVec.index)
  {
    var m := MapScan.BTreeMap(seq(|s|, i requires 0 <= i < |s| => (s[i], vals[i])));
    assert m.Keys() == s;
    Linear.SortedMonotone(s, cmp, x);
    onVec := VecAdapter.UpperBound(VecAdapter.Vec(s), x, cmp);
    onDeque := DequeAdapter.UpperBound(DequeAdapter.VecDeque(s, []), x, cmp);
    onHeap := HeapScan.UpperBound(HeapScan.BinaryHeap(s), x, cmp);
    onSet := SetScan.UpperBound(SetScan.BTreeSet(s), x, cmp);
    onMap := MapScan.UpperBound(m, x, cmp);
    Linear.UpperBoundSplits(s, ValueCmp(cmp, x));
  }
}
