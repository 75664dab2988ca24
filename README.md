# bound-stl in Dafny

A model of the `bound-stl` crate. The crate adds `lower_bound` and `upper_bound` searches to Rust's standard collections. Both return `Result<usize, usize>`:

- The lower bound is the first position whose element is not less than the query.
- The upper bound is the first position whose element is greater than the query.
- `Ok(i)` names that position, which lies inside the collection.
- `Err(n)` says that no element qualifies; `n` is the length that was searched.

Each search comes in three forms:

- a value form (`lower_bound(&x)`);
- a comparator form (`lower_bound_by(f)`), where `f` returns an `Ordering`;
- a key form (`lower_bound_by_key(&k, f)`).

The value and key forms only build a comparator and call the comparator form.

How each collection is searched:

- Slices use bisection over a half-open window `[left, right)`.
- `Vec` hands over `as_slice()`.
- `VecDeque` hands over the FRONT slice of `as_slices()` only.
- `BinaryHeap`, `BTreeSet` and `BTreeMap` scan linearly with `iter().position(..).ok_or(len)`; the map tests keys only.

Modules, one per component of `src/lib.rs`:

- `Bound`: `Ordering`, `SearchResult` (the `Result<usize, usize>`), `Option` and `ok_or`, the closures `|y| y.cmp(x)` and `|e| f(e).cmp(k)` (`ValueCmp`, `KeyCmp`), and the `Ord` laws (`TotalOrder`, `Sorted`, `SortedBy`).
- `Linear`: `Iterator::position` and the linear reading of both searches. The laws about answers hold for every container, so they live here.
- `Slice`: the two bisection loops as methods with loop invariants, plus the value and key wrappers.
- `VecAdapter`, `DequeAdapter`: the delegating impls. A `VecDeque` is modelled as its pair of slices `(front, back)`.
- `HeapScan`, `SetScan`, `MapScan`: the linear-scan impls. Each container is modelled by its iteration sequence; a map is its sequence of `(key, value)` entries.
- `Cases`: the crate's unit tests and its `VecDeque` doc-test, with the expected answers as postconditions, and the law that all containers agree on the same sorted contents.

Comparators are pure total functions `T -> Ordering`. `Ord::cmp` is a parameter `cmp: (T, T) -> Ordering`. Sortedness and the `Ord` laws are the caller's obligation in the crate (doc comments at `src/lib.rs:6` and `src/lib.rs:23`). Here they are the hypotheses of implications in the postconditions, never `requires` clauses. So every search can be called on any input, as in Rust. What the bisection promises on unsorted input is stated too: its answer always lies between an element where the probe goes right and one where it goes left.

The trait docs (`src/lib.rs:8`, `src/lib.rs:25`) say that `Err` means every element fails the test. A `VecDeque` whose contents still wrap breaks that promise. It answers `Err` with the length of its front slice even when a later element qualifies. The model follows the code. `DequeAdapter` states this, and `Cases.WrappedDequeSearchesFrontOnly` shows it on a concrete deque.

## Model

| member | source | states |
|---|---|---|
| `Bound.OkOr` | src/lib.rs:230 | `Option::ok_or(len)` as used by every linear scan (also lines 252, 274, 298, 320, 342); definition only. |
| `Bound.ValueCmp` | src/lib.rs:43 | The closure `\|y\| y.cmp(x)` each value form passes to its comparator form (also lines 82, 223, 245, 267, 289, 313, 335); definition only. |
| `Bound.KeyCmp` | src/lib.rs:75 | The closure `\|e\| f(e).cmp(k)` each key form passes to its comparator form (also lines 114, 238, 260, 282, 306, 328, 350); definition only. |
| `Slice.LowerBoundBy` | src/lib.rs:46-68 | The answer is `Err(len)` exactly when the converged index is `len`; otherwise it is `Ok(i)` with `i < len`. The element before the answer compares `Less` and the element at the answer does not, for any comparator. When the `Less` elements form a prefix, the answer equals the linear scan `position(f(e) != Less).ok_or(len)` and splits the slice into a `Less` prefix and a not-`Less` suffix. The loop keeps `left <= right <= len`, probes in bounds, shrinks `right - left` and ends with `left == right`. |
| `Slice.UpperBoundBy` | src/lib.rs:85-107 | The same for the upper bound: the element before the answer is not `Greater` and the element at the answer is `Greater`. When the `Greater` elements form a suffix, the answer equals `position(f(e) == Greater).ok_or(len)` and splits the slice there. |
| `Slice.LowerBound` | src/lib.rs:42-44 | The value form. On a slice sorted under a total order, the answer is the linear answer for `y.cmp(x)`. Every element before it is less than `x`; every element from it on is not. |
| `Slice.UpperBound` | src/lib.rs:81-83 | The value form. On a sorted slice, every element before the answer is at most `x`, and every element from it on is greater. |
| `Slice.LowerBoundByKey` | src/lib.rs:70-76 | The key form. On a slice sorted by `f`, the answer is the linear answer for `f(e).cmp(k)`. Keys before it are less than `k`; keys from it on are not. |
| `Slice.UpperBoundByKey` | src/lib.rs:109-115 | The key form. Keys before the answer are at most `k`; keys from it on are greater. |
| `VecAdapter.LowerBound` | src/lib.rs:120-122 | Same answer and guarantees as the slice value form on the vector's elements. |
| `VecAdapter.LowerBoundBy` | src/lib.rs:124-129 | On the vector's elements: `Err` exactly at the length; for any comparator, `Less` just before the answer and not `Less` at it; when the `Less` elements form a prefix, the linear answer and the split. |
| `VecAdapter.LowerBoundByKey` | src/lib.rs:131-137 | Same guarantees as the slice key form on the vector's elements. |
| `VecAdapter.UpperBound` | src/lib.rs:142-144 | Same guarantees as the slice value form on the vector's elements. |
| `VecAdapter.UpperBoundBy` | src/lib.rs:146-151 | On the vector's elements: `Err` exactly at the length; for any comparator, not `Greater` just before the answer and `Greater` at it; when the `Greater` elements form a suffix, the linear answer and the split. |
| `VecAdapter.UpperBoundByKey` | src/lib.rs:153-159 | Same guarantees as the slice key form on the vector's elements. |
| `DequeAdapter.LowerBound` | src/lib.rs:176-180 | The answer is bounded by the front slice's length and is `Err` exactly at that length. On a sorted front it is the linear answer on the front slice. On a contiguous deque (empty wrap-around slice) it is the answer on the whole contents. |
| `DequeAdapter.LowerBoundBy` | src/lib.rs:182-187 | The same, for the comparator form. For any comparator, the front element just before the answer is `Less` and the one at it is not. |
| `DequeAdapter.LowerBoundByKey` | src/lib.rs:189-195 | The same, for the key form. |
| `DequeAdapter.UpperBound` | src/lib.rs:198-202 | The upper-bound counterpart: bounded by the front slice, the linear answer on it, and the whole-contents answer when contiguous. |
| `DequeAdapter.UpperBoundBy` | src/lib.rs:204-209 | The same, for the comparator form. For any comparator, the front element just before the answer is not `Greater` and the one at it is. |
| `DequeAdapter.UpperBoundByKey` | src/lib.rs:211-217 | The same, for the key form. |
| `Linear.Position` | src/lib.rs:230 | `position(p)` returns the first index whose element satisfies `p`, or `None` exactly when no element does. |
| `Linear.LowerBoundBy` | src/lib.rs:50 | The linear lower bound is the first index that `f` does not call `Less`, or `Err(len)` when every element is `Less`. |
| `Linear.UpperBoundBy` | src/lib.rs:89 | The linear upper bound is the first index that `f` calls `Greater`, or `Err(len)` when none is `Greater`. |
| `Linear.LowerBoundAt` | src/lib.rs:6-8 | For a comparator whose `Less` elements form a prefix, a position with `Less` just before it and not `Less` at it is the lower bound. It splits the sequence into a `Less` prefix and a not-`Less` suffix. |
| `Linear.UpperBoundAt` | src/lib.rs:23-25 | For a comparator whose `Greater` elements form a suffix, a position with not `Greater` just before it and `Greater` at it is the upper bound, and it splits the sequence there. |
| `Linear.LowerBoundSplits` | src/lib.rs:7-8 | Under that monotonicity, the linear lower bound partitions the sequence. |
| `Linear.UpperBoundSplits` | src/lib.rs:24-25 | Under that monotonicity, the linear upper bound partitions the sequence. |
| `Linear.SortedMonotone` | src/lib.rs:6 | A sequence sorted under a total order makes `y.cmp(x)` monotone for both searches, for every query `x`. |
| `Linear.SortedByMonotone` | src/lib.rs:17-20 | A sequence sorted by a key makes `f(e).cmp(k)` monotone for both searches, for every `k`. |
| `Linear.EmptyIsErrZero` | src/lib.rs:360-363 | On an empty collection both searches answer `Err(0)` for every comparator. |
| `Linear.LowerBoundMonotoneInQuery` | src/lib.rs:365-375 | Under a total order, a larger query never gives a smaller lower bound. |
| `Linear.UpperBoundMonotoneInQuery` | src/lib.rs:384-394 | Under a total order, a larger query never gives a smaller upper bound. |
| `Linear.LowerNotAboveUpper` | src/lib.rs:6-25 | On a sorted sequence, lower bound ≤ upper bound, and the two are equal exactly when no element compares `Equal` to the query. |
| `Linear.IdentityKeyAgrees` | src/lib.rs:70-76 | A key form whose key is the element itself gives the value form's answer, for both searches. |
| `HeapScan.LowerBoundBy` | src/lib.rs:226-231 | The first element in heap iteration order that `f` does not call `Less`, or `Err(len)`. |
| `HeapScan.UpperBoundBy` | src/lib.rs:248-253 | The first element in iteration order that `f` calls `Greater`, or `Err(len)`. |
| `HeapScan.LowerBound` | src/lib.rs:222-224 | The first element in iteration order not less than `x`, or `Err(len)`. |
| `HeapScan.UpperBound` | src/lib.rs:244-246 | The first element in iteration order greater than `x`, or `Err(len)`. |
| `HeapScan.LowerBoundByKey` | src/lib.rs:233-239 | The first element in iteration order whose key is not less than `k`, or `Err(len)`. |
| `HeapScan.UpperBoundByKey` | src/lib.rs:255-261 | The first element in iteration order whose key is greater than `k`, or `Err(len)`. |
| `SetScan.LowerBoundBy` | src/lib.rs:316-321 | The first member `f` does not call `Less`, or `Err(len)`. Under monotonicity it splits the set. |
| `SetScan.UpperBoundBy` | src/lib.rs:338-343 | The first member `f` calls `Greater`, or `Err(len)`. Under monotonicity it splits the set. |
| `SetScan.LowerBound` | src/lib.rs:312-314 | In a set ascending under a total order, every member before the answer is less than `x`, and every member from it on is not. |
| `SetScan.UpperBound` | src/lib.rs:334-336 | In such a set, every member before the answer is at most `x`, and every member from it on is greater. |
| `SetScan.LowerBoundByKey` | src/lib.rs:323-329 | The first member whose key is not less than `k`. When the members are sorted by that key, no later key is less. |
| `SetScan.UpperBoundByKey` | src/lib.rs:345-351 | The first member whose key is greater than `k`. When the members are sorted by that key, every later key is greater. |
| `SetScan.UpperIsLowerPlusMembership` | src/lib.rs:310-352 | In a set, the upper bound of `x` is the lower bound plus one if `x` is a member (some member compares `Equal` to it), and equals it otherwise. |
| `MapScan.LowerBoundBy` | src/lib.rs:270-275 | Scanning the entries and testing only their keys gives the linear lower bound of the key sequence. |
| `MapScan.UpperBoundBy` | src/lib.rs:292-299 | Scanning the entries and testing only their keys gives the linear upper bound of the key sequence. |
| `MapScan.LowerBound` | src/lib.rs:266-268 | In a map whose keys ascend under a total order, every key before the answer is less than `x`, and every key from it on is not. |
| `MapScan.UpperBound` | src/lib.rs:288-290 | In such a map, every key before the answer is at most `x`, and every key from it on is greater. |
| `MapScan.LowerBoundByKey` | src/lib.rs:277-283 | The first entry whose key, passed through `f`, is not less than `k`, or `Err(len)`. |
| `MapScan.UpperBoundByKey` | src/lib.rs:301-307 | The first entry whose key, passed through `f`, is greater than `k`, or `Err(len)`. |
| `MapScan.IgnoresValues` | src/lib.rs:274 | Two maps with the same keys in the same order give the same answers, whatever their values. |
| `Cases.VecLowerBoundCases` | src/lib.rs:359-376 | `test_lower_bound`: the expected answers on the empty vector and on `[1,2,4,5,5,6,6]`. |
| `Cases.VecUpperBoundCases` | src/lib.rs:378-395 | `test_upper_bound`: the expected answers on the empty vector and on `[-1,1,2,4,5,5,6,6]`. |
| `Cases.SetLowerBoundCases` | src/lib.rs:397-416 | `test_lower_bound_btreeset`: the expected answers on the empty set and on `{1,2,4,5,6}`. |
| `Cases.DequeDocCases` | src/lib.rs:164-175 | The doc-test: on the deque `[1,2,3]`, lower 2 is `Ok(1)`, upper 2 is `Ok(2)`, upper 0 is `Ok(0)` and lower 4 is `Err(3)`. |
| `Cases.WrappedDequeSearchesFrontOnly` | src/lib.rs:162-163 | The contents `[1,2,3]` stored contiguously give lower 3 = `Ok(2)`. Stored wrapped after the first element, they give `Err(1)`. This is why the deque must be made contiguous first. |
| `Cases.ByFirstIsTotalOrder` | src/lib.rs:40 | An `Ord` on pairs that compares first fields only satisfies `TotalOrder` although it calls distinct pairs `Equal`, so the sortedness hypotheses cover orders whose `PartialEq` is not identity. |
| `Cases.LowerAgreesAcrossContainers` | src/lib.rs:118-352 | On the same strictly ascending contents, `Vec`, contiguous `VecDeque`, `BinaryHeap`, `BTreeSet` and `BTreeMap` give one lower bound, and it splits the contents. |
| `Cases.UpperAgreesAcrossContainers` | src/lib.rs:118-352 | The same for the upper bound. |

## Left out

- Trait dispatch and lifetimes: each impl is a separate function or method per container. The `LowerBound`/`UpperBound` traits (`src/lib.rs:9-38`) have no member of their own.
- `FnMut` side effects: callbacks are pure total functions, and nothing is said about the order or number of calls.
- The value and key wrappers of `Slice`, `VecAdapter` and `DequeAdapter` are methods rather than functions, because they call the bisection method.
- Storage layouts: the heap and the B-trees are modelled by their iteration sequences only. The `VecDeque` ring buffer is modelled by its two slices.
- The `assert_eq!(left, right)` checks (`src/lib.rs:62`, `src/lib.rs:101`) are proved as assertions, so the panic path is not modelled.
- `Ord` itself: its laws are the predicate `TotalOrder` (mirror law, transitivity of `Less` and of `Equal`). They appear as a hypothesis in postconditions and are never checked. `PartialEq` is not a separate relation: it is read as `cmp(a, b) == Equal`, which may relate distinct values, and membership is `Contains` (some element compares `Equal`).
- Integer widths: `usize` and the tests' `i32` are unbounded integers. The bisection's `mid` cannot overflow, and the test values are tiny.
- The crate-level `#![doc = include_str!(..)]`, and the `format!` check of the set's printed form at `src/lib.rs:405`.
- Building the test set by `collect` from `vec![1, 2, 4, 5, 5, 6, 6]` (`src/lib.rs:404`): the set is given directly by its iteration sequence `[1, 2, 4, 5, 6]`.
- HeapScan.LowerBound, HeapScan.UpperBound and the other heap members state no boundary meaning beyond "first qualifying element in iteration order", because heap iteration order is not sorted.
- MapScan.LowerBoundByKey and MapScan.UpperBoundByKey state the first-qualifying-entry meaning, not the split of a key-sorted map.
