/** The vocabulary every boundary search shares: three-way comparison outcomes,
    the `Result<usize, usize>` a search returns, `Option` and `ok_or`, the
    comparator closures the value and key forms build, and the laws of `Ord`
    that callers are assumed to respect. */
module Bound {

  /** `std::cmp::Ordering`. */
  datatype Ordering = Less | Equal | Greater

  /** What every search returns. `Ok(i)` names a boundary inside the
      collection (`i < len`); `Err(n)` says that no element qualifies, with `n`
      the length of the sequence that was searched. */
  datatype SearchResult = Ok(index: nat) | Err(index: nat)

  datatype Option<T> = None | Some(value: T)

  /** `Option::ok_or`: a found position becomes `Ok`, a missing one `Err(err)`. */
  function OkOr(o: Option<nat>, err: nat): SearchResult
  {
    match o
    case Some(i) => Ok(i)
    case None => Err(err)
  }

  /** `Ord::cmp` on the integers the tests search (`i32` there; the values used
      are far from its limits, so unbounded integers behave the same). */
  function IntCmp(a: int, b: int): Ordering
  {
    if a < b then Less else if a == b then Equal else Greater
  }

  /** The laws of `Ord` the searches rely on: `Less` and `Greater` are mirror
      images, `Less` is transitive, and `Equal` is transitive. `Equal` is the
      type's own `PartialEq`, an equivalence that need not be identity (a
      comparison of pairs by their first field is such an order); reflexivity
      and symmetry of `Equal` follow from the mirror law. */
  ghost predicate TotalOrder<T(!new)>(cmp: (T, T) -> Ordering)
  {
    && (forall a, b :: cmp(a, b) == Less <==> cmp(b, a) == Greater)
    && (forall a, b, c :: cmp(a, b) == Less && cmp(b, c) == Less ==> cmp(a, c) == Less)
    && (forall a, b, c :: cmp(a, b) == Equal && cmp(b, c) == Equal ==> cmp(a, c) == Equal)
  }

  /** Membership as `Ord` sees it (`BTreeSet::contains`): some element
      compares `Equal` to `x`. */
  ghost predicate Contains<T>(s: seq<T>, cmp: (T, T) -> Ordering, x: T)
  {
    exists j :: 0 <= j < |s| && cmp(s[j], x) == Equal
  }

  /** Non-decreasing under `cmp`: the "assume arr is sorted" of the library. */
  ghost predicate Sorted<T>(s: seq<T>, cmp: (T, T) -> Ordering)
  {
    forall i, j :: 0 <= i < j < |s| ==> cmp(s[i], s[j]) != Greater
  }

  /** Non-decreasing by the key that `key` extracts. */
  ghost predicate SortedBy<T, K>(s: seq<T>, key: T -> K, cmp: (K, K) -> Ordering)
  {
    forall i, j :: 0 <= i < j < |s| ==> cmp(key(s[i]), key(s[j])) != Greater
  }

  /** The closure `|y| y.cmp(x)` through which a value form calls its `_by` form. */
  function ValueCmp<T>(cmp: (T, T) -> Ordering, x: T): T -> Ordering
  {
    y => cmp(y, x)
  }

  /** The closure `|e| f(e).cmp(k)` through which a key form calls its `_by` form. */
  function KeyCmp<T, K>(key: T -> K, cmp: (K, K) -> Ordering, k: K): T -> Ordering
  {
    e => cmp(key(e), k)
  }

  lemma IntCmpIsTotalOrder()
    ensures TotalOrder(IntCmp)
  {
  }

  lemma LeTrans<T(!new)>(cmp: (T, T) -> Ordering, a: T, b: T, c: T)
    requires TotalOrder(cmp)
    requires cmp(a, b) != Greater && cmp(b, c) != Greater
    ensures cmp(a, c) != Greater
  {
  }

  lemma LeLessTrans<T(!new)>(cmp: (T, T) -> Ordering, a: T, b: T, c: T)
    requires TotalOrder(cmp)
    requires cmp(a, b) != Greater && cmp(b, c) == Less
    ensures cmp(a, c) == Less
  {
  }

  lemma LessLeTrans<T(!new)>(cmp: (T, T) -> Ordering, a: T, b: T, c: T)
    requires TotalOrder(cmp)
    requires cmp(a, b) == Less && cmp(b, c) != Greater
    ensures cmp(a, c) == Less
  {
  }

  /** Sortedness checked pair by adjacent pair; a literal sequence can be
      evaluated against it directly. */
  predicate Chained<T>(s: seq<T>, cmp: (T, T) -> Ordering)
  {
    |s| < 2 || (cmp(s[0], s[1]) != Greater && Chained(s[1..], cmp))
  }

  lemma {:induction false} ChainedIsSorted<T(!new)>(s: seq<T>, cmp: (T, T) -> Ordering)
    requires TotalOrder(cmp)
    requires Chained(s, cmp)
    ensures Sorted(s, cmp)
  {
    if |s| >= 2 {
      ChainedIsSorted(s[1..], cmp);
      forall i, j | 0 <= i < j < |s|
        ensures cmp(s[i], s[j]) != Greater
      {
        if i == 0 && j > 1 {
          assert s[1..][0] == s[1] && s[1..][j - 1] == s[j];
          LeTrans(cmp, s[0], s[1], s[j]);
        } else if i > 0 {
          assert s[1..][i - 1] == s[i] && s[1..][j - 1] == s[j];
        }
      }
    }
  }
}
