/**
 * The result of a sorting block (Foundation's NSComparisonResult) and the
 * ordering discipline a sorting block must keep for a group to stay sorted.
 */
module Ordering {

  /** NSOrderedAscending (-1), NSOrderedSame (0), NSOrderedDescending (1). */
  datatype Order = Ascending | Same | Descending

  /**
   * `cmp` behaves like a comparison on the elements of `dom`: swapping the
   * arguments swaps Ascending and Descending, and "not Descending" (first
   * argument sorts no later than the second) is transitive.
   */
  ghost predicate Preorder<T(!new)>(cmp: (T, T) -> Order, dom: set<T>) {
    && (forall a, b | a in dom && b in dom :: cmp(a, b) == Ascending <==> cmp(b, a) == Descending)
    && (forall a, b, c | a in dom && b in dom && c in dom ::
          cmp(a, b) != Descending && cmp(b, c) != Descending ==> cmp(a, c) != Descending)
  }

  /** Every earlier element sorts no later than every later one. */
  ghost predicate Sorted<T>(cmp: (T, T) -> Order, s: seq<T>) {
    forall i, j | 0 <= i < j < |s| :: cmp(s[i], s[j]) != Descending
  }

  /** The set of the elements of `s`. */
  ghost function Items<T>(s: seq<T>): set<T> {
    set i | 0 <= i < |s| :: s[i]
  }

  /** Sortedness depends only on what the comparison says about the elements. */
  lemma SortedTransfer<T>(cmp1: (T, T) -> Order, cmp2: (T, T) -> Order, s: seq<T>)
    requires Sorted(cmp1, s)
    requires forall i, j | 0 <= i < j < |s| :: cmp1(s[i], s[j]) == cmp2(s[i], s[j])
    ensures Sorted(cmp2, s)
  {
  }
}
