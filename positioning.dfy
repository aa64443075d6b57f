/**
 * Finding the index of a row within its group with the sorting block: the
 * neighbour test for an update that keeps its group, the quick tests at the
 * beginning and end of the group when the last change landed there, and the
 * binary search that is used when those fail or are skipped.
 */
module Positioning {

  import opened Wrappers
  import opened Ordering
  import opened Sequences

  /**
   * Where the previous change placed its row: at the first index, at the last
   * index, both (a group of one) or neither.
   */
  datatype Hint = Hint(lastAtFirst: bool, lastAtLast: bool)

  /** The hint left behind by placing a row at index `k` of `s` (`s` without that row). */
  function NextHint<T>(s: seq<T>, k: nat): Hint {
    Hint(k == 0, k == |s|)
  }

  /** Every element before index `lo` sorts no later than `x`. */
  ghost predicate Below<T>(cmp: (T, T) -> Order, s: seq<T>, x: T, lo: nat) {
    forall i | 0 <= i < lo && i < |s| :: cmp(s[i], x) != Descending
  }

  /** `x` sorts no later than any element from index `hi` on. */
  ghost predicate Above<T>(cmp: (T, T) -> Order, s: seq<T>, x: T, hi: nat) {
    forall i | hi <= i < |s| :: cmp(x, s[i]) != Descending
  }

  /** Index `k` is a place for `x` in `s` that keeps the group sorted. */
  ghost predicate ValidPosition<T>(cmp: (T, T) -> Order, s: seq<T>, x: T, k: nat) {
    k <= |s| && Below(cmp, s, x, k) && Above(cmp, s, x, k)
  }

  /** Inserting at a valid position keeps a sorted group sorted. */
  lemma InsertAtValidPosition<T>(cmp: (T, T) -> Order, s: seq<T>, x: T, k: nat)
    requires Sorted(cmp, s) && ValidPosition(cmp, s, x, k)
    ensures Sorted(cmp, InsertAt(s, k, x))
  {
    var r := InsertAt(s, k, x);
    forall i, j | 0 <= i < j < |r| ensures cmp(r[i], r[j]) != Descending {
      if i == k {
        assert r[j] == s[j - 1];
      } else if j == k {
        assert r[i] == s[i];
      } else {
        var i' := if i < k then i else i - 1;
        var j' := if j < k then j else j - 1;
        assert r[i] == s[i'] && r[j] == s[j'] && i' < j';
      }
    }
  }

  /**
   * The converse: if inserting `x` at `k` gives a sorted group, `k` is a
   * valid position. Together with InsertAtValidPosition, ValidPosition is
   * exactly "the group is sorted afterwards".
   */
  lemma SortedInsertIsValidPosition<T>(cmp: (T, T) -> Order, s: seq<T>, x: T, k: nat)
    requires k <= |s| && Sorted(cmp, InsertAt(s, k, x))
    ensures ValidPosition(cmp, s, x, k)
  {
    var r := InsertAt(s, k, x);
    forall i | 0 <= i < k ensures cmp(s[i], x) != Descending {
      assert r[i] == s[i] && r[k] == x;
    }
    forall i | k <= i < |s| ensures cmp(x, s[i]) != Descending {
      assert r[i + 1] == s[i] && r[k] == x;
    }
  }

  /** The neighbour test: `x` sorts between the elements on either side of index `k`. */
  predicate NeighboursFit<T>(cmp: (T, T) -> Order, s: seq<T>, x: T, k: nat)
    requires k <= |s|
  {
    && (k == 0 || cmp(x, s[k - 1]) != Ascending)
    && (k == |s| || cmp(x, s[k]) != Descending)
  }

  /** Two comparisons with the neighbours suffice: in a sorted group they fix a valid position. */
  lemma NeighboursFitIsValid<T(!new)>(cmp: (T, T) -> Order, s: seq<T>, x: T, k: nat)
    requires Preorder(cmp, Items(s) + {x}) && Sorted(cmp, s)
    requires k <= |s| && NeighboursFit(cmp, s, x, k)
    ensures ValidPosition(cmp, s, x, k)
  {
    forall i | 0 <= i < k ensures cmp(s[i], x) != Descending {
      assert s[i] in Items(s) && s[k - 1] in Items(s);
      assert cmp(s[k - 1], x) != Descending;
      if i < k - 1 { assert cmp(s[i], s[k - 1]) != Descending; }
    }
    forall i | k <= i < |s| ensures cmp(x, s[i]) != Descending {
      assert s[i] in Items(s) && s[k] in Items(s);
      if i > k { assert cmp(s[k], s[i]) != Descending; }
    }
  }

  /** The quick test at the beginning: if `x` sorts no later than the first element, index 0 is valid. */
  lemma HeadIsValid<T(!new)>(cmp: (T, T) -> Order, s: seq<T>, x: T)
    requires Preorder(cmp, Items(s) + {x}) && Sorted(cmp, s)
    requires |s| > 0 && cmp(x, s[0]) != Descending
    ensures ValidPosition(cmp, s, x, 0)
  {
    forall i | 0 < i < |s| ensures cmp(x, s[i]) != Descending {
      assert s[0] in Items(s) && s[i] in Items(s);
      assert cmp(s[0], s[i]) != Descending;
    }
  }

  /** The quick test at the end: if `x` sorts no earlier than the last element, index |s| is valid. */
  lemma TailIsValid<T(!new)>(cmp: (T, T) -> Order, s: seq<T>, x: T)
    requires Preorder(cmp, Items(s) + {x}) && Sorted(cmp, s)
    requires |s| > 0 && cmp(x, s[|s| - 1]) != Ascending
    ensures ValidPosition(cmp, s, x, |s|)
  {
    var last := |s| - 1;
    assert s[last] in Items(s);
    assert cmp(s[last], x) != Descending;
    forall i | 0 <= i < last ensures cmp(s[i], x) != Descending {
      assert s[i] in Items(s);
      assert cmp(s[i], s[last]) != Descending;
    }
  }

  /**
   * Binary search for a place of `x` in `s[lo..hi]`, given that everything
   * before `lo` sorts no later than `x` and `x` no later than everything from
   * `hi` on. An element that compares the same as `x` sends the search right.
   */
  function BinarySearch<T(!new)>(cmp: (T, T) -> Order, s: seq<T>, x: T, lo: nat, hi: nat): (k: nat)
    requires lo <= hi <= |s|
    ensures lo <= k <= hi
    ensures Preorder(cmp, Items(s) + {x}) && Sorted(cmp, s) && Below(cmp, s, x, lo) && Above(cmp, s, x, hi)
            ==> ValidPosition(cmp, s, x, k)
    decreases hi - lo
  {
    if lo == hi then lo
    else
      var mid := (lo + hi) / 2;
      if cmp(x, s[mid]) == Ascending then
        BinarySearchLeft(cmp, s, x, mid, hi);
        BinarySearch(cmp, s, x, lo, mid)
      else
        BinarySearchRight(cmp, s, x, lo, mid);
        BinarySearch(cmp, s, x, mid + 1, hi)
  }

  /** `x` sorts before `s[mid]`, so it sorts no later than anything from `mid` on. */
  lemma BinarySearchLeft<T(!new)>(cmp: (T, T) -> Order, s: seq<T>, x: T, mid: nat, hi: nat)
    requires mid < hi <= |s| && cmp(x, s[mid]) == Ascending
    ensures Preorder(cmp, Items(s) + {x}) && Sorted(cmp, s) && Above(cmp, s, x, hi) ==> Above(cmp, s, x, mid)
  {
    if Preorder(cmp, Items(s) + {x}) && Sorted(cmp, s) {
      forall i | mid < i < |s| ensures cmp(x, s[i]) != Descending {
        assert s[mid] in Items(s) && s[i] in Items(s);
        assert cmp(s[mid], s[i]) != Descending;
      }
    }
  }

  /** `x` does not sort before `s[mid]`, so everything up to `mid` sorts no later than `x`. */
  lemma BinarySearchRight<T(!new)>(cmp: (T, T) -> Order, s: seq<T>, x: T, lo: nat, mid: nat)
    requires lo <= mid < |s| && cmp(x, s[mid]) != Ascending
    ensures Preorder(cmp, Items(s) + {x}) && Sorted(cmp, s) && Below(cmp, s, x, lo) ==> Below(cmp, s, x, mid + 1)
  {
    if Preorder(cmp, Items(s) + {x}) && Sorted(cmp, s) {
      assert s[mid] in Items(s);
      assert cmp(s[mid], x) != Descending;
      forall i | 0 <= i < mid ensures cmp(s[i], x) != Descending {
        assert s[i] in Items(s);
        assert cmp(s[i], s[mid]) != Descending;
      }
    }
  }

  /**
   * The positioning search for row `x` in group `s` (which does not hold `x`).
   * `previous` is the row's old index when it is updated within the group it
   * already belonged to, and None when it enters the group. The order of the
   * attempts: neighbour test, empty group, beginning, end, binary search.
   */
  function Place<T(!new)>(cmp: (T, T) -> Order, s: seq<T>, x: T, previous: Option<nat>, hint: Hint): (k: nat)
    ensures k <= |s|
    ensures Preorder(cmp, Items(s) + {x}) && Sorted(cmp, s) ==> ValidPosition(cmp, s, x, k)
    ensures previous.Some? && previous.value <= |s| && NeighboursFit(cmp, s, x, previous.value) ==> k == previous.value
  {
    if previous.Some? && previous.value <= |s| && NeighboursFit(cmp, s, x, previous.value) then
      assert Preorder(cmp, Items(s) + {x}) && Sorted(cmp, s) ==> ValidPosition(cmp, s, x, previous.value) by {
        if Preorder(cmp, Items(s) + {x}) && Sorted(cmp, s) { NeighboursFitIsValid(cmp, s, x, previous.value); }
      }
      previous.value
    else if |s| == 0 then 0
    else if hint.lastAtFirst && cmp(x, s[0]) != Descending then
      assert Preorder(cmp, Items(s) + {x}) && Sorted(cmp, s) ==> ValidPosition(cmp, s, x, 0) by {
        if Preorder(cmp, Items(s) + {x}) && Sorted(cmp, s) { HeadIsValid(cmp, s, x); }
      }
      0
    else if hint.lastAtLast && cmp(x, s[|s| - 1]) != Ascending then
      assert Preorder(cmp, Items(s) + {x}) && Sorted(cmp, s) ==> ValidPosition(cmp, s, x, |s|) by {
        if Preorder(cmp, Items(s) + {x}) && Sorted(cmp, s) { TailIsValid(cmp, s, x); }
      }
      |s|
    else
      BinarySearch(cmp, s, x, 0, |s|)
  }

  /**
   * Rows added in ascending order after a change that ended at the last index
   * take the quick test at the end every time: a row that does not pass the
   * beginning test but sorts no earlier than the last row lands at the last
   * index, and leaves the hint pointing there for the next one.
   */
  lemma AscendingStreamStaysAtEnd<T(!new)>(cmp: (T, T) -> Order, s: seq<T>, x: T, hint: Hint)
    requires |s| > 0 && hint.lastAtLast && cmp(x, s[|s| - 1]) != Ascending
    requires !hint.lastAtFirst || cmp(x, s[0]) == Descending
    ensures Place(cmp, s, x, None, hint) == |s|
    ensures NextHint(s, Place(cmp, s, x, None, hint)).lastAtLast
  {
  }

  /**
   * In a sorted group, a row that sorts after the last row also sorts after
   * the first, so it fails the beginning test and the stream above applies.
   */
  lemma AfterLastIsAfterFirst<T(!new)>(cmp: (T, T) -> Order, s: seq<T>, x: T)
    requires Preorder(cmp, Items(s) + {x}) && Sorted(cmp, s)
    requires |s| > 0 && cmp(x, s[|s| - 1]) == Descending
    ensures cmp(x, s[0]) == Descending
  {
    var last := |s| - 1;
    assert s[0] in Items(s) && s[last] in Items(s);
    assert cmp(s[0], s[last]) != Descending;
  }

  /**
   * Rows added in descending order after a change that ended at the first
   * index take the quick test at the beginning every time.
   */
  lemma DescendingStreamStaysAtBeginning<T(!new)>(cmp: (T, T) -> Order, s: seq<T>, x: T, hint: Hint)
    requires |s| > 0 && hint.lastAtFirst && cmp(x, s[0]) == Ascending
    ensures Place(cmp, s, x, None, hint) == 0
    ensures NextHint(s, Place(cmp, s, x, None, hint)).lastAtFirst
  {
  }
}
