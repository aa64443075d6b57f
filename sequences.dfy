/** Positional edits of the ordered sequence of row identities that makes up a group. */
module Sequences {

  import opened Ordering

  /** No element occurs twice. */
  ghost predicate NoDup<T>(s: seq<T>) {
    forall i, j | 0 <= i < j < |s| :: s[i] != s[j]
  }

  /** The first index of `x` in `s`, or `|s|` when `x` does not occur. */
  function IndexOf<T(==)>(s: seq<T>, x: T): (k: nat)
    ensures k <= |s|
    ensures k < |s| <==> x in s
    ensures k < |s| ==> s[k] == x
    ensures forall i | 0 <= i < k :: s[i] != x
  {
    if |s| == 0 then 0
    else if s[0] == x then 0
    else 1 + IndexOf(s[1..], x)
  }

  /** `s` with the element at index `k` taken out; later elements shift down by one. */
  function Delete<T>(s: seq<T>, k: nat): (r: seq<T>)
    requires k < |s|
    ensures |r| == |s| - 1
    ensures forall i | 0 <= i < k :: r[i] == s[i]
    ensures forall i | k <= i < |r| :: r[i] == s[i + 1]
  {
    s[..k] + s[k + 1..]
  }

  /** `s` with `x` placed at index `k`; elements from `k` on shift up by one. */
  function InsertAt<T>(s: seq<T>, k: nat, x: T): (r: seq<T>)
    requires k <= |s|
    ensures |r| == |s| + 1 && r[k] == x
    ensures forall i | 0 <= i < k :: r[i] == s[i]
    ensures forall i | k < i < |r| :: r[i] == s[i - 1]
  {
    s[..k] + [x] + s[k..]
  }

  /** An element inserted where it did not occur is found again at the index it was inserted at. */
  lemma IndexOfInsertAt<T>(s: seq<T>, k: nat, x: T)
    requires k <= |s| && x !in s
    ensures IndexOf(InsertAt(s, k, x), x) == k
  {
    var r := InsertAt(s, k, x);
    forall i | 0 <= i < k ensures r[i] != x {
      assert r[i] == s[i];
    }
  }

  /** `s` with every occurrence of `x` dropped, the rest in their order. */
  function Without<T(==)>(s: seq<T>, x: T): seq<T> {
    if |s| == 0 then []
    else (if s[0] == x then [] else [s[0]]) + Without(s[1..], x)
  }

  lemma {:induction false} WithoutConcat<T>(a: seq<T>, b: seq<T>, x: T)
    ensures Without(a + b, x) == Without(a, x) + Without(b, x)
  {
    if |a| > 0 {
      assert (a + b)[1..] == a[1..] + b;
      WithoutConcat(a[1..], b, x);
    } else {
      assert a + b == b;
    }
  }

  lemma WithoutSelf<T>(x: T)
    ensures Without([x], x) == []
  {
    assert [x][1..] == [];
  }

  /** Deleting an occurrence of `x` does not change what is left once `x` is dropped. */
  lemma {:induction false} WithoutDelete<T>(s: seq<T>, k: nat, x: T)
    requires k < |s| && s[k] == x
    ensures Without(Delete(s, k), x) == Without(s, x)
  {
    var a, b := s[..k], s[k + 1..];
    assert s == a + ([x] + b);
    assert Delete(s, k) == a + b;
    WithoutConcat(a, [x] + b, x);
    WithoutConcat([x], b, x);
    WithoutSelf(x);
    WithoutConcat(a, b, x);
  }

  /** Inserting `x` does not change what is left once `x` is dropped. */
  lemma {:induction false} WithoutInsertAt<T>(s: seq<T>, k: nat, x: T)
    requires k <= |s|
    ensures Without(InsertAt(s, k, x), x) == Without(s, x)
  {
    var a, b := s[..k], s[k..];
    assert s == a + b;
    assert InsertAt(s, k, x) == a + ([x] + b);
    WithoutConcat(a, [x] + b, x);
    WithoutConcat([x], b, x);
    WithoutSelf(x);
    WithoutConcat(a, b, x);
  }

  /** Putting back a deleted element at its old index restores the sequence. */
  lemma InsertAtDelete<T>(s: seq<T>, k: nat)
    requires k < |s|
    ensures InsertAt(Delete(s, k), k, s[k]) == s
  {
  }

  lemma DeleteKeepsNoDup<T>(s: seq<T>, k: nat)
    requires k < |s| && NoDup(s)
    ensures NoDup(Delete(s, k))
    ensures forall y | y in Delete(s, k) :: y in s && y != s[k]
    ensures forall y | y in s && y != s[k] :: y in Delete(s, k)
  {
    var r := Delete(s, k);
    forall y | y in s && y != s[k] ensures y in r {
      var i :| 0 <= i < |s| && s[i] == y;
      if i < k { assert r[i] == y; } else { assert i > k; assert r[i - 1] == y; }
    }
  }

  lemma InsertAtKeepsNoDup<T>(s: seq<T>, k: nat, x: T)
    requires k <= |s| && NoDup(s) && x !in s
    ensures NoDup(InsertAt(s, k, x))
    ensures forall y :: y in InsertAt(s, k, x) <==> y in s || y == x
  {
    var r := InsertAt(s, k, x);
    forall y | y in s ensures y in r {
      var i :| 0 <= i < |s| && s[i] == y;
      if i < k { assert r[i] == y; } else { assert r[i + 1] == y; }
    }
  }

  /** Taking an element out of a sorted sequence leaves it sorted. */
  lemma DeleteKeepsSorted<T>(cmp: (T, T) -> Order, s: seq<T>, k: nat)
    requires k < |s| && Sorted(cmp, s)
    ensures Sorted(cmp, Delete(s, k))
  {
    var r := Delete(s, k);
    forall i, j | 0 <= i < j < |r| ensures cmp(r[i], r[j]) != Descending {
      var i' := if i < k then i else i + 1;
      var j' := if j < k then j else j + 1;
      assert r[i] == s[i'] && r[j] == s[j'] && i' < j';
    }
  }
}
