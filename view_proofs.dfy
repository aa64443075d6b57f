/**
 * What the maintenance step of a collections view guarantees: the view stays
 * consistent with the row store, the skip rules are sound, the fast paths
 * leave a row where it is, and no row other than the mutated one moves.
 */
module ViewProofs {

  import opened Wrappers
  import opened Ordering
  import opened Sequences
  import opened Positioning
  import opened Blocks
  import opened CollectionsView

  /** A consistent sorting block makes the comparison of stored rows a preorder. */
  lemma IdCmpPreorder<O(!new), M(!new)>(v: View<O, M>, g: string, db: Store<O, M>, dom: set<RowId>)
    requires SortingConsistent(v)
    requires forall y | y in dom :: y in db
    ensures Preorder(IdCmp(v, g, db), dom)
  {
    var cmp := IdCmp(v, g, db);
    forall a, b | a in dom && b in dom ensures cmp(a, b) == Ascending <==> cmp(b, a) == Descending {
      assert cmp(a, b) == Compare(v.sortingBlock, g, RowOf(a, db[a]), RowOf(b, db[b]));
      assert cmp(b, a) == Compare(v.sortingBlock, g, RowOf(b, db[b]), RowOf(a, db[a]));
    }
    forall a, b, c | a in dom && b in dom && c in dom && cmp(a, b) != Descending && cmp(b, c) != Descending
      ensures cmp(a, c) != Descending
    {
      assert cmp(a, b) == Compare(v.sortingBlock, g, RowOf(a, db[a]), RowOf(b, db[b]));
      assert cmp(b, c) == Compare(v.sortingBlock, g, RowOf(b, db[b]), RowOf(c, db[c]));
      assert cmp(a, c) == Compare(v.sortingBlock, g, RowOf(a, db[a]), RowOf(c, db[c]));
    }
  }

  /** A group that does not hold `id` compares the same in a store that differs only at `id`. */
  lemma SortedFrame<O, M>(v: View<O, M>, g: string, db: Store<O, M>, db': Store<O, M>, s: seq<RowId>, id: RowId)
    requires forall y | y in s :: y in db && y != id
    requires forall y | y in db && y != id :: y in db' && db'[y] == db[y]
    requires Sorted(IdCmp(v, g, db), s)
    ensures Sorted(IdCmp(v, g, db'), s)
  {
    forall i, j | 0 <= i < j < |s| ensures IdCmp(v, g, db)(s[i], s[j]) == IdCmp(v, g, db')(s[i], s[j]) {
      assert s[i] in s && s[j] in s;
    }
    SortedTransfer(IdCmp(v, g, db), IdCmp(v, g, db'), s);
  }

  /** Every row in a group of a structured state is recorded in the view. */
  lemma GroupMembersAreRecorded(st: ViewState, g: string, y: RowId)
    requires Structured(st) && y in GroupSeq(st, g)
    ensures y in st.groupOf && st.groupOf[y] == g
  {
    var i :| 0 <= i < |st.groups[g]| && st.groups[g][i] == y;
  }

  /** Removing a row keeps the two indexes in agreement and moves no other row. */
  lemma RemoveRowKeepsStructure(st: ViewState, id: RowId)
    requires Structured(st)
    ensures var r := RemoveRow(st, id);
      && Structured(r)
      && r.groupOf == st.groupOf - {id}
      && r.groups.Keys == st.groups.Keys
      && r.hint == st.hint
      && (forall h :: id !in GroupSeq(r, h))
      && (forall h :: Without(GroupSeq(r, h), id) == Without(GroupSeq(st, h), id))
  {
    var r := RemoveRow(st, id);
    if id !in st.groupOf {
      forall h ensures id !in GroupSeq(r, h) {
        if id in GroupSeq(r, h) { GroupMembersAreRecorded(st, h, id); }
      }
    } else {
      var h0 := st.groupOf[id];
      var s := st.groups[h0];
      var k := IndexOf(s, id);
      assert k < |s|;
      assert r.groups == st.groups[h0 := Delete(s, k)];
      DeleteKeepsNoDup(s, k);
      RemovedRowsPresent(st, id, h0, s, k);
      RemovedMembersRecorded(st, id, h0, s, k);
      forall h ensures id !in GroupSeq(r, h) {
        if h != h0 && id in GroupSeq(r, h) {
          GroupMembersAreRecorded(st, h, id);
        }
      }
      forall h ensures Without(GroupSeq(r, h), id) == Without(GroupSeq(st, h), id) {
        if h == h0 { WithoutDelete(s, k, id); }
      }
    }
  }

  lemma RemovedRowsPresent(st: ViewState, id: RowId, h0: string, s: seq<RowId>, k: nat)
    requires Structured(st) && id in st.groupOf && h0 == st.groupOf[id] && s == st.groups[h0]
    requires k < |s| && s[k] == id
    ensures RecordedRowsPresent(st.(groups := st.groups[h0 := Delete(s, k)], groupOf := st.groupOf - {id}))
  {
    var r := st.(groups := st.groups[h0 := Delete(s, k)], groupOf := st.groupOf - {id});
    DeleteKeepsNoDup(s, k);
    forall y | y in r.groupOf ensures r.groupOf[y] in r.groups && y in r.groups[r.groupOf[y]] {
      assert y != id && st.groupOf[y] in st.groups && y in st.groups[st.groupOf[y]];
    }
  }

  lemma RemovedMembersRecorded(st: ViewState, id: RowId, h0: string, s: seq<RowId>, k: nat)
    requires Structured(st) && id in st.groupOf && h0 == st.groupOf[id] && s == st.groups[h0]
    requires k < |s| && s[k] == id
    ensures GroupMembersRecorded(st.(groups := st.groups[h0 := Delete(s, k)], groupOf := st.groupOf - {id}))
  {
    var r := st.(groups := st.groups[h0 := Delete(s, k)], groupOf := st.groupOf - {id});
    DeleteKeepsNoDup(s, k);
    forall g, i | g in r.groups && 0 <= i < |r.groups[g]|
      ensures r.groups[g][i] in r.groupOf && r.groupOf[r.groups[g][i]] == g
    {
      var e := r.groups[g][i];
      if g == h0 {
        assert e in Delete(s, k);
        GroupMembersAreRecorded(st, g, e);
      } else {
        assert e == st.groups[g][i];
      }
    }
  }

  /** Removing a row keeps every group sorted. */
  lemma RemoveRowKeepsSorted<O, M>(v: View<O, M>, st: ViewState, db: Store<O, M>, id: RowId)
    requires forall h | h in st.groups :: Sorted(IdCmp(v, h, db), st.groups[h])
    ensures forall h | h in RemoveRow(st, id).groups :: Sorted(IdCmp(v, h, db), RemoveRow(st, id).groups[h])
  {
    if id in st.groupOf {
      var h0 := st.groupOf[id];
      var s := GroupSeq(st, h0);
      var k := IndexOf(s, id);
      if k < |s| {
        DeleteKeepsSorted(IdCmp(v, h0, db), s, k);
      }
    }
  }

  /** Placing a row that is not in the view keeps the indexes in agreement and every group sorted. */
  lemma PlaceRowKeeps<O(!new), M(!new)>(v: View<O, M>, st: ViewState, db: Store<O, M>, id: RowId, g: string,
                                         previous: Option<nat>)
    requires SortingConsistent(v)
    requires Structured(st) && id !in st.groupOf && id in db
    requires forall y | y in st.groupOf :: y in db
    requires forall h | h in st.groups :: Sorted(IdCmp(v, h, db), st.groups[h])
    ensures var r := PlaceRow(v, st, db, id, g, previous);
      && Structured(r)
      && r.groupOf == st.groupOf[id := g]
      && (forall h | h in r.groups :: Sorted(IdCmp(v, h, db), r.groups[h]))
      && (forall h :: Without(GroupSeq(r, h), id) == Without(GroupSeq(st, h), id))
  {
    var s := GroupSeq(st, g);
    var k := Place(IdCmp(v, g, db), s, id, previous, st.hint);
    assert id !in s by {
      if id in s { GroupMembersAreRecorded(st, g, id); }
    }
    var r := PlaceRow(v, st, db, id, g, previous);
    assert r == ViewState(st.groups[g := InsertAt(s, k, id)], st.groupOf[id := g], NextHint(s, k));
    InsertedStructure(st, id, g, s, k);
    PlacedGroupSorted(v, st, db, id, g, previous);
    forall h | h in r.groups ensures Sorted(IdCmp(v, h, db), r.groups[h]) {
      if h != g { assert r.groups[h] == st.groups[h]; }
    }
    PlaceRowFrame(v, st, db, id, g, previous);
  }

  /** The group a row is placed in is sorted afterwards: the positioning search found a valid position. */
  lemma PlacedGroupSorted<O(!new), M(!new)>(v: View<O, M>, st: ViewState, db: Store<O, M>, id: RowId, g: string,
                                             previous: Option<nat>)
    requires SortingConsistent(v)
    requires Structured(st) && id in db
    requires forall y | y in st.groupOf :: y in db
    requires g in st.groups ==> Sorted(IdCmp(v, g, db), st.groups[g])
    ensures var s := GroupSeq(st, g);
      Sorted(IdCmp(v, g, db), InsertAt(s, Place(IdCmp(v, g, db), s, id, previous, st.hint), id))
  {
    var s := GroupSeq(st, g);
    var cmp := IdCmp(v, g, db);
    var k := Place(cmp, s, id, previous, st.hint);
    forall y | y in Items(s) + {id} ensures y in db {
      if y != id { GroupMembersAreRecorded(st, g, y); }
    }
    IdCmpPreorder(v, g, db, Items(s) + {id});
    assert ValidPosition(cmp, s, id, k);
    InsertAtValidPosition(cmp, s, id, k);
  }

  lemma InsertedStructure(st: ViewState, id: RowId, g: string, s: seq<RowId>, k: nat)
    requires Structured(st) && id !in st.groupOf && s == GroupSeq(st, g) && k <= |s| && id !in s
    ensures Structured(ViewState(st.groups[g := InsertAt(s, k, id)], st.groupOf[id := g], NextHint(s, k)))
  {
    var r := ViewState(st.groups[g := InsertAt(s, k, id)], st.groupOf[id := g], NextHint(s, k));
    assert NoDup(s);
    InsertAtKeepsNoDup(s, k, id);
    forall y | y in r.groupOf ensures r.groupOf[y] in r.groups && y in r.groups[r.groupOf[y]] {
      if y != id && st.groupOf[y] == g {
        assert y in s;
      }
    }
    forall h, i | h in r.groups && 0 <= i < |r.groups[h]|
      ensures r.groups[h][i] in r.groupOf && r.groupOf[r.groups[h][i]] == h
    {
      var e := r.groups[h][i];
      if h == g {
        if e != id {
          assert e in s;
          GroupMembersAreRecorded(st, g, e);
        }
      } else {
        assert e == st.groups[h][i];
      }
    }
  }

  /**
   * Grouping skip is sound for the view: in a consistent view of a well-formed
   * configuration, the group the view settles on for the mutated row, with or
   * without invoking the grouping block, is the one the block returns for the
   * row as it now is.
   */
  lemma NewGroupIsClassification<O, M>(v: View<O, M>, st: ViewState, db: Store<O, M>, m: Mutation<O, M>)
    requires WellFormed(v) && Classified(v, st, db)
    requires m.id in ApplyToStore(db, m)
    ensures NewGroup(v, st, db, m) == Classify(v.groupingBlock, RowOf(m.id, ApplyToStore(db, m)[m.id]))
  {
    var db' := ApplyToStore(db, m);
    var id := m.id;
    if id in db && !Affects(v.groupingBlockType, Touched(m)) {
      assert Lookup(st, id) == Classify(v.groupingBlock, RowOf(id, db[id]));
      GroupingSkipIsSound(v.groupingBlock, id.collection, id.key, db[id].obj, db[id].metadata,
                          db'[id].obj, db'[id].metadata, Touched(m));
    }
  }

  /**
   * Sorting skip is sound for the view: when a change touches none of the
   * parameters of the declared sorting block type, every comparison between
   * stored rows, in any group, comes out as before.
   */
  lemma SortSkipKeepsComparisons<O, M>(v: View<O, M>, db: Store<O, M>, m: Mutation<O, M>, g: string)
    requires WellFormed(v) && m.id in db && !Affects(v.sortingBlockType, Touched(m))
    ensures forall a, b :: IdCmp(v, g, ApplyToStore(db, m))(a, b) == IdCmp(v, g, db)(a, b)
  {
    var db' := ApplyToStore(db, m);
    var id := m.id;
    SortingSkipIsSound(v.sortingBlock, id.collection, id.key, db[id].obj, db[id].metadata,
                       db'[id].obj, db'[id].metadata, Touched(m));
    assert RowOf(id, db'[id]) == Row(id.collection, id.key, db'[id].obj, db'[id].metadata);
    assert RowOf(id, db[id]) == Row(id.collection, id.key, db[id].obj, db[id].metadata);
  }

  /** The view stays consistent with the row store through any mutation. */
  lemma ProcessKeepsConsistent<O(!new), M(!new)>(v: View<O, M>, st: ViewState, db: Store<O, M>, m: Mutation<O, M>)
    requires WellFormed(v) && SortingConsistent(v) && Consistent(v, st, db)
    ensures Consistent(v, Process(v, st, db, m), ApplyToStore(db, m))
  {
    var db' := ApplyToStore(db, m);
    var id := m.id;
    if id !in db' {
      assert db' == db;
    } else {
      var gOld := Lookup(st, id);
      var gNew := NewGroup(v, st, db, m);
      NewGroupIsClassification(v, st, db, m);
      if gNew.None? || gNew != gOld || Affects(v.sortingBlockType, Touched(m)) {
        ProcessMovesRow(v, st, db, m);
      } else {
        ProcessSkipsSorting(v, st, db, m);
      }
    }
  }

  /** Only the mutated row's group can change: every other stored row keeps its classification. */
  lemma ClassifiedAfter<O, M>(v: View<O, M>, st: ViewState, r: ViewState, db: Store<O, M>, m: Mutation<O, M>)
    requires Classified(v, st, db)
    requires m.id in ApplyToStore(db, m)
    requires forall y | y != m.id :: Lookup(r, y) == Lookup(st, y)
    requires Lookup(r, m.id) == Classify(v.groupingBlock, RowOf(m.id, ApplyToStore(db, m)[m.id]))
    ensures Classified(v, r, ApplyToStore(db, m))
  {
  }

  /** The case where the row leaves the view, or is placed (again) with the positioning search. */
  lemma ProcessMovesRow<O(!new), M(!new)>(v: View<O, M>, st: ViewState, db: Store<O, M>, m: Mutation<O, M>)
    requires WellFormed(v) && SortingConsistent(v) && Consistent(v, st, db)
    requires m.id in ApplyToStore(db, m)
    requires var gNew := NewGroup(v, st, db, m);
      gNew.None? || gNew != Lookup(st, m.id) || Affects(v.sortingBlockType, Touched(m))
    ensures Consistent(v, Process(v, st, db, m), ApplyToStore(db, m))
  {
    var db' := ApplyToStore(db, m);
    var id := m.id;
    var gNew := NewGroup(v, st, db, m);
    NewGroupIsClassification(v, st, db, m);
    var st1 := RemoveRow(st, id);
    RemovedRowInNewStore(v, st, db, m);
    var r := Process(v, st, db, m);
    if gNew.Some? {
      var previous := if gNew == Lookup(st, id) then Some(IndexOf(GroupSeq(st, gNew.value), id)) else None;
      assert r == PlaceRow(v, st1, db', id, gNew.value, previous);
      PlaceRowKeeps(v, st1, db', id, gNew.value, previous);
    } else {
      assert r == st1;
    }
    ClassifiedAfter(v, st, r, db, m);
  }

  /** After the mutated row is taken out, every group is sorted in the new store. */
  lemma RemovedRowInNewStore<O, M>(v: View<O, M>, st: ViewState, db: Store<O, M>, m: Mutation<O, M>)
    requires Consistent(v, st, db)
    ensures var st1 := RemoveRow(st, m.id);
      && Structured(st1) && st1.groupOf == st.groupOf - {m.id}
      && GroupsSorted(v, st1, ApplyToStore(db, m))
  {
    var db' := ApplyToStore(db, m);
    var id := m.id;
    var st1 := RemoveRow(st, id);
    RemoveRowKeepsStructure(st, id);
    RemoveRowKeepsSorted(v, st, db, id);
    forall h | h in st1.groups ensures Sorted(IdCmp(v, h, db'), st1.groups[h]) {
      forall y | y in st1.groups[h] ensures y in db && y != id {
        assert id !in GroupSeq(st1, h);
        GroupMembersAreRecorded(st1, h, y);
      }
      SortedFrame(v, h, db, db', st1.groups[h], id);
    }
  }

  /** The case where the row keeps its group and the change touches no parameter of the sorting block. */
  lemma ProcessSkipsSorting<O(!new), M(!new)>(v: View<O, M>, st: ViewState, db: Store<O, M>, m: Mutation<O, M>)
    requires WellFormed(v) && Consistent(v, st, db)
    requires m.id in ApplyToStore(db, m)
    requires var gNew := NewGroup(v, st, db, m);
      gNew.Some? && gNew == Lookup(st, m.id) && !Affects(v.sortingBlockType, Touched(m))
    ensures Process(v, st, db, m) == st
    ensures Consistent(v, st, ApplyToStore(db, m))
  {
    var db' := ApplyToStore(db, m);
    NewGroupIsClassification(v, st, db, m);
    assert m.id in db;
    forall h | h in st.groups ensures Sorted(IdCmp(v, h, db'), st.groups[h]) {
      SortSkipKeepsComparisons(v, db, m, h);
      SortedTransfer(IdCmp(v, h, db), IdCmp(v, h, db'), st.groups[h]);
    }
    ClassifiedAfter(v, st, st, db, m);
  }

  /**
   * A mutation moves no row but the mutated one: every other row keeps its
   * group, and once the mutated row is disregarded every group holds the same
   * rows in the same order.
   */
  lemma ProcessMovesOnlyTheRow<O, M>(v: View<O, M>, st: ViewState, db: Store<O, M>, m: Mutation<O, M>)
    requires Structured(st)
    ensures var r := Process(v, st, db, m);
      && (forall y | y != m.id :: Lookup(r, y) == Lookup(st, y))
      && (forall h :: Without(GroupSeq(r, h), m.id) == Without(GroupSeq(st, h), m.id))
  {
    var db' := ApplyToStore(db, m);
    var id := m.id;
    var r := Process(v, st, db, m);
    if id in db' {
      var gOld := Lookup(st, id);
      var gNew := NewGroup(v, st, db, m);
      if gNew.None? || gNew != gOld || Affects(v.sortingBlockType, Touched(m)) {
        var st1 := RemoveRow(st, id);
        RemoveRowKeepsStructure(st, id);
        if gNew.Some? {
          var previous := if gNew == gOld then Some(IndexOf(GroupSeq(st, gNew.value), id)) else None;
          assert r == PlaceRow(v, st1, db', id, gNew.value, previous);
          PlaceRowFrame(v, st1, db', id, gNew.value, previous);
          forall h ensures Without(GroupSeq(r, h), id) == Without(GroupSeq(st, h), id) {
            assert Without(GroupSeq(r, h), id) == Without(GroupSeq(st1, h), id);
          }
        } else {
          assert r == st1;
        }
      }
    }
  }

  /** Placing a row records its group and leaves every other row where it was, in order. */
  lemma PlaceRowFrame<O, M>(v: View<O, M>, st: ViewState, db: Store<O, M>, id: RowId, g: string, previous: Option<nat>)
    ensures var r := PlaceRow(v, st, db, id, g, previous);
      && r.groupOf == st.groupOf[id := g]
      && (forall h :: Without(GroupSeq(r, h), id) == Without(GroupSeq(st, h), id))
  {
    var s := GroupSeq(st, g);
    var k := Place(IdCmp(v, g, db), s, id, previous, st.hint);
    WithoutInsertAt(s, k, id);
  }

  /**
   * When the grouping block returns nil for the row as it now is, the row is
   * in no group afterwards (it is removed if it was there) and every other row
   * keeps its group.
   */
  lemma ExcludedRowLeavesView<O, M>(v: View<O, M>, st: ViewState, db: Store<O, M>, m: Mutation<O, M>)
    requires WellFormed(v) && Structured(st) && Classified(v, st, db)
    requires m.id in ApplyToStore(db, m)
    requires Classify(v.groupingBlock, RowOf(m.id, ApplyToStore(db, m)[m.id])).None?
    ensures var r := Process(v, st, db, m);
      && m.id !in r.groupOf
      && (forall h :: m.id !in GroupSeq(r, h))
      && r.groupOf == st.groupOf - {m.id}
  {
    NewGroupIsClassification(v, st, db, m);
    assert Process(v, st, db, m) == RemoveRow(st, m.id);
    RemoveRowKeepsStructure(st, m.id);
  }

  /**
   * When the grouping block returns a group for the row as it now is, the row
   * is afterwards in exactly that group, which is sorted by the sorting block.
   */
  lemma IncludedRowJoinsGroup<O(!new), M(!new)>(v: View<O, M>, st: ViewState, db: Store<O, M>, m: Mutation<O, M>, g: string)
    requires WellFormed(v) && SortingConsistent(v) && Consistent(v, st, db)
    requires m.id in ApplyToStore(db, m)
    requires Classify(v.groupingBlock, RowOf(m.id, ApplyToStore(db, m)[m.id])) == Some(g)
    ensures var r := Process(v, st, db, m);
      && Lookup(r, m.id) == Some(g)
      && m.id in GroupSeq(r, g)
      && (forall h | h != g :: m.id !in GroupSeq(r, h))
      && Sorted(IdCmp(v, g, ApplyToStore(db, m)), GroupSeq(r, g))
  {
    var r := Process(v, st, db, m);
    ProcessKeepsConsistent(v, st, db, m);
    forall h | h != g ensures m.id !in GroupSeq(r, h) {
      if m.id in GroupSeq(r, h) { GroupMembersAreRecorded(r, h, m.id); }
    }
  }

  /**
   * Grouping skip: when a change touches no parameter of the declared
   * grouping block type, the row's group (or its exclusion) is unchanged.
   */
  lemma GroupingSkipKeepsGroup<O, M>(v: View<O, M>, st: ViewState, db: Store<O, M>, m: Mutation<O, M>)
    requires m.id in db && !Affects(v.groupingBlockType, Touched(m))
    ensures Lookup(Process(v, st, db, m), m.id) == Lookup(st, m.id)
  {
  }

  /**
   * End fast path in the view: after a change that put its row at the end of
   * the group, a new row that sorts no earlier than the last row (and fails
   * the beginning test, if that one is on) is appended by the end test and
   * leaves the hint at the end for the next row.
   */
  lemma NewRowTakesEndTest<O, M>(v: View<O, M>, st: ViewState, db: Store<O, M>, m: Mutation<O, M>, g: string)
    requires WellFormed(v) && Consistent(v, st, db)
    requires m.SetRow? && m.id !in db
    requires Classify(v.groupingBlock, RowOf(m.id, ApplyToStore(db, m)[m.id])) == Some(g)
    requires var s := GroupSeq(st, g); var cmp := IdCmp(v, g, ApplyToStore(db, m));
      && |s| > 0 && st.hint.lastAtLast && cmp(m.id, s[|s| - 1]) != Ascending
      && (!st.hint.lastAtFirst || cmp(m.id, s[0]) == Descending)
    ensures var r := Process(v, st, db, m);
      GroupSeq(r, g) == GroupSeq(st, g) + [m.id] && r.hint.lastAtLast && !r.hint.lastAtFirst
  {
    var db' := ApplyToStore(db, m);
    var s := GroupSeq(st, g);
    NewGroupIsClassification(v, st, db, m);
    assert RemoveRow(st, m.id) == st;
    AscendingStreamStaysAtEnd(IdCmp(v, g, db'), s, m.id, st.hint);
    assert InsertAt(s, |s|, m.id) == s + [m.id];
  }

  /**
   * Beginning fast path in the view: after a change that put its row at the
   * beginning of the group, a new row that sorts before the first row is
   * prepended by the beginning test and leaves the hint at the beginning.
   */
  lemma NewRowTakesBeginningTest<O, M>(v: View<O, M>, st: ViewState, db: Store<O, M>, m: Mutation<O, M>, g: string)
    requires WellFormed(v) && Consistent(v, st, db)
    requires m.SetRow? && m.id !in db
    requires Classify(v.groupingBlock, RowOf(m.id, ApplyToStore(db, m)[m.id])) == Some(g)
    requires var s := GroupSeq(st, g);
      |s| > 0 && st.hint.lastAtFirst && IdCmp(v, g, ApplyToStore(db, m))(m.id, s[0]) == Ascending
    ensures var r := Process(v, st, db, m);
      GroupSeq(r, g) == [m.id] + GroupSeq(st, g) && r.hint.lastAtFirst && !r.hint.lastAtLast
  {
    var db' := ApplyToStore(db, m);
    var s := GroupSeq(st, g);
    NewGroupIsClassification(v, st, db, m);
    assert RemoveRow(st, m.id) == st;
    DescendingStreamStaysAtBeginning(IdCmp(v, g, db'), s, m.id, st.hint);
    assert InsertAt(s, 0, m.id) == [m.id] + s;
  }

  /**
   * Sorting skip: when the row keeps its group and the change touches no
   * parameter of the declared sorting block type, nothing in the view moves.
   */
  lemma SortingSkipKeepsIndex<O(!new), M(!new)>(v: View<O, M>, st: ViewState, db: Store<O, M>, m: Mutation<O, M>, g: string)
    requires WellFormed(v) && Consistent(v, st, db)
    requires m.id in db && Lookup(st, m.id) == Some(g)
    requires Classify(v.groupingBlock, RowOf(m.id, ApplyToStore(db, m)[m.id])) == Some(g)
    requires !Affects(v.sortingBlockType, Touched(m))
    ensures Process(v, st, db, m) == st
  {
    NewGroupIsClassification(v, st, db, m);
    ProcessSkipsSorting(v, st, db, m);
  }

  /**
   * Neighbour fast path: when the row keeps its group and still sorts between
   * its left and right neighbours, it keeps its index and nothing in the view moves.
   */
  lemma NeighbourFitKeepsIndex<O(!new), M(!new)>(v: View<O, M>, st: ViewState, db: Store<O, M>, m: Mutation<O, M>, g: string)
    requires WellFormed(v) && Consistent(v, st, db)
    requires m.id in db && Lookup(st, m.id) == Some(g)
    requires Classify(v.groupingBlock, RowOf(m.id, ApplyToStore(db, m)[m.id])) == Some(g)
    requires var s := GroupSeq(st, g); var k := IndexOf(s, m.id);
      k < |s| && NeighboursFit(IdCmp(v, g, ApplyToStore(db, m)), Delete(s, k), m.id, k)
    ensures Process(v, st, db, m).groups == st.groups
    ensures Process(v, st, db, m).groupOf == st.groupOf
  {
    var db' := ApplyToStore(db, m);
    var id := m.id;
    NewGroupIsClassification(v, st, db, m);
    if Affects(v.sortingBlockType, Touched(m)) {
      var k := IndexOf(GroupSeq(st, g), id);
      assert Process(v, st, db, m) == PlaceRow(v, RemoveRow(st, id), db', id, g, Some(k));
      ReplaceAtOldIndex(v, st, db', id, g);
    } else {
      ProcessSkipsSorting(v, st, db, m);
    }
  }

  /** Taking a row out and placing it back, when it passes the neighbour test at its old index, restores the view. */
  lemma ReplaceAtOldIndex<O, M>(v: View<O, M>, st: ViewState, db: Store<O, M>, id: RowId, g: string)
    requires Structured(st) && Lookup(st, id) == Some(g)
    requires var s := GroupSeq(st, g); var k := IndexOf(s, id);
      k < |s| && NeighboursFit(IdCmp(v, g, db), Delete(s, k), id, k)
    ensures var r := PlaceRow(v, RemoveRow(st, id), db, id, g, Some(IndexOf(GroupSeq(st, g), id)));
      r.groups == st.groups && r.groupOf == st.groupOf
  {
    var s := GroupSeq(st, g);
    var k := IndexOf(s, id);
    assert g in st.groups && s == st.groups[g] && s[k] == id;
    var d := Delete(s, k);
    var st1 := st.(groups := st.groups[g := d], groupOf := st.groupOf - {id});
    assert RemoveRow(st, id) == st1;
    assert GroupSeq(st1, g) == d;
    var cmp := IdCmp(v, g, db);
    assert Place(cmp, d, id, Some(k), st1.hint) == k;
    InsertAtDelete(s, k);
    assert PlaceRow(v, st1, db, id, g, Some(k)).groups == st.groups[g := d][g := s];
    MapRestore(st.groups, g, d);
    MapRestoreRemoved(st.groupOf, id);
  }

  lemma MapRestore<K, V>(m: map<K, V>, k: K, other: V)
    requires k in m
    ensures m[k := other][k := m[k]] == m
  {
  }

  lemma MapRestoreRemoved<K, V>(m: map<K, V>, k: K)
    requires k in m
    ensures (m - {k})[k := m[k]] == m
  {
  }

  /**
   * Writing a row back unchanged leaves every group as it was: the row passes
   * the neighbour test at its old index (or the sorting step is skipped).
   */
  lemma RewriteChangesNothing<O(!new), M(!new)>(v: View<O, M>, st: ViewState, db: Store<O, M>, id: RowId)
    requires WellFormed(v) && SortingConsistent(v) && Consistent(v, st, db)
    requires id in db
    ensures var r := Process(v, st, db, SetRow(id, db[id].obj, db[id].metadata));
      r.groups == st.groups && r.groupOf == st.groupOf
  {
    var m := SetRow(id, db[id].obj, db[id].metadata);
    var db' := ApplyToStore(db, m);
    assert db' == db;
    var gOld := Lookup(st, id);
    if gOld.Some? {
      var g := gOld.value;
      var s := GroupSeq(st, g);
      var k := IndexOf(s, id);
      var cmp := IdCmp(v, g, db);
      assert k < |s|;
      assert Sorted(cmp, s);
      forall y | y in Items(s) ensures y in db {
        GroupMembersAreRecorded(st, g, y);
      }
      IdCmpPreorder(v, g, db, Items(s));
      if k > 0 {
        assert s[k - 1] in Items(s) && s[k] in Items(s);
        assert cmp(s[k - 1], s[k]) != Descending;
        assert cmp(id, Delete(s, k)[k - 1]) != Ascending;
      }
      if k < |s| - 1 {
        assert cmp(s[k], s[k + 1]) != Descending;
        assert cmp(id, Delete(s, k)[k]) != Descending;
      }
      NeighbourFitKeepsIndex(v, st, db, m, g);
    } else {
      NewGroupIsClassification(v, st, db, m);
    }
  }

  /** The empty view is consistent with the empty row store. */
  lemma EmptyStateConsistent<O, M>(v: View<O, M>)
    ensures Consistent(v, EmptyState(), map[])
  {
  }

  /** The view stays consistent through any sequence of mutations. */
  lemma {:induction false} RunKeepsConsistent<O(!new), M(!new)>(v: View<O, M>, st: ViewState, db: Store<O, M>,
                                                                 ms: seq<Mutation<O, M>>)
    requires WellFormed(v) && SortingConsistent(v) && Consistent(v, st, db)
    ensures Consistent(v, Run(v, st, db, ms).0, Run(v, st, db, ms).1)
    decreases |ms|
  {
    if |ms| > 0 {
      ProcessKeepsConsistent(v, st, db, ms[0]);
      RunKeepsConsistent(v, Process(v, st, db, ms[0]), ApplyToStore(db, ms[0]), ms[1..]);
    }
  }

  /**
   * Starting from an empty store and an empty view, after any sequence of
   * mutations every group is sorted and every row is where its grouping block
   * puts it.
   */
  lemma ReachableViewsAreConsistent<O(!new), M(!new)>(v: View<O, M>, ms: seq<Mutation<O, M>>)
    requires WellFormed(v) && SortingConsistent(v)
    ensures var (st, db) := Run(v, EmptyState(), map[], ms);
      GroupsSorted(v, st, db) && Classified(v, st, db) && Structured(st)
  {
    EmptyStateConsistent(v);
    RunKeepsConsistent(v, EmptyState(), map[], ms);
  }
}
