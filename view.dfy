/**
 * A collections view: the configuration fixed when it is created, the state
 * it maintains (named groups, each an ordered sequence of row identities) and
 * the step that updates that state when a row is added or updated.
 */
module CollectionsView {

  import opened Wrappers
  import opened Ordering
  import opened Sequences
  import opened Positioning
  import opened Blocks

  /**
   * What the initialiser stores: the grouping block and sorting block and the
   * block types declared for them. A datatype value, so none of the four can
   * change after initialisation.
   */
  datatype View<!O, !M> = View(
    groupingBlock: GroupingBlock<O, M>,
    groupingBlockType: BlockType,
    sortingBlock: SortingBlock<O, M>,
    sortingBlockType: BlockType)

  /** The initialiser: keeps the two blocks and the two declared types exactly as given. */
  function Init<O(!new), M(!new)>(groupingBlock: GroupingBlock<O, M>, groupingBlockType: BlockType,
                      sortingBlock: SortingBlock<O, M>, sortingBlockType: BlockType): (v: View<O, M>)
    ensures v.groupingBlockType == groupingBlockType && v.sortingBlockType == sortingBlockType
    ensures v.groupingBlock == groupingBlock && v.sortingBlock == sortingBlock
  {
    View(groupingBlock, groupingBlockType, sortingBlock, sortingBlockType)
  }

  /**
   * The caller's obligation: the declared types are the parameter sets the
   * blocks really take (the view cannot inspect a block to find out).
   */
  predicate WellFormed<O, M>(v: View<O, M>) {
    GroupingKind(v.groupingBlock) == v.groupingBlockType && SortingKind(v.sortingBlock) == v.sortingBlockType
  }

  /** A view is well formed exactly when it is initialised with the types its blocks really take. */
  lemma InitWellFormed<O(!new), M(!new)>(groupingBlock: GroupingBlock<O, M>, groupingBlockType: BlockType,
                                         sortingBlock: SortingBlock<O, M>, sortingBlockType: BlockType)
    ensures WellFormed(Init(groupingBlock, groupingBlockType, sortingBlock, sortingBlockType))
            <==> groupingBlockType == GroupingKind(groupingBlock) && sortingBlockType == SortingKind(sortingBlock)
  {
  }

  /**
   * The caller's obligation on the sorting block: within every group it
   * behaves as a comparison (swapping the rows swaps Ascending and
   * Descending; "not Descending" is transitive).
   */
  ghost predicate SortingConsistent<O(!new), M(!new)>(v: View<O, M>) {
    && (forall g, a, b :: Compare(v.sortingBlock, g, a, b) == Ascending <==> Compare(v.sortingBlock, g, b, a) == Descending)
    && (forall g, a, b, c ::
          Compare(v.sortingBlock, g, a, b) != Descending && Compare(v.sortingBlock, g, b, c) != Descending
          ==> Compare(v.sortingBlock, g, a, c) != Descending)
  }

  /** The row store the view reads: each row's object and metadata by identity. */
  datatype Entry<O, M> = Entry(obj: O, metadata: M)
  type Store<O, M> = map<RowId, Entry<O, M>>

  function RowOf<O, M>(id: RowId, e: Entry<O, M>): Row<O, M> {
    Row(id.collection, id.key, e.obj, e.metadata)
  }

  /** The sorting block applied to two stored rows of group `g`. */
  function IdOrder<O, M>(v: View<O, M>, g: string, db: Store<O, M>, a: RowId, b: RowId): Order {
    if a in db && b in db then Compare(v.sortingBlock, g, RowOf(a, db[a]), RowOf(b, db[b])) else Same
  }

  function IdCmp<O, M>(v: View<O, M>, g: string, db: Store<O, M>): (RowId, RowId) -> Order {
    (a: RowId, b: RowId) => IdOrder(v, g, db, a, b)
  }

  /** A change to the row store: a whole row written, or only its object or only its metadata. */
  datatype Mutation<O, M> =
    | SetRow(id: RowId, obj: O, metadata: M)
    | SetObject(id: RowId, obj: O)
    | SetMetadata(id: RowId, metadata: M)

  /** The fields a mutation replaces. */
  function Touched<O, M>(m: Mutation<O, M>): Fields {
    match m
    case SetRow(_, _, _) => Fields(true, true)
    case SetObject(_, _) => Fields(true, false)
    case SetMetadata(_, _) => Fields(false, true)
  }

  /**
   * The row store after a mutation. Writing a whole row adds or replaces it;
   * writing only the object or only the metadata of a row that does not exist
   * changes nothing.
   */
  function ApplyToStore<O, M>(db: Store<O, M>, m: Mutation<O, M>): (db': Store<O, M>)
    ensures db'.Keys == if m.SetRow? then db.Keys + {m.id} else db.Keys
    ensures forall y | y in db && y != m.id :: db'[y] == db[y]
    ensures m.id in db ==> !Touched(m).objectChanged ==> db'[m.id].obj == db[m.id].obj
    ensures m.id in db ==> !Touched(m).metadataChanged ==> db'[m.id].metadata == db[m.id].metadata
  {
    match m
    case SetRow(id, o, md) => db[id := Entry(o, md)]
    case SetObject(id, o) => if id in db then db[id := Entry(o, db[id].metadata)] else db
    case SetMetadata(id, md) => if id in db then db[id := Entry(db[id].obj, md)] else db
  }

  /**
   * The view's state: each group's rows in order, the group of each row in
   * the view, and where the last change placed its row.
   */
  datatype ViewState = ViewState(groups: map<string, seq<RowId>>, groupOf: map<RowId, string>, hint: Hint)

  function EmptyState(): ViewState {
    ViewState(map[], map[], Hint(false, false))
  }

  /** The rows of group `g` in order (none for a group that does not exist). */
  function GroupSeq(st: ViewState, g: string): seq<RowId> {
    if g in st.groups then st.groups[g] else []
  }

  /** The group of a row, or None when the row is not in the view. */
  function Lookup(st: ViewState, id: RowId): Option<string> {
    if id in st.groupOf then Some(st.groupOf[id]) else None
  }

  /** Every row in the view sits in the group recorded for it. */
  ghost predicate RecordedRowsPresent(st: ViewState) {
    forall id | id in st.groupOf :: st.groupOf[id] in st.groups && id in st.groups[st.groupOf[id]]
  }

  /** Every row of a group has that group recorded for it. */
  ghost predicate GroupMembersRecorded(st: ViewState) {
    forall g, i | g in st.groups && 0 <= i < |st.groups[g]| ::
      st.groups[g][i] in st.groupOf && st.groupOf[st.groups[g][i]] == g
  }

  /** No group holds a row twice. */
  ghost predicate NoDuplicates(st: ViewState) {
    forall g | g in st.groups :: NoDup(st.groups[g])
  }

  /**
   * The two indexes agree, so a row is in at most one group, at one index:
   * the group recorded for it.
   */
  ghost predicate Structured(st: ViewState) {
    RecordedRowsPresent(st) && GroupMembersRecorded(st) && NoDuplicates(st)
  }

  /**
   * The view is up to date with the row store: every stored row is in the
   * group its grouping block returns (and in none when it returns nil), and
   * every group is sorted by the sorting block.
   */
  ghost predicate Consistent<O, M>(v: View<O, M>, st: ViewState, db: Store<O, M>) {
    && Structured(st)
    && (forall id | id in st.groupOf :: id in db)
    && Classified(v, st, db)
    && GroupsSorted(v, st, db)
  }

  /** Each stored row is in the group its grouping block returns, and in none when it returns nil. */
  ghost predicate Classified<O, M>(v: View<O, M>, st: ViewState, db: Store<O, M>) {
    forall id | id in db :: Lookup(st, id) == Classify(v.groupingBlock, RowOf(id, db[id]))
  }

  /** Each group is sorted by the sorting block, invoked with the group's name. */
  ghost predicate GroupsSorted<O, M>(v: View<O, M>, st: ViewState, db: Store<O, M>) {
    forall g | g in st.groups :: Sorted(IdCmp(v, g, db), st.groups[g])
  }

  /** Take a row out of the view; later rows of its group shift down by one. */
  function RemoveRow(st: ViewState, id: RowId): (r: ViewState)
    ensures r.groupOf == st.groupOf - {id}
    ensures r.groups.Keys == st.groups.Keys && r.hint == st.hint
  {
    if id !in st.groupOf then st
    else
      var h := st.groupOf[id];
      var s := GroupSeq(st, h);
      var k := IndexOf(s, id);
      st.(groups := if k < |s| then st.groups[h := Delete(s, k)] else st.groups,
          groupOf := st.groupOf - {id})
  }

  /** Put a row that is not in the view into group `g`, at the index the positioning search finds. */
  function PlaceRow<O, M>(v: View<O, M>, st: ViewState, db: Store<O, M>, id: RowId, g: string,
                          previous: Option<nat>): (r: ViewState)
    ensures r.groupOf == st.groupOf[id := g]
    ensures r.groups.Keys == st.groups.Keys + {g}
    ensures id in GroupSeq(r, g) && |GroupSeq(r, g)| == |GroupSeq(st, g)| + 1
    ensures id !in GroupSeq(st, g) ==> r.hint == NextHint(GroupSeq(st, g), IndexOf(GroupSeq(r, g), id))
  {
    var s := GroupSeq(st, g);
    var k := Place(IdCmp(v, g, db), s, id, previous, st.hint);
    assert id !in s ==> IndexOf(InsertAt(s, k, id), id) == k by {
      if id !in s { IndexOfInsertAt(s, k, id); }
    }
    ViewState(st.groups[g := InsertAt(s, k, id)], st.groupOf[id := g], NextHint(s, k))
  }

  /**
   * The group a mutated row belongs to afterwards, as the view determines it:
   * the grouping block is invoked for a new row or when the change touches one
   * of the parameters of the declared grouping block type; otherwise the old
   * group (or exclusion) stands.
   */
  function NewGroup<O, M>(v: View<O, M>, st: ViewState, db: Store<O, M>, m: Mutation<O, M>): (r: Option<string>)
    requires m.id in ApplyToStore(db, m)
    ensures r == Classify(v.groupingBlock, RowOf(m.id, ApplyToStore(db, m)[m.id])) || r == Lookup(st, m.id)
    ensures m.id !in db ==> r == Classify(v.groupingBlock, RowOf(m.id, ApplyToStore(db, m)[m.id]))
  {
    if m.id !in db || Affects(v.groupingBlockType, Touched(m))
    then Classify(v.groupingBlock, RowOf(m.id, ApplyToStore(db, m)[m.id]))
    else Lookup(st, m.id)
  }

  /**
   * The view's reaction to a mutation of row `m.id` (`db` is the store before
   * it). The grouping block is invoked only for a new row or when the change
   * touches one of its parameters; nil removes the row. A row that keeps its
   * group keeps its index when the change touches none of the sorting block's
   * parameters; otherwise it is placed again, trying its old neighbours first.
   */
  function Process<O, M>(v: View<O, M>, st: ViewState, db: Store<O, M>, m: Mutation<O, M>): (r: ViewState)
    ensures r.groupOf.Keys <= st.groupOf.Keys + {m.id}
    ensures st.groups.Keys <= r.groups.Keys
  {
    var db' := ApplyToStore(db, m);
    var id := m.id;
    if id !in db' then st
    else
      var gOld := Lookup(st, id);
      var gNew := NewGroup(v, st, db, m);
      if gNew.None? then RemoveRow(st, id)
      else if gNew == gOld && !Affects(v.sortingBlockType, Touched(m)) then st
      else
        var previous := if gNew == gOld then Some(IndexOf(GroupSeq(st, gNew.value), id)) else None;
        PlaceRow(v, RemoveRow(st, id), db', id, gNew.value, previous)
  }

  /** A sequence of mutations, applied to the store and the view one after another. */
  function Run<O, M>(v: View<O, M>, st: ViewState, db: Store<O, M>, ms: seq<Mutation<O, M>>): (r: (ViewState, Store<O, M>))
    ensures db.Keys <= r.1.Keys
    ensures r.1.Keys <= db.Keys + set i | 0 <= i < |ms| :: ms[i].id
    decreases |ms|
  {
    if |ms| == 0 then (st, db)
    else Run(v, Process(v, st, db, ms[0]), ApplyToStore(db, ms[0]), ms[1..])
  }
}
