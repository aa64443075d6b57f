/**
 * The grouping and sorting blocks of a collections view, the four parameter
 * sets a block may take, and the rule that decides whether a change to a row
 * can affect what a block of a given type returns.
 */
module Blocks {

  import opened Wrappers
  import opened Ordering

  /** Which parameters a block takes besides the collection and key. */
  datatype BlockType = WithKey | WithObject | WithMetadata | WithObjectAndMetadata

  /** The enum values of YapCollectionsDatabaseViewBlockType. */
  function BlockTypeCode(t: BlockType): int {
    match t
    case WithKey => 201
    case WithObject => 202
    case WithMetadata => 203
    case WithObjectAndMetadata => 204
  }

  /** Reading an enum value back: exactly the four codes 201-204 name a block type. */
  function BlockTypeFromCode(code: int): (r: Option<BlockType>)
    ensures r.Some? <==> 201 <= code <= 204
    ensures r.Some? ==> BlockTypeCode(r.value) == code
    ensures forall t :: BlockTypeCode(t) == code ==> r == Some(t)
  {
    if code == 201 then Some(WithKey)
    else if code == 202 then Some(WithObject)
    else if code == 203 then Some(WithMetadata)
    else if code == 204 then Some(WithObjectAndMetadata)
    else None
  }

  predicate TakesObject(t: BlockType) {
    t == WithObject || t == WithObjectAndMetadata
  }

  predicate TakesMetadata(t: BlockType) {
    t == WithMetadata || t == WithObjectAndMetadata
  }

  /** A database row: its identity (collection, key) and its object and metadata. */
  datatype RowId = RowId(collection: string, key: string)
  datatype Row<O, M> = Row(collection: string, key: string, obj: O, metadata: M)

  /**
   * A grouping block in each of its four forms; it returns None (nil) to
   * exclude the row from the view, or the name of the row's group.
   */
  datatype GroupingBlock<!O, !M> =
    | GroupingWithKey(byKey: (string, string) -> Option<string>)
    | GroupingWithObject(byObject: (string, string, O) -> Option<string>)
    | GroupingWithMetadata(byMetadata: (string, string, M) -> Option<string>)
    | GroupingWithObjectAndMetadata(byBoth: (string, string, O, M) -> Option<string>)

  /**
   * A sorting block in each of its four forms; it receives the group and two
   * rows of it, and says how the first sorts relative to the second.
   */
  datatype SortingBlock<!O, !M> =
    | SortingWithKey(byKey: (string, string, string, string, string) -> Order)
    | SortingWithObject(byObject: (string, string, string, O, string, string, O) -> Order)
    | SortingWithMetadata(byMetadata: (string, string, string, M, string, string, M) -> Order)
    | SortingWithObjectAndMetadata(byBoth: (string, string, string, O, M, string, string, O, M) -> Order)

  /** The parameter set a grouping block actually takes. */
  function GroupingKind<O, M>(b: GroupingBlock<O, M>): BlockType {
    match b
    case GroupingWithKey(_) => WithKey
    case GroupingWithObject(_) => WithObject
    case GroupingWithMetadata(_) => WithMetadata
    case GroupingWithObjectAndMetadata(_) => WithObjectAndMetadata
  }

  /** The parameter set a sorting block actually takes. */
  function SortingKind<O, M>(b: SortingBlock<O, M>): BlockType {
    match b
    case SortingWithKey(_) => WithKey
    case SortingWithObject(_) => WithObject
    case SortingWithMetadata(_) => WithMetadata
    case SortingWithObjectAndMetadata(_) => WithObjectAndMetadata
  }

  /** Invoking a grouping block on a row, passing exactly the parameters it takes. */
  function Classify<O, M>(b: GroupingBlock<O, M>, r: Row<O, M>): Option<string> {
    match b
    case GroupingWithKey(f) => f(r.collection, r.key)
    case GroupingWithObject(f) => f(r.collection, r.key, r.obj)
    case GroupingWithMetadata(f) => f(r.collection, r.key, r.metadata)
    case GroupingWithObjectAndMetadata(f) => f(r.collection, r.key, r.obj, r.metadata)
  }

  /** Invoking a sorting block on two rows of `group`, passing exactly the parameters it takes. */
  function Compare<O, M>(b: SortingBlock<O, M>, group: string, r1: Row<O, M>, r2: Row<O, M>): Order {
    match b
    case SortingWithKey(f) => f(group, r1.collection, r1.key, r2.collection, r2.key)
    case SortingWithObject(f) => f(group, r1.collection, r1.key, r1.obj, r2.collection, r2.key, r2.obj)
    case SortingWithMetadata(f) => f(group, r1.collection, r1.key, r1.metadata, r2.collection, r2.key, r2.metadata)
    case SortingWithObjectAndMetadata(f) =>
      f(group, r1.collection, r1.key, r1.obj, r1.metadata, r2.collection, r2.key, r2.obj, r2.metadata)
  }

  /** Which fields of a row a change replaced (the key of a row never changes). */
  datatype Fields = Fields(objectChanged: bool, metadataChanged: bool)

  /**
   * Whether a change of `f` can alter what a block taking parameter set `t`
   * returns. A key-only block is never affected by a change of a row, and
   * a block taking both object and metadata is affected by any change.
   */
  predicate Affects(t: BlockType, f: Fields): (r: bool)
    ensures !f.objectChanged && !f.metadataChanged ==> !r
    ensures t == WithKey ==> !r
    ensures t == WithObject ==> (r <==> f.objectChanged)
    ensures t == WithMetadata ==> (r <==> f.metadataChanged)
    ensures t == WithObjectAndMetadata ==> (r <==> f.objectChanged || f.metadataChanged)
  {
    (f.objectChanged && TakesObject(t)) || (f.metadataChanged && TakesMetadata(t))
  }

  /**
   * Grouping skip is sound: a block whose parameter set the change does not
   * affect returns the same group for the old and the new row.
   */
  lemma GroupingSkipIsSound<O, M>(b: GroupingBlock<O, M>, collection: string, key: string,
                                  obj: O, metadata: M, obj': O, metadata': M, f: Fields)
    requires !f.objectChanged ==> obj' == obj
    requires !f.metadataChanged ==> metadata' == metadata
    requires !Affects(GroupingKind(b), f)
    ensures Classify(b, Row(collection, key, obj', metadata')) == Classify(b, Row(collection, key, obj, metadata))
  {
  }

  /**
   * Sorting skip is sound: a block whose parameter set the change does not
   * affect compares the new row with any other row exactly as it compared the
   * old one, on either side.
   */
  lemma SortingSkipIsSound<O, M>(b: SortingBlock<O, M>, collection: string, key: string,
                                 obj: O, metadata: M, obj': O, metadata': M, f: Fields)
    requires !f.objectChanged ==> obj' == obj
    requires !f.metadataChanged ==> metadata' == metadata
    requires !Affects(SortingKind(b), f)
    ensures forall g, other ::
      && Compare(b, g, Row(collection, key, obj', metadata'), other) == Compare(b, g, Row(collection, key, obj, metadata), other)
      && Compare(b, g, other, Row(collection, key, obj', metadata')) == Compare(b, g, other, Row(collection, key, obj, metadata))
  {
  }
}
