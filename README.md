# YapDatabase collections view: grouping, sorting and placement

A model of the contract of `YapCollectionsDatabaseView`, the YapDatabase
extension that keeps the rows of a collection/key/value database in named,
sorted groups. A view is created from a grouping block and a sorting block,
each tagged with the parameters it takes (key; key and object; key and
metadata; key, object and metadata). When a row is added or updated:

- the grouping block decides the row's group, or returns nil to keep the
  row out of the view (removing it if it was there);
- the sorting block, invoked with the group's name and two rows, decides
  the row's index within its group;
- the declared parameter sets let the view skip either step when a change
  touches none of a block's parameters;
- when placing a row, the view first compares a row that stays in its group
  with its old left and right neighbours. It then tries the beginning or
  the end of the group when the last change landed there. Binary search is
  the fallback.

The model is written as values and functions, as the header describes it:
the configuration is a datatype fixed at initialisation, and the view's
state is a map from group name to an ordered `seq` of row identities, plus
the reverse map from row to group and a hint saying where the last change
put its row.

Files:

- `wrappers.dfy` (`Wrappers`): `Option`, standing in for `nil`.
- `ordering.dfy` (`Ordering`): `Order` (NSComparisonResult). It also holds
  the `Preorder` discipline a sorting block must keep and `Sorted`.
- `sequences.dfy` (`Sequences`): index lookup, deletion and insertion on a
  group's sequence, and their lemmas.
- `positioning.dfy` (`Positioning`): the positioning search, generic over
  the element type and the comparison. It has the neighbour test, the
  beginning and end tests, binary search and `Place`, each proved to give
  a position that keeps the group sorted.
- `blocks.dfy` (`Blocks`): the block-type enum and its codes 201-204, rows,
  and the four forms of each block as a tagged variant over opaque object
  and metadata types. It also has the skip rule `Affects` and the proofs
  that it is sound for a single block.
- `view.dfy` (`CollectionsView`): the view configuration and `Init`, the
  row store, mutations, the view state and its invariants, and the
  maintenance step `Process`.
- `view_proofs.dfy` (`ViewProofs`): what `Process` guarantees.

Two obligations the header puts on the caller are explicit predicates, used
only as preconditions of lemmas. The view functions run without them, as
the Objective-C code would:

- `WellFormed`: the declared block types are the parameter sets the blocks
  really take (lines 105-110: the view cannot inspect a block).
- `SortingConsistent`: within each group, the sorting block behaves as a
  comparison.

Reading of lines 77-79: "the row is added to a group it didn't previously
belong" turns off the neighbour test (`Place` gets no previous index).
"The last change didn't place an item at the beginning or end" turns off
the beginning and end tests (the hint flags are false). The beginning is
tested before the end, in the order of lines 71-72. A comparison that
returns the same sends binary search to the right. The model does not
assert this as a tie-breaking policy.

## Model

| member | source | states |
|---|---|---|
| `Blocks.BlockTypeFromCode` | YapDatabase/Extensions/View/Collection-Key-Value/YapCollectionsDatabaseView.h:111-116 | Exactly the codes 201-204 name a block type, and each decodes to the one type whose code it is (round trip with `BlockTypeCode`) |
| `Blocks.Affects` | YapDatabase/Extensions/View/Collection-Key-Value/YapCollectionsDatabaseView.h:32-35 | A change of neither object nor metadata affects no block; a key-only block is never affected; an object block is affected exactly by an object change, a metadata block exactly by a metadata change, and a block taking both by either (soundness: `Blocks.GroupingSkipIsSound`, `Blocks.SortingSkipIsSound`) |
| `Blocks.GroupingSkipIsSound` | YapDatabase/Extensions/View/Collection-Key-Value/YapCollectionsDatabaseView.h:32-35 | A grouping block returns the same group for a row whose changed fields are none of the block's parameters |
| `Blocks.SortingSkipIsSound` | YapDatabase/Extensions/View/Collection-Key-Value/YapCollectionsDatabaseView.h:57-60 | A sorting block compares a row whose changed fields are none of its parameters with every other row, on either side, exactly as before |
| `CollectionsView.Init` | YapDatabase/Extensions/View/Collection-Key-Value/YapCollectionsDatabaseView.h:127-136 | The view keeps the two blocks and the two declared block types exactly as given; the configuration is an immutable value |
| `CollectionsView.InitWellFormed` | YapDatabase/Extensions/View/Collection-Key-Value/YapCollectionsDatabaseView.h:105-110 | A view is well formed exactly when each declared block type is the parameter set its block really takes |
| `Positioning.InsertAtValidPosition` | YapDatabase/Extensions/View/Collection-Key-Value/YapCollectionsDatabaseView.h:49-55 | Inserting a row at a valid position keeps a sorted group sorted |
| `Positioning.SortedInsertIsValidPosition` | YapDatabase/Extensions/View/Collection-Key-Value/YapCollectionsDatabaseView.h:49-55 | Conversely, an index whose insertion leaves the group sorted is a valid position |
| `Positioning.NeighboursFitIsValid` | YapDatabase/Extensions/View/Collection-Key-Value/YapCollectionsDatabaseView.h:66-68 | If the row sorts between its left and right neighbours, that index keeps the whole group sorted |
| `Positioning.HeadIsValid` | YapDatabase/Extensions/View/Collection-Key-Value/YapCollectionsDatabaseView.h:70-72 | If the row sorts no later than the first row, index 0 keeps the group sorted |
| `Positioning.TailIsValid` | YapDatabase/Extensions/View/Collection-Key-Value/YapCollectionsDatabaseView.h:70-72 | If the row sorts no earlier than the last row, the end keeps the group sorted |
| `Positioning.BinarySearch` | YapDatabase/Extensions/View/Collection-Key-Value/YapCollectionsDatabaseView.h:81 | Binary search returns an index within its bounds that keeps a sorted group sorted |
| `Positioning.Place` | YapDatabase/Extensions/View/Collection-Key-Value/YapCollectionsDatabaseView.h:62-81 | Every path of the search (neighbour, beginning, end, binary search) gives a position that keeps the group sorted; a row that still fits between its old neighbours keeps its old index |
| `Positioning.AscendingStreamStaysAtEnd` | YapDatabase/Extensions/View/Collection-Key-Value/YapCollectionsDatabaseView.h:84-88 | After a change at the end, a row that fails the beginning test and sorts no earlier than the last row is placed at the end by the end test, whatever the rest of the group holds, and leaves the hint at the end for the next row |
| `Positioning.AfterLastIsAfterFirst` | YapDatabase/Extensions/View/Collection-Key-Value/YapCollectionsDatabaseView.h:84-88 | In a sorted group, a row that sorts after the last row also sorts after the first, so a stream in ascending order fails the beginning test and meets the requires of `AscendingStreamStaysAtEnd` every time |
| `Positioning.DescendingStreamStaysAtBeginning` | YapDatabase/Extensions/View/Collection-Key-Value/YapCollectionsDatabaseView.h:84-88 | After a change at the beginning, a row that sorts before the first row is placed at index 0 by the beginning test, with no assumption on the group, and leaves the hint there |
| `CollectionsView.RemoveRow` | YapDatabase/Extensions/View/Collection-Key-Value/YapCollectionsDatabaseView.h:27 | The row leaves the view: no group is recorded for it, every other row keeps its recorded group, and no group disappears (that it also leaves every group and keeps the others in order: `ViewProofs.RemoveRowKeepsStructure`) |
| `CollectionsView.PlaceRow` | YapDatabase/Extensions/View/Collection-Key-Value/YapCollectionsDatabaseView.h:29-30 | The row is recorded in group `g` and appears in it, which grows by one, every other row keeps its recorded group, and the hint records whether the row landed at the beginning or the end of the group (that the group stays sorted: `ViewProofs.PlaceRowKeeps`) |
| `CollectionsView.NewGroup` | YapDatabase/Extensions/View/Collection-Key-Value/YapCollectionsDatabaseView.h:25-35 | The group the view settles on is either the grouping block's answer or the recorded group, and for a new row always the block's answer (that both agree when the block is skipped: `ViewProofs.NewGroupIsClassification`) |
| `CollectionsView.Process` | YapDatabase/Extensions/View/Collection-Key-Value/YapCollectionsDatabaseView.h:25-81 | A mutation can bring only the mutated row into the view and removes no group (its full contract: `ViewProofs.ProcessKeepsConsistent`, `ViewProofs.ProcessMovesOnlyTheRow` and the fast-path lemmas below) |
| `CollectionsView.Run` | YapDatabase/Extensions/View/Collection-Key-Value/YapCollectionsDatabaseView.h:25 | Rows are only added or updated: the store after a sequence of mutations holds every row it held before, plus only the rows the mutations name (consistency: `ViewProofs.RunKeepsConsistent`) |
| `ViewProofs.NewGroupIsClassification` | YapDatabase/Extensions/View/Collection-Key-Value/YapCollectionsDatabaseView.h:32-35 | Whether the view invokes the grouping block or skips it, the group it settles on is what the block returns for the row as it now is |
| `ViewProofs.SortSkipKeepsComparisons` | YapDatabase/Extensions/View/Collection-Key-Value/YapCollectionsDatabaseView.h:57-60 | A change that touches no parameter of the declared sorting type leaves every comparison between stored rows, in every group, unchanged |
| `ViewProofs.ProcessKeepsConsistent` | YapDatabase/Extensions/View/Collection-Key-Value/YapCollectionsDatabaseView.h:25-30 | After any mutation, every stored row is in the group its grouping block returns (and in none for nil), a row is in at most one group once, and every group is sorted by the sorting block |
| `ViewProofs.ProcessMovesOnlyTheRow` | YapDatabase/Extensions/View/Collection-Key-Value/YapCollectionsDatabaseView.h:26-27 | A mutation changes the group of no other row, and every group holds the other rows in the same order |
| `ViewProofs.ExcludedRowLeavesView` | YapDatabase/Extensions/View/Collection-Key-Value/YapCollectionsDatabaseView.h:26-27 | When the grouping block returns nil the row is in no group afterwards, removed if present, and no other row leaves the view; it needs only that the view was classified by its grouping block, so it holds whatever the sorting block does |
| `ViewProofs.IncludedRowJoinsGroup` | YapDatabase/Extensions/View/Collection-Key-Value/YapCollectionsDatabaseView.h:28-30 | When the grouping block returns a group the row ends up in exactly that group, which is sorted by the sorting block |
| `ViewProofs.GroupingSkipKeepsGroup` | YapDatabase/Extensions/View/Collection-Key-Value/YapCollectionsDatabaseView.h:32-35 | A change that touches no parameter of the declared grouping type leaves the row's group (or exclusion) unchanged, in any view state and whatever the sorting block does |
| `ViewProofs.NewRowTakesEndTest` | YapDatabase/Extensions/View/Collection-Key-Value/YapCollectionsDatabaseView.h:70-75 | After a change at the end of a group, a new row that sorts no earlier than the last row (and fails the beginning test, if that is on) is appended to the group and leaves the hint at the end |
| `ViewProofs.NewRowTakesBeginningTest` | YapDatabase/Extensions/View/Collection-Key-Value/YapCollectionsDatabaseView.h:70-72 | After a change at the beginning of a group, a new row that sorts before the first row is prepended to the group and leaves the hint at the beginning |
| `ViewProofs.SortingSkipKeepsIndex` | YapDatabase/Extensions/View/Collection-Key-Value/YapCollectionsDatabaseView.h:57-60 | When the group is unchanged and the change touches no parameter of the declared sorting type, the view is left exactly as it was |
| `ViewProofs.NeighbourFitKeepsIndex` | YapDatabase/Extensions/View/Collection-Key-Value/YapCollectionsDatabaseView.h:66-68 | An update that keeps the group and still sorts between its left and right neighbours leaves the row at its index and every group unchanged |
| `ViewProofs.RewriteChangesNothing` | YapDatabase/Extensions/View/Collection-Key-Value/YapCollectionsDatabaseView.h:66-68 | Writing a row back with its current object and metadata leaves every group and every row's group unchanged |
| `ViewProofs.RunKeepsConsistent` | YapDatabase/Extensions/View/Collection-Key-Value/YapCollectionsDatabaseView.h:25-30 | The view stays consistent with the row store through any sequence of mutations |
| `ViewProofs.ReachableViewsAreConsistent` | YapDatabase/Extensions/View/Collection-Key-Value/YapCollectionsDatabaseView.h:49-55 | From an empty store and view, after any sequence of mutations every group is sorted and every row is in the group its grouping block names |

## Left out

- Objective-C blocks, `id` values and the concrete typedef signatures: each block is a Dafny function value over opaque object and metadata types. A block that declares the wrong type is the caller's error, stated by `WellFormed`.
- Registration as a database extension (`YapAbstractDatabaseExtension`, `registeredName`) and the view connection and transaction classes: these files are not part of this model.
- Persistence, SQLite storage, snapshots, connections and concurrent readers or writers: I/O and concurrency that the header does not describe.
- Change notifications and changesets: not described in the header.
- Deleting a row from the database: the header describes only adding and updating rows, so the model covers only those.
- The row store API: it is reduced to three mutations (write a whole row, only its object, only its metadata). Writing only a field of a missing row changes nothing.
- Whether a group that becomes empty disappears: the header does not say. The model keeps it as an empty sequence.
- Performance: the number of sorting-block invocations is not modelled. The fast-path lemmas say which test places a row, not what it costs.
- Tie-breaking between rows the sorting block calls the same: the header does not fix a policy, so the model asserts none.
- The "last change" hint: the header speaks of the beginning or end of the view. The model records whether the last placement landed at the first or last index of its group, and tests that end of whichever group the next row enters.
