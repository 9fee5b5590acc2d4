# Kanban board: a Dafny model of the `Board` component

The kanban board is a single React component, `Board`. It shows columns of
task cards and keeps all of its state in four variables:

- `boardState`: the cards by id, the columns by id, and the order in which the columns are shown;
- `searchQuery`: the text of the search box;
- `history`: a list of board snapshots;
- `currentIndex`: the position in `history` of the shown board.

Its handlers do the following:

- `onDragEnd` moves a card by splicing the columns' task-id lists;
- `addColumn` and `deleteColumn` edit the columns;
- `updateBoardState` merges a partial board into the current one and records a snapshot, discarding what could be redone;
- `undo` and `redo` move the current index;
- the render shows, in each column, the cards whose lower-cased text contains the lower-cased query.

The model is split into modules:

- `JsArray`: the JavaScript array operations the handlers use (`splice` with its clamping rules, `filter`).
- `KanbanInterfaces`: the record types and the board invariant `Consistent`. Under it, every record sits under its own id, `columnOrder` lists every column exactly once, and every placed card exists and is placed exactly once.
- `Search`: `toLowerCase`, `includes`, and the per-column filter of the render.
- `Moves`: `onDragEnd` as written. `ViewDrops` is the same reducer fed indices translated from the filtered view (see Findings).
- `ColumnEdits`: `addColumn` and `deleteColumn`.
- `Seed`: `initialData`, and the moves and the filtered drop played out on it.
- `BoardHistory`: the component's whole state.
  - `Session` is the state as a value.
  - `Commit`, `UndoStep`, `RedoStep` and `Step` state what each handler does to it. `Step` applies a drop through the index-translated reducer `ViewDrops.DropInView`, not through `onDragEnd` as written (see Findings).
  - The class `Board` holds the four state variables as fields, and its methods update them in place. Each method is proved to perform the corresponding session function, so `Board.OnDragEnd` also applies the translated drop.

The main results are these:

- Every handler keeps the history in sync with the current index.
- Undo and redo are inverse.
- A new edit after an undo discards the redo branch.
- RunKeepsConsistent: in the session whose drops are translated from view indices (`ViewDrops.DropInView`), every snapshot reachable from a consistent board by any run of admissible events is consistent. Admissible means that a drop is one the view can report, and that an added column's id is fresh. The handler as written does not keep the board consistent under a filtered view: `Seed.FilteredDropAsWritten` exhibits a drop that loses one card and duplicates another.
- DropInViewLands: a translated drop shows the dragged card at the destination index the user chose, read in the filtered view, with the other shown cards in their old order.

## Model

| member | source | states |
|---|---|---|
| JsArray.SpliceStart | src/components/Board.tsx:40 | the splice position lies in `[0, len]` and equals the start when the start is already in range |
| JsArray.RemoveAt | src/components/Board.tsx:39-40 | `splice(i, 1)` on a copy: one element fewer exactly when the position is inside the array, the elements before it kept, those after it shifted left, and the multiset loses exactly the removed element |
| JsArray.InsertAt | src/components/Board.tsx:43 | `splice(i, 0, x)`: one element more, `x` at the clamped position, the elements before it kept, those after it shifted right, and the multiset gains exactly `x` |
| JsArray.RemoveInserted | src/components/Board.tsx:49-50 | removing at the insertion position gives back the list before the insertion |
| JsArray.RemoveThenInsert | src/components/Board.tsx:39-43 | taking the element at `i` out and putting it back at `i` restores the list |
| JsArray.Without | src/components/Board.tsx:85 | `filter(id => id !== x)`: never longer than the input, and `x` no longer occurs |
| JsArray.InsertAtLands | src/components/Board.tsx:43 | inserting at an in-range position puts `x` at exactly that index, and removing it there gives back the list |
| JsArray.WithoutCounts | src/components/Board.tsx:85 | `filter(id => id !== x)` drops every occurrence of `x` and no other element, and leaves a list without `x` unchanged |
| JsArray.WithoutSnocFresh | src/components/Board.tsx:85 | filtering a fresh id out of a list extended by it gives back the list |
| JsArray.WithoutIsSubsequence | src/components/Board.tsx:85 | the filter keeps the surviving ids in their original order |
| KanbanInterfaces.ConsistentFromParts | src/interfaces/KanbanInterfaces.ts:12-16 | a board whose columns were edited is consistent when its records sit under their own ids, its order lists every column once, and no card is placed more often than before |
| KanbanInterfaces.PlacedReplace | src/interfaces/KanbanInterfaces.ts:6-16 | replacing one listed column swaps that column's placements for the new column's and leaves all other placements alone |
| KanbanInterfaces.PlacedDelete | src/interfaces/KanbanInterfaces.ts:6-16 | removing a column's key from `columns` and from `columnOrder` removes exactly that column's placements |
| KanbanInterfaces.PlacedUnlisted | src/interfaces/KanbanInterfaces.ts:12-16 | a column not listed in `columnOrder` contributes no placements, whether stored or removed |
| KanbanInterfaces.PlacedHasColumnTasks | src/interfaces/KanbanInterfaces.ts:12-16 | every card of a listed column counts among the placed cards |
| Search.ToLowerChar | src/components/Board.tsx:145 | ASCII upper-case letters map to the letter 32 code points below; every other character is kept |
| Search.ToLower | src/components/Board.tsx:145 | same length, lower-cased character by character, and no upper-case letter left |
| Search.Includes | src/components/Board.tsx:145 | `includes`: the empty query is always found, and a found query is no longer than the text |
| Search.Matches | src/components/Board.tsx:144-146 | the render's filter: the empty query matches every card, and a query longer than the card's text matches none |
| Search.IncludesIffOccurs | src/components/Board.tsx:145 | `includes` holds exactly when the query occurs at some position of the text |
| Search.VisibleTasks | src/components/Board.tsx:142-146 | the displayed list is no longer than the column, and every card on it matches the query |
| Search.VisiblePositions | src/components/Column.tsx:15-17 | the positions of the shown cards are positions of the column's list |
| Search.VisiblePositionsSound | src/components/Board.tsx:142-146 | every visible position holds an existing card that matches the query |
| Search.VisiblePositionsComplete | src/components/Board.tsx:142-146 | every existing matching card of the column is at a visible position |
| Search.VisiblePositionsIncreasing | src/components/Board.tsx:142-146 | the visible positions increase, so the filter keeps the column's order |
| Search.VisibleTasksAtPositions | src/components/Board.tsx:142-146 | the displayed list is the column read at the visible positions |
| Search.EmptyQueryShowsAll | src/components/Board.tsx:142-146 | with an empty query every card of the column is shown, at its own index |
| Search.OccurrenceShows | src/components/Board.tsx:145 | a card whose text contains the query, up to letter case, is shown |
| Search.MissingLetterHides | src/components/Board.tsx:145 | a card whose text lacks a letter of the query in both cases is hidden |
| Search.ShownIds | src/components/Column.tsx:33-35 | the ids of the cards a column shows, no more of them than the column holds |
| Search.ShownIdsAppend | src/components/Board.tsx:142-146 | the filter distributes over concatenation of task-id lists |
| Search.ShownIdsAtPositions | src/components/Column.tsx:33-35 | the shown ids are the column read at the visible positions |
| Search.ShownAbove | src/components/Column.tsx:33-35 | exactly `v` cards are shown above the card shown at view index `v` |
| Search.ShownIdsSplit | src/components/Board.tsx:142-146 | splitting a column splits its shown cards at the same place, and a shown card put in at the split appears between the halves |
| Search.ShownIdsCut | src/components/Board.tsx:142-146 | cutting a shown card out of a column cuts it out of the shown cards and joins the rest |
| Moves.OnDragEnd | src/components/Board.tsx:33-60 | a drop with no destination does nothing; a drop naming a missing source or destination column crashes (the handler reads `taskIds` of `undefined`), which the model reports as `MissingColumn` of the first missing id; any other drop changes only `columns` |
| Moves.SameColumnMove | src/components/Board.tsx:42-47 | within one column: that column becomes its list with the source entry removed and the dragged id inserted, of unchanged length for an in-range source, and every other column stays as it was |
| Moves.CrossColumnMove | src/components/Board.tsx:48-59 | between columns: the source loses exactly the entry at the source index, the destination gains the dragged id at the destination position and nothing else, and every other column stays as it was |
| Moves.ConsistentAfterRewrite | src/components/Board.tsx:45-57 | rewriting columns under the same keys with the same placements keeps a board consistent |
| Moves.MoveWithinKeepsEntries | src/components/Board.tsx:39-43 | moving an entry within a list keeps its multiset |
| Moves.SameColumnPlacement | src/components/Board.tsx:42-47 | a drop within a column that removes the dragged card keeps every card's placement count |
| Moves.CrossColumnPlacement | src/components/Board.tsx:48-59 | a drop between columns that removes the dragged card keeps every card's placement count |
| Moves.MovePreservesPlacement | src/components/Board.tsx:33-60 | a drop of the card found at the source index keeps every card's placement count |
| Moves.MovePreservesConsistency | src/components/Board.tsx:33-60 | such a drop keeps a consistent board consistent: no card is lost and none is duplicated |
| Moves.MoveBackIsIdentity | src/components/Board.tsx:42-47 | dropping a card back where it was picked up leaves the board equal |
| ViewDrops.ViewToCanonical | src/components/Column.tsx:33-35 | a shown index maps to a position of the full list; an index past the shown cards maps to the end |
| ViewDrops.ToCanonical | src/components/Column.tsx:33-35 | translating a drop keeps its card, its columns and whether it has a destination (where the card then lands: `ViewDrops.DropInViewLands`) |
| ViewDrops.DropInView | src/components/Board.tsx:33-60 | the drop translated from view indices: ignored exactly without a destination, throws exactly on a missing column, and otherwise changes only `columns` |
| ViewDrops.DropInViewPreservesConsistency | src/components/Column.tsx:15-35 | a drop the filtered view reports, once translated, keeps every placement count and keeps a consistent board consistent, whatever the query |
| ViewDrops.ShownCardIsDragged | src/components/Column.tsx:33-35 | the card displayed at the source index is the dragged card |
| ViewDrops.UnfilteredIndex | src/components/Board.tsx:142-146 | with an empty query the translated index splices at the same position as the raw one |
| ViewDrops.SameSplicesSameOutcome | src/components/Board.tsx:33-60 | the reducer depends on the indices only through their splice positions |
| ViewDrops.ShownAboveCanonical | src/components/Column.tsx:33-35 | the full-list position named by a view index has as many shown cards above it as the view index, clamped as `splice` clamps |
| ViewDrops.ViewInsert | src/components/Column.tsx:33-35 | inserting a shown card at the translated position inserts it at the view index in the shown cards |
| ViewDrops.ViewRemove | src/components/Column.tsx:33-35 | removing the card at the translated source position removes exactly the card at that view index from the shown cards |
| ViewDrops.DropInViewSameColumnView | src/components/Board.tsx:42-47 | within one column, the shown cards lose the card at the source view index and gain the dragged card at the destination view index, the others keeping their order |
| ViewDrops.DropInViewCrossColumnView | src/components/Board.tsx:48-59 | between columns, the source's shown cards lose exactly the card at the source view index, and the destination's gain the dragged card at the destination view index |
| ViewDrops.DropInViewLands | src/components/Board.tsx:37-59 | for a destination index within the shown cards of the target list, the destination column read at its visible positions shows the dragged card at that index, and without it shows the target list's shown cards in their old order |
| ViewDrops.DropInViewUnfiltered | src/components/Board.tsx:33-60 | with an empty query the translated drop does what `onDragEnd` as written does |
| ColumnEdits.AddColumn | src/components/Board.tsx:72-81 | cards untouched; the id is appended to `columnOrder`; an empty "New Column" is stored under the id; every other column is kept |
| ColumnEdits.DeleteColumn | src/components/Board.tsx:83-91 | cards untouched; the key is removed and the other columns are kept; every occurrence of the id leaves `columnOrder` with the rest in order; deleting an absent id returns the same board |
| ColumnEdits.AddThenDelete | src/components/Board.tsx:72-91 | adding a column under a fresh id and deleting it restores the board |
| ColumnEdits.AddKeepsOrder | src/components/Board.tsx:75-78 | after an add, the columns and the order still list the same ids, each once |
| ColumnEdits.DeleteKeepsOrder | src/components/Board.tsx:84-85 | after a delete, the columns and the order still list the same ids, each once |
| ColumnEdits.AddColumnPreservesConsistency | src/components/Board.tsx:72-81 | adding a column under a fresh id places no card and keeps a consistent board consistent |
| ColumnEdits.DeleteColumnPlacement | src/components/Board.tsx:83-91 | deleting a column removes exactly that column's placements |
| ColumnEdits.DeleteColumnPreservesConsistency | src/components/Board.tsx:83-91 | deleting a column keeps a consistent board consistent |
| ColumnEdits.DeleteColumnOrphansTasks | src/components/Board.tsx:83-91 | the deleted column's cards stay in `tasks` but are no longer placed anywhere |
| Seed.InitialData | src/components/Board.tsx:8-19 | the seed board satisfies the board invariants |
| Seed.SeedConsistent | src/components/Board.tsx:8-19 | a board with the seed's cards and layout is consistent |
| Seed.SeedPlacements | src/components/Board.tsx:14-18 | on the seed's columns each of the three cards is placed once and no other id is placed |
| Seed.SeedColumns | src/components/Board.tsx:14-17 | the seed's two columns, as looked up by id |
| Seed.SeedCrossColumnMove | src/components/Board.tsx:48-59 | dragging "task-1" below "task-3" leaves `["task-2"]` and `["task-3", "task-1"]` |
| Seed.SeedSameColumnMove | src/components/Board.tsx:42-47 | dragging "task-2" above "task-1" gives `["task-2", "task-1"]` and leaves "In Progress" alone |
| Seed.SeedShownForTwo | src/components/Board.tsx:142-146 | with the query "two", only "task-2" of the seed's cards is shown |
| Seed.FilteredDropAsWritten | src/components/Board.tsx:37-59 | the drop the filtered view reports, as written, removes "task-1" and inserts "task-2": "task-1" is placed nowhere, "task-2" twice, and the board is no longer consistent |
| Seed.FilteredDropCorrected | src/components/Column.tsx:33-35 | the same drop, translated, moves "task-2" below "task-3" and keeps the board consistent |
| Seed.FilteredDropTranslated | src/components/Column.tsx:33-35 | the translation names index 1 of "To Do" and the end of "In Progress" |
| Seed.SeedFilteredDrop | src/components/Board.tsx:8-60 | on the seed with "two" in the search box, the reported drop breaks consistency as written and keeps it once translated |
| BoardHistory.Merge | src/components/Board.tsx:63 | `{ ...boardState, ...newState }`: each field present in the partial board replaces the board's, each absent field is kept |
| BoardHistory.MergeColumnsPatch | src/components/Board.tsx:62-63 | merging a partial board that carries only the columns (and order) of a board with the same cards yields that board |
| BoardHistory.Init | src/components/Board.tsx:22-27 | the loaded board, or else the seed, is the only snapshot; the current index is 0 and the query empty |
| BoardHistory.Commit | src/components/Board.tsx:62-70 | the merged board becomes current and the current index moves on by one; from an in-sync state the history becomes the snapshots up to the current index plus the new board, at which `currentIndex` now stands |
| BoardHistory.UndoStep | src/components/Board.tsx:101-106 | the history is kept; at the first snapshot nothing changes; otherwise the current index steps back and the shown board is that snapshot |
| BoardHistory.RedoStep | src/components/Board.tsx:108-113 | the history is kept; at the last snapshot nothing changes; otherwise the current index steps forward and the shown board is that snapshot |
| BoardHistory.UndoThenRedo | src/components/Board.tsx:101-113 | redo after an undo restores the state |
| BoardHistory.RedoThenUndo | src/components/Board.tsx:101-113 | undo after a redo restores the state |
| BoardHistory.NothingToRedoAfterUpdate | src/components/Board.tsx:62-70 | after any update, redo does nothing |
| BoardHistory.NewEditAfterUndoDiscardsRedo | src/components/Board.tsx:62-106 | edit A, edit B, undo, edit C: C's board is current, redo does nothing, and the history is the old prefix followed by A and C |
| BoardHistory.Step | src/components/Board.tsx:33-113 | every handler keeps the current index in sync; typing changes only the query; a drop without a destination changes nothing |
| BoardHistory.DeleteAbsentColumnStillCommits | src/components/Board.tsx:83-91 | deleting an absent column leaves the board equal but still records a snapshot and moves the current index |
| BoardHistory.DropCommitsTranslatedMove | src/components/Board.tsx:33-70 | a drop that changes the board commits exactly the moved board as a new snapshot |
| BoardHistory.CommitKeepsConsistent | src/components/Board.tsx:62-70 | committing a consistent board keeps every snapshot consistent |
| BoardHistory.StepKeepsConsistent | src/components/Board.tsx:33-113 | any admissible event keeps every snapshot consistent |
| BoardHistory.Run | src/components/Board.tsx:33-113 | any sequence of events keeps the current index in sync |
| BoardHistory.RunKeepsConsistent | src/components/Board.tsx:22-113 | from a consistent start, after any admissible run every snapshot and the shown board are consistent |
| BoardHistory.InitConsistent | src/components/Board.tsx:22-27 | on mount, with the seed or with a consistent loaded board, every snapshot is consistent |
| BoardHistory.Board.constructor | src/components/Board.tsx:22-27 | the fields hold the initial session |
| BoardHistory.Board.UpdateBoardState | src/components/Board.tsx:62-70 | the fields are updated in place to `Commit` of the old state |
| BoardHistory.Board.OnDragEnd | src/components/Board.tsx:33-60 | the fields become `Step` of the old state for the drop; an error is returned exactly when the drop names a missing column |
| BoardHistory.Board.AddColumn | src/components/Board.tsx:72-81 | the fields become `Step` of the old state for an added column |
| BoardHistory.Board.DeleteColumn | src/components/Board.tsx:83-91 | the fields become `Step` of the old state for a deleted column |
| BoardHistory.Board.HandleSearch | src/components/Board.tsx:93-95 | only the query changes |
| BoardHistory.Board.Undo | src/components/Board.tsx:101-106 | the fields become `UndoStep` of the old state |
| BoardHistory.Board.Redo | src/components/Board.tsx:108-113 | the fields become `RedoStep` of the old state |

## Left out

- Persistence: `loadFromLocalStorage` becomes the constructor's optional board. The effect that saves the board on every change (lines 29-31) is not modelled, because it only writes to storage.
- `Date.now()` in `addColumn` becomes the `newColumnId` parameter. The freshness of that id is a hypothesis of the consistency lemmas only.
- React's state scheduling and stale closures are not modelled. The model assumes each handler runs on the state left by the previous one, applying its `set` calls in order.
- The JSX, the CSS and the drag library are not modelled. The drag library appears only as the `DropResult` it hands to `onDragEnd`.
- `toLowerCase` is modelled for ASCII letters only. Unicode case mapping is not modelled.
- `filteredTasks` (lines 97-99) is not modelled: it is computed on every render but never used.
- `src/App.test.tsx` is not part of this model. It renders `App` and checks that the text "To Do", the title of the seed's first column (`src/components/Board.tsx:15`), appears.
- Moves.OnDragEnd: the source compares the two column records by object identity (line 42). The model compares the droppable ids, which coincide for boards whose records sit under their own ids.
- Search.VisibleTasks: requires every id in the column to name a card. On a card missing from `tasks`, the render reads `content` of `undefined` and throws, and that crash is not modelled.
- BoardHistory.Board.OnDragEnd and BoardHistory.Step: they apply the translated drop (`ViewDrops.DropInView`), not the as-written handler. Without a search query the two agree (`ViewDrops.DropInViewUnfiltered`); see Findings.
- BoardHistory.Board.OnDragEnd: a thrown error is returned as a value, and the state is left unchanged, as after the throw.
- BoardPatch: a partial board whose present fields are `undefined` is not modelled. Such a field would overwrite the board's field with `undefined`.

## Findings

| source | as written | input that shows it | evidently intended | confidence | as-written member | corrected member |
|---|---|---|---|---|---|---|
| src/components/Board.tsx:37-50 | each card's drag index (src/components/Column.tsx:33-35) is its position among the column's SHOWN cards, and `onDragEnd` splices the column's FULL `taskIds` with that index | the seed board with "two" in the search box: drag "task-2" (shown at index 0 of "To Do") to index 0 of "In Progress", whose only card is hidden; "task-1" is removed instead and "task-2" ends up in both columns | move the dragged card from its real position, translating view indices into list positions | not executed | Seed.FilteredDropAsWritten | Seed.FilteredDropCorrected |
