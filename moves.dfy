/** The drag-and-drop reducer `onDragEnd`: it applies the drop reported by the
    drag library to the board by splicing the affected columns' task lists. */
module Moves {
  import opened Wrappers
  import opened JsArray
  import opened KanbanInterfaces
  import opened Search

  /** A place in a droppable list: the column's id and an index in its list. */
  datatype DraggableLocation = DraggableLocation(droppableId: string, index: int)

  /** The drag library's report of a finished drag: the dragged card's id, where
      it came from and where it was dropped (`None` when dropped outside every
      column). */
  datatype DropResult = DropResult(
    draggableId: string,
    source: DraggableLocation,
    destination: Option<DraggableLocation>)

  /** Looking up a column id that the board does not have; the component throws
      a TypeError when it reads `taskIds` of the missing column. */
  datatype MoveError = MissingColumn(columnId: string)

  /** What a drop does: nothing, a new board to commit, or a thrown error (after
      which nothing is committed). */
  datatype DragOutcome = Ignored | Updated(board: BoardState) | Crashed(error: MoveError)

  /** `onDragEnd`. The source column's list is copied and loses the entry at
      `source.index`; the dragged id is then inserted at `destination.index`,
      into that same list when source and destination are one column, otherwise
      into a copy of the destination column's list. Only the columns map
      changes, and each rewritten column is stored under its own `id` field. */
  function OnDragEnd(b: BoardState, r: DropResult): (o: DragOutcome)
    ensures o.Ignored? <==> r.destination.None?
    ensures o.Crashed? <==>
      && r.destination.Some?
      && (r.source.droppableId !in b.columns || r.destination.value.droppableId !in b.columns)
    ensures o.Crashed? ==> o.error == MissingColumn(
      if r.source.droppableId !in b.columns then r.source.droppableId else r.destination.value.droppableId)
    ensures o.Updated? ==> o.board.tasks == b.tasks && o.board.columnOrder == b.columnOrder
  {
    match r.destination
    case None => Ignored
    case Some(destination) =>
      if r.source.droppableId !in b.columns then Crashed(MissingColumn(r.source.droppableId))
      else
        var sourceColumn := b.columns[r.source.droppableId];
        var sourceTasks := RemoveAt(sourceColumn.taskIds, r.source.index);
        if r.source.droppableId == destination.droppableId then
          var newColumn := sourceColumn.(taskIds := InsertAt(sourceTasks, destination.index, r.draggableId));
          Updated(b.(columns := b.columns[newColumn.id := newColumn]))
        else if destination.droppableId !in b.columns then Crashed(MissingColumn(destination.droppableId))
        else
          var destinationColumn := b.columns[destination.droppableId];
          var destTasks := InsertAt(destinationColumn.taskIds, destination.index, r.draggableId);
          Updated(b.(columns := b.columns
            [sourceColumn.id := sourceColumn.(taskIds := sourceTasks)]
            [destinationColumn.id := destinationColumn.(taskIds := destTasks)]))
  }

  /** A move within one column: the column becomes its list with the entry at
      `source.index` removed and the dragged id inserted at `destination.index`;
      its length is unchanged when `source.index` is a position of the list, and
      no other column changes. */
  lemma SameColumnMove(b: BoardState, r: DropResult)
    requires r.destination.Some? && r.destination.value.droppableId == r.source.droppableId
    requires r.source.droppableId in b.columns
    ensures var c, o := b.columns[r.source.droppableId], OnDragEnd(b, r);
      && o.Updated?
      && c.id in o.board.columns
      && o.board.columns[c.id]
         == c.(taskIds := InsertAt(RemoveAt(c.taskIds, r.source.index), r.destination.value.index, r.draggableId))
      && (0 <= r.source.index < |c.taskIds| ==> |o.board.columns[c.id].taskIds| == |c.taskIds|)
      && (forall k :: k != c.id ==> (k in o.board.columns <==> k in b.columns))
      && (forall k :: k != c.id && k in b.columns ==> o.board.columns[k] == b.columns[k])
  {
  }

  /** A move between two columns: the source column loses exactly the entry at
      `source.index`, the destination column gains the dragged id at
      `destination.index`, and every other column is unchanged. */
  lemma CrossColumnMove(b: BoardState, r: DropResult)
    requires r.destination.Some? && r.destination.value.droppableId != r.source.droppableId
    requires r.source.droppableId in b.columns && r.destination.value.droppableId in b.columns
    requires b.columns[r.source.droppableId].id == r.source.droppableId
    requires b.columns[r.destination.value.droppableId].id == r.destination.value.droppableId
    ensures var src, dst := r.source.droppableId, r.destination.value.droppableId;
      var s, t, o := b.columns[src].taskIds, b.columns[dst].taskIds, OnDragEnd(b, r);
      var i, j := r.source.index, SpliceStart(|t|, r.destination.value.index);
      && o.Updated?
      && src in o.board.columns && dst in o.board.columns
      && o.board.columns[src] == b.columns[src].(taskIds := RemoveAt(s, i))
      && (0 <= i < |s| ==> o.board.columns[src].taskIds == s[..i] + s[i + 1..])
      && o.board.columns[dst] == b.columns[dst].(taskIds := InsertAt(t, j, r.draggableId))
      && |o.board.columns[dst].taskIds| == |t| + 1
      && o.board.columns[dst].taskIds[j] == r.draggableId
      && RemoveAt(o.board.columns[dst].taskIds, j) == t
      && (forall k :: k != src && k != dst ==> (k in o.board.columns <==> k in b.columns))
      && (forall k :: k != src && k != dst && k in b.columns ==> o.board.columns[k] == b.columns[k])
  {
    var src, dst := r.source.droppableId, r.destination.value.droppableId;
    var s, t := b.columns[src].taskIds, b.columns[dst].taskIds;
    var j := SpliceStart(|t|, r.destination.value.index);
    var x := r.draggableId;
    var src', dst' := b.columns[src].(taskIds := RemoveAt(s, r.source.index)), b.columns[dst].(taskIds := InsertAt(t, j, x));
    assert InsertAt(t, j, x) == InsertAt(t, r.destination.value.index, x);
    CrossColumnUnfold(b, r);
    StoreTwo(b.columns, src, src', dst, dst');
    RemoveInserted(t, j, x);
    if 0 <= r.source.index < |s| {
      RemoveAtInRange(s, r.source.index);
    }
  }

  /** The board a drop within one column whose record sits under its own id
      produces. */
  lemma SameColumnUnfold(b: BoardState, r: DropResult)
    requires r.destination.Some? && r.destination.value.droppableId == r.source.droppableId
    requires r.source.droppableId in b.columns
    requires b.columns[r.source.droppableId].id == r.source.droppableId
    ensures OnDragEnd(b, r) == Updated(b.(columns := b.columns
      [r.source.droppableId := b.columns[r.source.droppableId].(
         taskIds := InsertAt(RemoveAt(b.columns[r.source.droppableId].taskIds, r.source.index),
                             r.destination.value.index, r.draggableId))]))
  {
  }

  /** The board a drop between two columns whose records sit under their own
      ids produces. */
  lemma CrossColumnUnfold(b: BoardState, r: DropResult)
    requires r.destination.Some? && r.destination.value.droppableId != r.source.droppableId
    requires r.source.droppableId in b.columns && r.destination.value.droppableId in b.columns
    requires b.columns[r.source.droppableId].id == r.source.droppableId
    requires b.columns[r.destination.value.droppableId].id == r.destination.value.droppableId
    ensures OnDragEnd(b, r) == Updated(b.(columns := b.columns
      [r.source.droppableId := b.columns[r.source.droppableId].(
         taskIds := RemoveAt(b.columns[r.source.droppableId].taskIds, r.source.index))]
      [r.destination.value.droppableId := b.columns[r.destination.value.droppableId].(
         taskIds := InsertAt(b.columns[r.destination.value.droppableId].taskIds, r.destination.value.index, r.draggableId))]))
  {
  }

  /** Storing under two distinct keys: both are then present with their new
      values, and every other key is as it was. */
  lemma StoreTwo(m: map<string, Column>, k1: string, v1: Column, k2: string, v2: Column)
    requires k1 != k2
    ensures k1 in m[k1 := v1][k2 := v2] && m[k1 := v1][k2 := v2][k1] == v1
    ensures k2 in m[k1 := v1][k2 := v2] && m[k1 := v1][k2 := v2][k2] == v2
    ensures forall k :: k != k1 && k != k2 ==> (k in m[k1 := v1][k2 := v2] <==> k in m)
    ensures forall k :: k != k1 && k != k2 && k in m ==> m[k1 := v1][k2 := v2][k] == m[k]
  {
  }

  /** The drop is one the drag library can report for the board: both columns
      exist, `source.index` is a position of the source column, and the dragged
      id is the one found there. */
  ghost predicate CanonicalDrop(b: BoardState, r: DropResult) {
    && r.destination.Some?
    && r.source.droppableId in b.columns
    && r.destination.value.droppableId in b.columns
    && 0 <= r.source.index < |b.columns[r.source.droppableId].taskIds|
    && r.draggableId == b.columns[r.source.droppableId].taskIds[r.source.index]
  }

  /** A board whose columns were rewritten in place (same keys, each record
      still under its own id, the same placements) is as consistent as the
      board it came from. */
  lemma ConsistentAfterRewrite(b: BoardState, n: BoardState)
    requires Consistent(b)
    requires n.tasks == b.tasks && n.columnOrder == b.columnOrder
    requires n.columns.Keys == b.columns.Keys
    requires forall id :: id in n.columns ==> n.columns[id].id == id
    requires forall t :: Placed(n.columns, n.columnOrder, t) == Placed(b.columns, b.columnOrder, t)
    ensures Consistent(n)
  {
  }

  /** Moving the entry at position `i` of `s` to position `j` of the same
      list keeps the multiset of entries. */
  lemma MoveWithinKeepsEntries(s: seq<string>, i: int, j: int)
    requires 0 <= i < |s|
    ensures multiset(InsertAt(RemoveAt(s, i), j, s[i])) == multiset(s)
  {
    assert SpliceStart(|s|, i) == i;
  }

  /** A drop within one column conserves every task id's number of placements. */
  lemma SameColumnPlacement(b: BoardState, r: DropResult)
    requires CanonicalDrop(b, r) && r.destination.value.droppableId == r.source.droppableId
    requires NoDuplicates(b.columnOrder) && r.source.droppableId in b.columnOrder
    requires b.columns[r.source.droppableId].id == r.source.droppableId
    ensures OnDragEnd(b, r).Updated?
    ensures forall t :: Placed(OnDragEnd(b, r).board.columns, b.columnOrder, t) == Placed(b.columns, b.columnOrder, t)
  {
    var src := r.source.droppableId;
    var s := b.columns[src].taskIds;
    var c := b.columns[src].(taskIds := InsertAt(RemoveAt(s, r.source.index), r.destination.value.index, r.draggableId));
    assert OnDragEnd(b, r).board.columns == b.columns[src := c];
    MoveWithinKeepsEntries(s, r.source.index, r.destination.value.index);
    forall t ensures Placed(b.columns[src := c], b.columnOrder, t) == Placed(b.columns, b.columnOrder, t) {
      PlacedReplace(b.columns, b.columnOrder, src, c, t);
    }
  }

  /** A drop between two columns conserves every task id's number of
      placements: the source column's loss is the destination column's gain. */
  lemma CrossColumnPlacement(b: BoardState, r: DropResult)
    requires CanonicalDrop(b, r) && r.destination.value.droppableId != r.source.droppableId
    requires NoDuplicates(b.columnOrder)
    requires r.source.droppableId in b.columnOrder && r.destination.value.droppableId in b.columnOrder
    requires b.columns[r.source.droppableId].id == r.source.droppableId
    requires b.columns[r.destination.value.droppableId].id == r.destination.value.droppableId
    ensures OnDragEnd(b, r).Updated?
    ensures forall t :: Placed(OnDragEnd(b, r).board.columns, b.columnOrder, t) == Placed(b.columns, b.columnOrder, t)
  {
    var src, dst := r.source.droppableId, r.destination.value.droppableId;
    var i, d := r.source.index, r.draggableId;
    var s, u := b.columns[src].taskIds, b.columns[dst].taskIds;
    var removed := RemoveAt(s, i);
    assert SpliceStart(|s|, i) == i;
    var c1 := b.columns[src].(taskIds := removed);
    var c2 := b.columns[dst].(taskIds := InsertAt(u, r.destination.value.index, d));
    var mid := b.columns[src := c1];
    assert OnDragEnd(b, r).board.columns == mid[dst := c2];
    forall t ensures Placed(mid[dst := c2], b.columnOrder, t) == Placed(b.columns, b.columnOrder, t) {
      PlacedReplace(b.columns, b.columnOrder, src, c1, t);
      PlacedReplace(mid, b.columnOrder, dst, c2, t);
      assert CountIn(mid, dst, t) == multiset(u)[t];
      assert (multiset(removed) + multiset{d})[t] == multiset(s)[t];
      assert multiset(c2.taskIds)[t] == (multiset(u) + multiset{d})[t];
    }
  }

  /** A drop that takes the dragged id from where it is conserves every task
      id's number of placements. */
  lemma MovePreservesPlacement(b: BoardState, r: DropResult)
    requires Consistent(b) && CanonicalDrop(b, r)
    ensures OnDragEnd(b, r).Updated?
    ensures forall t :: Placed(OnDragEnd(b, r).board.columns, b.columnOrder, t) == Placed(b.columns, b.columnOrder, t)
  {
    if r.destination.value.droppableId == r.source.droppableId {
      SameColumnPlacement(b, r);
    } else {
      CrossColumnPlacement(b, r);
    }
  }

  /** Such a drop keeps a consistent board consistent; in particular no task
      ends up in two places and none is lost. */
  lemma MovePreservesConsistency(b: BoardState, r: DropResult)
    requires Consistent(b) && CanonicalDrop(b, r)
    ensures OnDragEnd(b, r).Updated? && Consistent(OnDragEnd(b, r).board)
  {
    MovePreservesPlacement(b, r);
    ConsistentAfterRewrite(b, OnDragEnd(b, r).board);
  }

  /** Dropping a card back where it was picked up leaves the board as it was. */
  lemma MoveBackIsIdentity(b: BoardState, r: DropResult)
    requires CanonicalDrop(b, r)
    requires r.destination.value == r.source
    requires b.columns[r.source.droppableId].id == r.source.droppableId
    ensures OnDragEnd(b, r) == Updated(b)
  {
    var c := b.columns[r.source.droppableId];
    RemoveThenInsert(c.taskIds, r.source.index);
    assert b.columns[c.id := c] == b.columns;
  }
}

/** Drops reported against a filtered view. The drag library numbers cards by
    their position among the cards a column SHOWS, while `OnDragEnd` splices the
    column's full list with those numbers; `DropInView` first translates them. */
module ViewDrops {
  import opened Wrappers
  import opened JsArray
  import opened KanbanInterfaces
  import opened Search
  import opened Moves

  /** The position in the full list of the card shown at `viewIndex`, when the
      shown cards sit at `positions`; an index past the shown cards stands for
      the end of the list. */
  function ViewToCanonical(positions: seq<nat>, len: nat, viewIndex: int): (k: nat)
    requires forall m :: 0 <= m < |positions| ==> positions[m] < len
    ensures k <= len
    ensures 0 <= viewIndex < |positions| ==> k < len
    ensures !(0 <= viewIndex < |positions|) ==> k == len
  {
    if 0 <= viewIndex < |positions| then positions[viewIndex] else len
  }

  /** The drop with its view indices replaced by indices into the full lists:
      the source index names the dragged card's real position, and the
      destination index names the position, in the list the card is inserted
      into, of the shown card it is dropped in front of. */
  function ToCanonical(b: BoardState, query: string, r: DropResult): (c: DropResult)
    ensures c.draggableId == r.draggableId && c.source.droppableId == r.source.droppableId
    ensures c.destination.None? <==> r.destination.None?
    ensures c.destination.Some? ==> c.destination.value.droppableId == r.destination.value.droppableId
  {
    if r.source.droppableId !in b.columns then r
    else
      var s := b.columns[r.source.droppableId].taskIds;
      var i := ViewToCanonical(VisiblePositions(b.tasks, s, query), |s|, r.source.index);
      var destination := match r.destination
        case None => None
        case Some(d) =>
          var list :=
            if d.droppableId == r.source.droppableId then RemoveAt(s, i)
            else if d.droppableId in b.columns then b.columns[d.droppableId].taskIds
            else [];
          Some(d.(index := ViewToCanonical(VisiblePositions(b.tasks, list, query), |list|, d.index)));
      r.(source := r.source.(index := i), destination := destination)
  }

  /** `onDragEnd` applied to a drop reported against the view filtered by
      `query`. */
  function DropInView(b: BoardState, query: string, r: DropResult): (o: DragOutcome)
    ensures o.Ignored? <==> r.destination.None?
    ensures o.Crashed? <==>
      && r.destination.Some?
      && (r.source.droppableId !in b.columns || r.destination.value.droppableId !in b.columns)
    ensures o.Updated? ==> o.board.tasks == b.tasks && o.board.columnOrder == b.columnOrder
  {
    OnDragEnd(b, ToCanonical(b, query, r))
  }

  /** The drag library can report this drop for the view filtered by `query`:
      `source.index` is a position among the source column's shown cards and
      the dragged id is the card shown there. */
  ghost predicate ReportedByView(b: BoardState, query: string, r: DropResult) {
    r.source.droppableId in b.columns ==>
      var s := b.columns[r.source.droppableId].taskIds;
      var p := VisiblePositions(b.tasks, s, query);
      0 <= r.source.index < |p| && r.draggableId == s[p[r.source.index]]
  }

  /** A drop reported by the filtered view, translated, is a drop of the card
      from where it really is; so it conserves the placed task ids and keeps a
      consistent board consistent, whatever the query. */
  lemma DropInViewPreservesConsistency(b: BoardState, query: string, r: DropResult)
    requires Consistent(b) && ReportedByView(b, query, r)
    requires r.destination.Some?
    requires r.source.droppableId in b.columns && r.destination.value.droppableId in b.columns
    ensures DropInView(b, query, r).Updated?
    ensures forall t :: Placed(DropInView(b, query, r).board.columns, b.columnOrder, t) == Placed(b.columns, b.columnOrder, t)
    ensures Consistent(DropInView(b, query, r).board)
  {
    var c := ToCanonical(b, query, r);
    assert CanonicalDrop(b, c);
    MovePreservesPlacement(b, c);
    MovePreservesConsistency(b, c);
  }

  /** The shown card at `viewIndex` of the filtered source column is the card
      the drag library names: its id is the dragged id. */
  lemma ShownCardIsDragged(b: BoardState, query: string, r: DropResult)
    requires Consistent(b) && ReportedByView(b, query, r)
    requires r.source.droppableId in b.columns
    ensures var s := b.columns[r.source.droppableId].taskIds;
      && (forall id :: id in s ==> id in b.tasks)
      && 0 <= r.source.index < |VisibleTasks(b.tasks, s, query)|
      && VisibleTasks(b.tasks, s, query)[r.source.index].id == r.draggableId
  {
    var s := b.columns[r.source.droppableId].taskIds;
    forall id | id in s ensures id in b.tasks {
      PlacedHasColumnTasks(b.columns, b.columnOrder, r.source.droppableId, id);
    }
    VisibleTasksAtPositions(b.tasks, s, query);
  }

  /** With an empty query and every card present, a view index is a position
      of the full list, cut off at its length. */
  lemma UnfilteredIndex(tasks: map<string, Task>, s: seq<string>, i: int)
    requires i >= 0
    requires forall id :: id in s ==> id in tasks
    ensures var p := VisiblePositions(tasks, s, "");
      var k := ViewToCanonical(p, |s|, i);
      SpliceStart(|s|, k) == SpliceStart(|s|, i)
  {
    EmptyQueryShowsAll(tasks, s);
  }

  /** The splice results depend on an index only through its splice position. */
  lemma SplicePositionDecides(s: seq<string>, i: int, i': int, x: string)
    requires SpliceStart(|s|, i) == SpliceStart(|s|, i')
    ensures RemoveAt(s, i) == RemoveAt(s, i')
    ensures InsertAt(s, i, x) == InsertAt(s, i', x)
  {
  }

  /** Two drops that differ only in indices with the same splice positions
      have the same outcome. */
  lemma SameSplicesSameOutcome(b: BoardState, r1: DropResult, r2: DropResult)
    requires r1.draggableId == r2.draggableId && r1.source.droppableId == r2.source.droppableId
    requires r1.destination.Some? && r2.destination.Some?
    requires r1.destination.value.droppableId == r2.destination.value.droppableId
    requires r1.source.droppableId in b.columns
    requires var s := b.columns[r1.source.droppableId].taskIds;
      SpliceStart(|s|, r1.source.index) == SpliceStart(|s|, r2.source.index)
    requires var s, dst := b.columns[r1.source.droppableId].taskIds, r1.destination.value.droppableId;
      var list := if dst == r1.source.droppableId then RemoveAt(s, r1.source.index)
                  else if dst in b.columns then b.columns[dst].taskIds else [];
      SpliceStart(|list|, r1.destination.value.index) == SpliceStart(|list|, r2.destination.value.index)
    ensures OnDragEnd(b, r1) == OnDragEnd(b, r2)
  {
    var s, dst := b.columns[r1.source.droppableId].taskIds, r1.destination.value.droppableId;
    SplicePositionDecides(s, r1.source.index, r2.source.index, r1.draggableId);
    var list := if dst == r1.source.droppableId then RemoveAt(s, r1.source.index)
                else if dst in b.columns then b.columns[dst].taskIds else [];
    SplicePositionDecides(list, r1.destination.value.index, r2.destination.value.index, r1.draggableId);
  }

  /** The cards left in a list after removing one were all in it. */
  lemma RemoveAtKeepsMembers(s: seq<string>, i: int)
    ensures forall id :: id in RemoveAt(s, i) ==> id in s
  {
    if SpliceStart(|s|, i) < |s| {
      assert forall id :: id in RemoveAt(s, i) ==> id in multiset(s);
    }
  }

  /** With an empty query every card is shown, and for the non-negative
      indices the drag library reports the translated drop does what the
      untranslated one does. */
  lemma DropInViewUnfiltered(b: BoardState, r: DropResult)
    requires r.source.index >= 0
    requires r.destination.Some? ==> r.destination.value.index >= 0
    requires r.source.droppableId in b.columns ==>
      forall id :: id in b.columns[r.source.droppableId].taskIds ==> id in b.tasks
    requires r.destination.Some? && r.destination.value.droppableId in b.columns ==>
      forall id :: id in b.columns[r.destination.value.droppableId].taskIds ==> id in b.tasks
    ensures DropInView(b, "", r) == OnDragEnd(b, r)
  {
    if r.source.droppableId in b.columns && r.destination.Some? {
      var s := b.columns[r.source.droppableId].taskIds;
      var c := ToCanonical(b, "", r);
      var d := r.destination.value;
      UnfilteredIndex(b.tasks, s, r.source.index);
      var list := if d.droppableId == r.source.droppableId then RemoveAt(s, c.source.index)
                  else if d.droppableId in b.columns then b.columns[d.droppableId].taskIds else [];
      assert c.destination.value.index
        == ViewToCanonical(VisiblePositions(b.tasks, list, ""), |list|, d.index);
      RemoveAtKeepsMembers(s, c.source.index);
      UnfilteredIndex(b.tasks, list, d.index);
      SameSplicesSameOutcome(b, c, r);
    }
  }

  /** The full-list position a view index names has exactly as many shown
      cards above it as the view index, clamped the way `splice` clamps. */
  lemma ShownAboveCanonical(tasks: map<string, Task>, s: seq<string>, query: string, v: int)
    requires v >= 0
    ensures 0 <= ViewToCanonical(VisiblePositions(tasks, s, query), |s|, v) <= |s|
    ensures |ShownIds(tasks, s[..ViewToCanonical(VisiblePositions(tasks, s, query), |s|, v)], query)|
         == SpliceStart(|ShownIds(tasks, s, query)|, v)
  {
    var p := VisiblePositions(tasks, s, query);
    ShownIdsAtPositions(tasks, s, query);
    VisiblePositionsSound(tasks, s, query);
    if v < |p| {
      ShownAbove(tasks, s, query, v);
    } else {
      assert s[..|s|] == s;
    }
  }

  /** Inserting a shown card at the full-list position a view index names
      inserts it at that view index in the column's shown cards; the other
      shown cards keep their order. */
  lemma ViewInsert(tasks: map<string, Task>, s: seq<string>, query: string, v: int, x: string)
    requires v >= 0 && Shown(tasks, x, query)
    ensures ShownIds(tasks, InsertAt(s, ViewToCanonical(VisiblePositions(tasks, s, query), |s|, v), x), query)
         == InsertAt(ShownIds(tasks, s, query), v, x)
  {
    var k := ViewToCanonical(VisiblePositions(tasks, s, query), |s|, v);
    ShownAboveCanonical(tasks, s, query, v);
    var above, below := ShownIds(tasks, s[..k], query), ShownIds(tasks, s[k..], query);
    ShownIdsSplit(tasks, s, k, x, query);
    InsertAtSplit(s, k, x);
    SplicePositionDecides(above + below, v, |above|, x);
    InsertAtJoin(above, below, x);
  }

  /** Removing the card shown at view index `v` from the full list removes
      exactly that card from the column's shown cards. */
  lemma ViewRemove(tasks: map<string, Task>, s: seq<string>, query: string, v: int)
    requires 0 <= v < |VisiblePositions(tasks, s, query)|
    ensures ShownIds(tasks, RemoveAt(s, VisiblePositions(tasks, s, query)[v]), query)
         == RemoveAt(ShownIds(tasks, s, query), v)
  {
    var k := VisiblePositions(tasks, s, query)[v];
    VisiblePositionsSound(tasks, s, query);
    ShownAbove(tasks, s, query, v);
    RemoveAtInRange(s, k);
    ShownIdsCut(tasks, s, k, query);
    RemoveAtJoin(ShownIds(tasks, s[..k], query), s[k], ShownIds(tasks, s[k + 1..], query));
  }

  /** A drop within one column, as the user sees it: the column's shown cards
      lose the card at the source view index and gain the dragged card at the
      destination view index, and the other shown cards keep their order. */
  lemma DropInViewSameColumnView(b: BoardState, query: string, r: DropResult)
    requires Consistent(b) && ReportedByView(b, query, r)
    requires r.destination.Some? && r.destination.value.droppableId == r.source.droppableId
    requires r.source.droppableId in b.columns && r.destination.value.index >= 0
    ensures DropInView(b, query, r).Updated?
    ensures r.source.droppableId in DropInView(b, query, r).board.columns
    ensures ShownIds(b.tasks, DropInView(b, query, r).board.columns[r.source.droppableId].taskIds, query)
         == InsertAt(RemoveAt(ShownIds(b.tasks, b.columns[r.source.droppableId].taskIds, query), r.source.index),
                     r.destination.value.index, r.draggableId)
  {
    var src, v, x := r.source.droppableId, r.destination.value.index, r.draggableId;
    var s := b.columns[src].taskIds;
    var p := VisiblePositions(b.tasks, s, query);
    var c := ToCanonical(b, query, r);
    var list := RemoveAt(s, p[r.source.index]);
    assert c.source.index == p[r.source.index];
    assert c.destination.value.index == ViewToCanonical(VisiblePositions(b.tasks, list, query), |list|, v);
    VisiblePositionsSound(b.tasks, s, query);
    SameColumnUnfold(b, c);
    ViewInsert(b.tasks, list, query, v, x);
    ViewRemove(b.tasks, s, query, r.source.index);
  }

  /** A drop between two columns, as the user sees it: the source column's
      shown cards lose exactly the card at the source view index, and the
      destination column's shown cards gain the dragged card at the
      destination view index, the others keeping their order. */
  lemma DropInViewCrossColumnView(b: BoardState, query: string, r: DropResult)
    requires Consistent(b) && ReportedByView(b, query, r)
    requires r.destination.Some? && r.destination.value.droppableId != r.source.droppableId
    requires r.source.droppableId in b.columns && r.destination.value.droppableId in b.columns
    requires r.destination.value.index >= 0
    ensures DropInView(b, query, r).Updated?
    ensures r.source.droppableId in DropInView(b, query, r).board.columns
    ensures r.destination.value.droppableId in DropInView(b, query, r).board.columns
    ensures ShownIds(b.tasks, DropInView(b, query, r).board.columns[r.source.droppableId].taskIds, query)
         == RemoveAt(ShownIds(b.tasks, b.columns[r.source.droppableId].taskIds, query), r.source.index)
    ensures ShownIds(b.tasks, DropInView(b, query, r).board.columns[r.destination.value.droppableId].taskIds, query)
         == InsertAt(ShownIds(b.tasks, b.columns[r.destination.value.droppableId].taskIds, query),
                     r.destination.value.index, r.draggableId)
  {
    var src, dst, v, x := r.source.droppableId, r.destination.value.droppableId, r.destination.value.index, r.draggableId;
    var s, t := b.columns[src].taskIds, b.columns[dst].taskIds;
    var p := VisiblePositions(b.tasks, s, query);
    var c := ToCanonical(b, query, r);
    var i, j := p[r.source.index], ViewToCanonical(VisiblePositions(b.tasks, t, query), |t|, v);
    assert c.source.index == i && c.destination.value.index == j;
    assert b.columns[src].id == src && b.columns[dst].id == dst;
    VisiblePositionsSound(b.tasks, s, query);
    CrossColumnUnfold(b, c);
    StoreTwo(b.columns, src, b.columns[src].(taskIds := RemoveAt(s, i)),
             dst, b.columns[dst].(taskIds := InsertAt(t, j, x)));
    ViewInsert(b.tasks, t, query, v, x);
    ViewRemove(b.tasks, s, query, r.source.index);
  }

  /** The cards the destination column shows before the dragged card lands:
      its shown cards, less the dragged one when it is dropped back into its
      own column. */
  ghost function TargetView(b: BoardState, query: string, r: DropResult): seq<string>
    requires r.destination.Some? && r.source.droppableId in b.columns
    requires r.destination.value.droppableId in b.columns
  {
    var shown := ShownIds(b.tasks, b.columns[r.destination.value.droppableId].taskIds, query);
    if r.destination.value.droppableId == r.source.droppableId then RemoveAt(shown, r.source.index) else shown
  }

  /** Where a drop lands, as the user sees it: read at its visible positions,
      the destination column shows the dragged card at the destination view
      index, and without it the column shows the other cards in their old
      order. */
  lemma DropInViewLands(b: BoardState, query: string, r: DropResult)
    requires Consistent(b) && ReportedByView(b, query, r)
    requires r.destination.Some? && r.source.droppableId in b.columns
    requires r.destination.value.droppableId in b.columns
    requires 0 <= r.destination.value.index <= |TargetView(b, query, r)|
    ensures DropInView(b, query, r).Updated?
    ensures r.destination.value.droppableId in DropInView(b, query, r).board.columns
    ensures var view := ShownIds(b.tasks, DropInView(b, query, r).board.columns[r.destination.value.droppableId].taskIds, query);
      r.destination.value.index < |view| && view[r.destination.value.index] == r.draggableId &&
      RemoveAt(view, r.destination.value.index) == TargetView(b, query, r)
  {
    if r.destination.value.droppableId == r.source.droppableId {
      DropInViewSameColumnView(b, query, r);
    } else {
      DropInViewCrossColumnView(b, query, r);
    }
    InsertAtLands(TargetView(b, query, r), r.destination.value.index, r.draggableId);
  }
}
