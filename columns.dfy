/** `addColumn` and `deleteColumn`: the two column mutations of the board. */
module ColumnEdits {
  import opened JsArray
  import opened KanbanInterfaces

  /** The heading every added column starts with. */
  const NewColumnTitle: string := "New Column"

  /** `addColumn`: a column `{newColumnId, 'New Column', []}` is stored under
      `newColumnId` and the id is appended to `columnOrder`; the tasks are not
      touched. The id stands for the component's `column-<Date.now()>`. */
  function AddColumn(b: BoardState, newColumnId: string): (r: BoardState)
    ensures r.tasks == b.tasks
    ensures |r.columnOrder| == |b.columnOrder| + 1
    ensures r.columnOrder[..|b.columnOrder|] == b.columnOrder
    ensures r.columnOrder[|b.columnOrder|] == newColumnId
    ensures newColumnId in r.columns
    ensures r.columns[newColumnId].id == newColumnId
    ensures r.columns[newColumnId].title == NewColumnTitle
    ensures r.columns[newColumnId].taskIds == []
    ensures r.columns.Keys == b.columns.Keys + {newColumnId}
    ensures forall k :: k in b.columns && k != newColumnId ==> r.columns[k] == b.columns[k]
  {
    var newColumn := Column(newColumnId, NewColumnTitle, []);
    b.(columns := b.columns[newColumnId := newColumn], columnOrder := b.columnOrder + [newColumnId])
  }

  /** `deleteColumn`: the key is removed from `columns` and every occurrence of
      it is filtered out of `columnOrder`, keeping the other ids in order; the
      tasks map is left as it is, so the column's cards stay in it. Deleting an
      absent id gives back an equal board. */
  function DeleteColumn(b: BoardState, columnId: string): (r: BoardState)
    ensures r.tasks == b.tasks
    ensures r.columns.Keys == b.columns.Keys - {columnId}
    ensures forall k :: k in r.columns ==> r.columns[k] == b.columns[k]
    ensures multiset(r.columnOrder) == multiset(b.columnOrder)[columnId := 0]
    ensures IsSubsequence(r.columnOrder, b.columnOrder)
    ensures columnId !in b.columns && columnId !in b.columnOrder ==> r == b
  {
    WithoutCounts(b.columnOrder, columnId);
    WithoutIsSubsequence(b.columnOrder, columnId);
    assert columnId !in b.columns ==> b.columns - {columnId} == b.columns;
    b.(columns := b.columns - {columnId}, columnOrder := Without(b.columnOrder, columnId))
  }

  /** Adding a column under a fresh id and deleting it again restores the
      board. */
  lemma AddThenDelete(b: BoardState, newColumnId: string)
    requires newColumnId !in b.columns && newColumnId !in b.columnOrder
    ensures DeleteColumn(AddColumn(b, newColumnId), newColumnId) == b
  {
    var a := AddColumn(b, newColumnId);
    WithoutSnocFresh(b.columnOrder, newColumnId);
    StoreThenRemove(b.columns, newColumnId, a.columns[newColumnId]);
  }

  /** Storing a value under a fresh key and removing the key restores the map. */
  lemma StoreThenRemove(m: map<string, Column>, k: string, c: Column)
    requires k !in m
    ensures m[k := c] - {k} == m
  {
  }

  /** Appending a fresh key to an order that lists exactly the keys of
      `columns`, once each, and storing a column under it keeps that so. */
  lemma AddKeepsOrder(columns: map<string, Column>, order: seq<string>, k: string, c: Column)
    requires forall id :: id in columns <==> id in order
    requires NoDuplicates(order) && k !in columns
    ensures forall id :: id in columns[k := c] <==> id in order + [k]
    ensures NoDuplicates(order + [k])
  {
    assert multiset(order + [k]) == multiset(order) + multiset{k};
    forall x ensures multiset(order + [k])[x] <= 1 {
      assert multiset(order)[x] <= 1;
    }
  }

  /** Removing a key from `columns` and filtering it out of an order that lists
      exactly the keys, once each, keeps that so. */
  lemma DeleteKeepsOrder(columns: map<string, Column>, order: seq<string>, k: string)
    requires forall id :: id in columns <==> id in order
    requires NoDuplicates(order)
    ensures forall id :: id in columns - {k} <==> id in Without(order, k)
    ensures NoDuplicates(Without(order, k))
  {
    var w := Without(order, k);
    WithoutCounts(order, k);
    forall id ensures id in columns - {k} <==> id in w {
      assert id in w <==> multiset(w)[id] > 0;
      assert id in order <==> multiset(order)[id] > 0;
    }
    forall x ensures multiset(w)[x] <= 1 {
      assert multiset(order)[x] <= 1;
    }
  }

  /** Adding a column under an id no column has keeps a consistent board
      consistent, and places no task. */
  lemma AddColumnPreservesConsistency(b: BoardState, newColumnId: string)
    requires Consistent(b) && newColumnId !in b.columns
    ensures forall t :: Placed(AddColumn(b, newColumnId).columns, AddColumn(b, newColumnId).columnOrder, t)
                     == Placed(b.columns, b.columnOrder, t)
    ensures Consistent(AddColumn(b, newColumnId))
  {
    var a := AddColumn(b, newColumnId);
    var c := a.columns[newColumnId];
    assert newColumnId !in b.columnOrder;
    assert a.columns == b.columns[newColumnId := c];
    assert a.columnOrder == b.columnOrder + [newColumnId];
    forall t ensures Placed(a.columns, a.columnOrder, t) == Placed(b.columns, b.columnOrder, t) {
      PlacedSnoc(a.columns, b.columnOrder, newColumnId, t);
      PlacedUnlisted(b.columns, b.columnOrder, newColumnId, c, t);
    }
    AddKeepsOrder(b.columns, b.columnOrder, newColumnId, c);
    ConsistentFromParts(b, a);
  }

  /** What deleting a column does to the placements: exactly the deleted
      column's own placements disappear. */
  lemma DeleteColumnPlacement(b: BoardState, columnId: string, t: string)
    requires NoDuplicates(b.columnOrder)
    ensures Placed(DeleteColumn(b, columnId).columns, DeleteColumn(b, columnId).columnOrder, t)
          + (if columnId in b.columnOrder then CountIn(b.columns, columnId, t) else 0)
         == Placed(b.columns, b.columnOrder, t)
  {
    PlacedDelete(b.columns, b.columnOrder, columnId, t);
  }

  /** Deleting a column of a consistent board keeps it consistent. */
  lemma DeleteColumnPreservesConsistency(b: BoardState, columnId: string)
    requires Consistent(b)
    ensures Consistent(DeleteColumn(b, columnId))
  {
    var d := DeleteColumn(b, columnId);
    forall t ensures Placed(d.columns, d.columnOrder, t) <= Placed(b.columns, b.columnOrder, t) {
      DeleteColumnPlacement(b, columnId, t);
    }
    DeleteKeepsOrder(b.columns, b.columnOrder, columnId);
    ConsistentFromParts(b, d);
  }

  /** The deleted column's cards remain in `tasks` but are no longer placed in
      any column: they become orphans. */
  lemma DeleteColumnOrphansTasks(b: BoardState, columnId: string, t: string)
    requires Consistent(b)
    requires columnId in b.columns && t in b.columns[columnId].taskIds
    ensures t in DeleteColumn(b, columnId).tasks
    ensures Placed(DeleteColumn(b, columnId).columns, DeleteColumn(b, columnId).columnOrder, t) == 0
  {
    DeleteColumnPlacement(b, columnId, t);
    PlacedHasColumnTasks(b.columns, b.columnOrder, columnId, t);
    assert CountIn(b.columns, columnId, t) >= 1;
  }
}
