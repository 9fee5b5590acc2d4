/** The board's value types (Task, Column, BoardState) and the consistency
    invariant that every board reachable from the seed keeps. */
module KanbanInterfaces {
  import opened JsArray

  /** A card: its identifier and its text. */
  datatype Task = Task(id: string, content: string)

  /** A column: its identifier, its heading and the ids of its cards, top to bottom. */
  datatype Column = Column(id: string, title: string, taskIds: seq<string>)

  /** The whole board: the cards by id, the columns by id and the left-to-right
      order in which the columns are shown. */
  datatype BoardState = BoardState(
    tasks: map<string, Task>,
    columns: map<string, Column>,
    columnOrder: seq<string>)

  /** How often task id `t` occurs in the column stored under `columnId` (0 if
      there is no such column). */
  function CountIn(columns: map<string, Column>, columnId: string, t: string): nat {
    if columnId in columns then multiset(columns[columnId].taskIds)[t] else 0
  }

  /** How often task id `t` is placed in the columns listed in `order`. */
  ghost function Placed(columns: map<string, Column>, order: seq<string>, t: string): nat
    decreases |order|
  {
    if order == [] then 0
    else Placed(columns, order[..|order| - 1], t) + CountIn(columns, order[|order| - 1], t)
  }

  /** The invariants of a well-formed board: every record sits under its own id,
      `columnOrder` lists each column exactly once, every placed task exists, and
      no task is placed twice (neither twice in one column nor in two columns). */
  ghost predicate Consistent(b: BoardState) {
    && (forall id :: id in b.tasks ==> b.tasks[id].id == id)
    && (forall id :: id in b.columns ==> b.columns[id].id == id)
    && (forall id :: id in b.columns ==> id in b.columnOrder)
    && (forall id :: id in b.columnOrder ==> id in b.columns)
    && NoDuplicates(b.columnOrder)
    && (forall t :: Placed(b.columns, b.columnOrder, t) > 0 ==> t in b.tasks)
    && (forall t :: Placed(b.columns, b.columnOrder, t) <= 1)
  }

  /** A board obtained by editing the columns of a consistent board is
      consistent when its records sit under their own ids, its `columnOrder`
      lists each column exactly once and no task is placed more often than
      before. */
  lemma ConsistentFromParts(b: BoardState, n: BoardState)
    requires Consistent(b)
    requires n.tasks == b.tasks
    requires forall id :: id in n.columns ==> n.columns[id].id == id
    requires forall id :: id in n.columns <==> id in n.columnOrder
    requires NoDuplicates(n.columnOrder)
    requires forall t :: Placed(n.columns, n.columnOrder, t) <= Placed(b.columns, b.columnOrder, t)
    ensures Consistent(n)
  {
  }

  /** In a duplicate-free sequence the last element does not occur earlier,
      and the prefix is duplicate-free too. */
  lemma LastNotEarlier(order: seq<string>)
    requires order != [] && NoDuplicates(order)
    ensures order[|order| - 1] !in order[..|order| - 1]
    ensures NoDuplicates(order[..|order| - 1])
  {
    var init, last := order[..|order| - 1], order[|order| - 1];
    assert order == init + [last];
    assert multiset(order) == multiset(init) + multiset{last};
    assert multiset(order)[last] <= 1;
    forall x ensures multiset(init)[x] <= 1 {
      assert multiset(order)[x] <= 1;
    }
  }

  /** `Placed` over an order extended by one key. */
  lemma PlacedSnoc(columns: map<string, Column>, order: seq<string>, k: string, t: string)
    ensures Placed(columns, order + [k], t) == Placed(columns, order, t) + CountIn(columns, k, t)
  {
    assert (order + [k])[..|order|] == order;
  }

  /** Columns that are not listed in `order` do not contribute to `Placed`. */
  lemma {:induction false} PlacedUnlisted(columns: map<string, Column>, order: seq<string>, k: string, c: Column, t: string)
    requires k !in order
    ensures Placed(columns[k := c], order, t) == Placed(columns, order, t)
    ensures Placed(columns - {k}, order, t) == Placed(columns, order, t)
    decreases |order|
  {
    if order != [] {
      SnocMembers(order);
      PlacedUnlisted(columns, order[..|order| - 1], k, c, t);
    }
  }

  /** Replacing the column under a key that `order` lists exactly once swaps that
      column's task ids for the new ones and leaves every other placement alone. */
  lemma {:induction false} PlacedReplace(columns: map<string, Column>, order: seq<string>, k: string, c: Column, t: string)
    requires NoDuplicates(order) && k in order
    ensures Placed(columns[k := c], order, t) + CountIn(columns, k, t)
         == Placed(columns, order, t) + multiset(c.taskIds)[t]
    decreases |order|
  {
    var init, last := order[..|order| - 1], order[|order| - 1];
    SnocMembers(order);
    LastNotEarlier(order);
    if last == k {
      PlacedUnlisted(columns, init, k, c, t);
    } else {
      PlacedReplace(columns, init, k, c, t);
    }
  }

  /** Dropping a column's key from `columns` and from a duplicate-free `order`
      removes exactly that column's placements. */
  lemma {:induction false} PlacedDelete(columns: map<string, Column>, order: seq<string>, k: string, t: string)
    requires NoDuplicates(order)
    ensures Placed(columns - {k}, Without(order, k), t) + (if k in order then CountIn(columns, k, t) else 0)
         == Placed(columns, order, t)
    decreases |order|
  {
    if order != [] {
      var init, last := order[..|order| - 1], order[|order| - 1];
      SnocMembers(order);
      LastNotEarlier(order);
      if last == k {
        WithoutCounts(init, k);
        assert Without(order, k) == init;
        PlacedUnlisted(columns, init, k, Column(k, "", []), t);
      } else {
        PlacedDelete(columns, init, k, t);
        assert Without(order, k) == Without(init, k) + [last];
        PlacedSnoc(columns - {k}, Without(init, k), last, t);
        assert CountIn(columns - {k}, last, t) == CountIn(columns, last, t);
      }
    }
  }

  /** A column listed in `order` has all its task ids among the placed ones. */
  lemma {:induction false} PlacedHasColumnTasks(columns: map<string, Column>, order: seq<string>, k: string, t: string)
    requires k in order
    ensures Placed(columns, order, t) >= CountIn(columns, k, t)
    decreases |order|
  {
    SnocMembers(order);
    if order[|order| - 1] != k {
      PlacedHasColumnTasks(columns, order[..|order| - 1], k, t);
    }
  }
}
