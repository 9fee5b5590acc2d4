/** The board a first visit starts from, and the moves of the usage examples
    played out on it. */
module Seed {
  import opened Wrappers
  import opened JsArray
  import opened KanbanInterfaces
  import opened Search
  import opened Moves
  import opened ViewDrops

  /** `initialData`: three cards, "To Do" holding the first two and
      "In Progress" the third; it satisfies the board invariants. */
  function InitialData(): (r: BoardState)
    ensures Consistent(r)
  {
    var b := BoardState(
      map["task-1" := Task("task-1", "Task One"),
          "task-2" := Task("task-2", "Task Two"),
          "task-3" := Task("task-3", "Task Three")],
      map["column-1" := Column("column-1", "To Do", ["task-1", "task-2"]),
          "column-2" := Column("column-2", "In Progress", ["task-3"])],
      ["column-1", "column-2"]);
    SeedConsistent(b);
    b
  }

  /** A board with the seed's tasks and layout satisfies the invariants. */
  lemma SeedConsistent(b: BoardState)
    requires b.tasks == map["task-1" := Task("task-1", "Task One"),
                            "task-2" := Task("task-2", "Task Two"),
                            "task-3" := Task("task-3", "Task Three")]
    requires b.columns == map["column-1" := Column("column-1", "To Do", ["task-1", "task-2"]),
                              "column-2" := Column("column-2", "In Progress", ["task-3"])]
    requires b.columnOrder == ["column-1", "column-2"]
    ensures Consistent(b)
  {
    SeedPlacements(b);
    assert multiset(b.columnOrder) == multiset{"column-1", "column-2"};
  }

  /** On the seed's layout each card is placed once and nothing else is. */
  lemma SeedPlacements(b: BoardState)
    requires b.columns == map["column-1" := Column("column-1", "To Do", ["task-1", "task-2"]),
                              "column-2" := Column("column-2", "In Progress", ["task-3"])]
    requires b.columnOrder == ["column-1", "column-2"]
    ensures forall t :: Placed(b.columns, b.columnOrder, t)
                     == if t in {"task-1", "task-2", "task-3"} then 1 else 0
  {
    var one := ["column-1"];
    assert b.columnOrder[..1] == one && one[..0] == [];
    var firsts, thirds := ["task-1", "task-2"], ["task-3"];
    assert b.columns["column-1"].taskIds == firsts && b.columns["column-2"].taskIds == thirds;
    forall t ensures Placed(b.columns, b.columnOrder, t)
                  == if t in {"task-1", "task-2", "task-3"} then 1 else 0
    {
      assert Placed(b.columns, b.columnOrder, t) == multiset(firsts)[t] + multiset(thirds)[t];
      assert multiset(firsts) == multiset{"task-1", "task-2"};
    }
  }

  /** The seed's columns, as facts about the lookups. */
  lemma SeedColumns()
    ensures "column-1" != "column-2"
    ensures "column-1" in InitialData().columns && "column-2" in InitialData().columns
    ensures InitialData().columns["column-1"] == Column("column-1", "To Do", ["task-1", "task-2"])
    ensures InitialData().columns["column-2"] == Column("column-2", "In Progress", ["task-3"])
  {
    assert "column-1"[7] != "column-2"[7];
  }

  /** Moving the top card `x1` of a two-card column `c1` below the single
      card of another column `c2`. */
  lemma MoveTopCardAcross(b: BoardState, c1: string, c2: string, x1: string, x2: string, x3: string)
    requires c1 != c2 && c1 in b.columns && c2 in b.columns
    requires b.columns[c1].id == c1 && b.columns[c2].id == c2
    requires b.columns[c1].taskIds == [x1, x2] && b.columns[c2].taskIds == [x3]
    ensures var o := OnDragEnd(b, DropResult(x1, DraggableLocation(c1, 0), Some(DraggableLocation(c2, 1))));
      && o.Updated?
      && o.board.columns == b.columns[c1 := b.columns[c1].(taskIds := [x2])]
                                      [c2 := b.columns[c2].(taskIds := [x3, x1])]
      && o.board.tasks == b.tasks
      && o.board.columnOrder == b.columnOrder
  {
    var r := DropResult(x1, DraggableLocation(c1, 0), Some(DraggableLocation(c2, 1)));
    var s1, s2 := RemoveAt([x1, x2], 0), InsertAt([x3], 1, x1);
    RemoveFromTwo(x1, x2);
    InsertIntoOne(x3, x1);
    CrossColumnUnfold(b, r);
  }

  /** Removing either card of a two-card list. */
  lemma RemoveFromTwo<T>(x1: T, x2: T)
    ensures RemoveAt([x1, x2], 0) == [x2] && RemoveAt([x1, x2], 1) == [x1]
  {
    var s0, s1 := RemoveAt([x1, x2], 0), RemoveAt([x1, x2], 1);
    assert |s0| == 1 && s0[0] == x2;
    assert |s1| == 1 && s1[0] == x1;
  }

  /** Inserting a card above or below the card of a one-card list. */
  lemma InsertIntoOne<T>(x3: T, x: T)
    ensures InsertAt([x3], 0, x) == [x, x3] && InsertAt([x3], 1, x) == [x3, x]
  {
    var s0, s1 := InsertAt([x3], 0, x), InsertAt([x3], 1, x);
    assert |s0| == 2 && s0[0] == x && s0[1] == x3;
    assert |s1| == 2 && s1[0] == x3 && s1[1] == x;
  }

  /** Dragging "task-1" from the top of "To Do" to below "task-3" in
      "In Progress" leaves `["task-2"]` and `["task-3", "task-1"]`. */
  lemma SeedCrossColumnMove()
    ensures var o := OnDragEnd(InitialData(), DropResult("task-1",
      DraggableLocation("column-1", 0), Some(DraggableLocation("column-2", 1))));
      && o.Updated?
      && o.board.columns["column-1"].taskIds == ["task-2"]
      && o.board.columns["column-2"].taskIds == ["task-3", "task-1"]
      && o.board.tasks == InitialData().tasks
      && o.board.columnOrder == InitialData().columnOrder
  {
    SeedColumns();
    MoveTopCardAcross(InitialData(), "column-1", "column-2", "task-1", "task-2", "task-3");
  }

  /** Moving the second card `x2` of a two-card column above the first. */
  lemma MoveSecondCardUp(b: BoardState, c1: string, x1: string, x2: string)
    requires c1 in b.columns && b.columns[c1].id == c1
    requires b.columns[c1].taskIds == [x1, x2]
    ensures var o := OnDragEnd(b, DropResult(x2, DraggableLocation(c1, 1), Some(DraggableLocation(c1, 0))));
      && o.Updated?
      && o.board.columns == b.columns[c1 := b.columns[c1].(taskIds := [x2, x1])]
      && o.board.tasks == b.tasks
      && o.board.columnOrder == b.columnOrder
  {
    var r := DropResult(x2, DraggableLocation(c1, 1), Some(DraggableLocation(c1, 0)));
    RemoveFromTwo(x1, x2);
    InsertIntoOne(x1, x2);
    SameColumnUnfold(b, r);
  }

  /** Dragging "task-2" above "task-1" in "To Do" gives `["task-2", "task-1"]`
      and leaves "In Progress" alone. */
  lemma SeedSameColumnMove()
    ensures var o := OnDragEnd(InitialData(), DropResult("task-2",
      DraggableLocation("column-1", 1), Some(DraggableLocation("column-1", 0))));
      && o.Updated?
      && o.board.columns["column-1"].taskIds == ["task-2", "task-1"]
      && o.board.columns["column-2"] == InitialData().columns["column-2"]
      && o.board.tasks == InitialData().tasks
  {
    SeedColumns();
    MoveSecondCardUp(InitialData(), "column-1", "task-1", "task-2");
  }

  /** The drop the drag library reports when the search box holds "two" and
      the only card shown in "To Do", "task-2" (shown at index 0, stored at
      index 1), is dropped at the top of "In Progress", whose only card is
      hidden. */
  function FilteredDrop(): DropResult {
    DropResult("task-2", DraggableLocation("column-1", 0), Some(DraggableLocation("column-2", 0)))
  }

  /** A board whose columns are the seed's: "To Do" holding "task-1" and
      "task-2", then "In Progress" holding "task-3". */
  ghost predicate ColumnsLikeSeed(b: BoardState) {
    && "column-1" in b.columns && b.columns["column-1"] == Column("column-1", "To Do", ["task-1", "task-2"])
    && "column-2" in b.columns && b.columns["column-2"] == Column("column-2", "In Progress", ["task-3"])
    && b.columnOrder == ["column-1", "column-2"]
  }

  /** A board laid out like the seed: its columns and its three cards. */
  ghost predicate SeedLayout(b: BoardState) {
    && ColumnsLikeSeed(b)
    && "task-1" in b.tasks && b.tasks["task-1"] == Task("task-1", "Task One")
    && "task-2" in b.tasks && b.tasks["task-2"] == Task("task-2", "Task Two")
    && "task-3" in b.tasks && b.tasks["task-3"] == Task("task-3", "Task Three")
  }

  /** Of the seed's cards, the query "two" shows "task-2" only. */
  ghost predicate OnlyTaskTwoShown(b: BoardState) {
    && !Shown(b.tasks, "task-1", "two")
    && Shown(b.tasks, "task-2", "two")
    && !Shown(b.tasks, "task-3", "two")
  }

  /** The seed is laid out like the seed. */
  lemma InitialDataLayout()
    ensures SeedLayout(InitialData())
  {
    SeedColumns();
  }

  /** With the query "two" only "task-2" of a seed-like board is shown. */
  lemma SeedShownForTwo(b: BoardState)
    requires SeedLayout(b)
    ensures OnlyTaskTwoShown(b)
  {
    ShownForTwoAmongThree(b.tasks, "task-1", "task-2", "task-3");
  }

  /** With the query "two", of cards reading "Task One", "Task Two" and
      "Task Three" only the second is shown. */
  lemma ShownForTwoAmongThree(tasks: map<string, Task>, x1: string, x2: string, x3: string)
    requires x1 in tasks && tasks[x1].content == "Task One"
    requires x2 in tasks && tasks[x2].content == "Task Two"
    requires x3 in tasks && tasks[x3].content == "Task Three"
    ensures !Shown(tasks, x1, "two") && Shown(tasks, x2, "two") && !Shown(tasks, x3, "two")
  {
    HiddenForTwo(tasks, x1, "Task One");
    ShownForTwo(tasks, x2);
    HiddenForTwo(tasks, x3, "Task Three");
  }

  /** A card without a "w" is hidden by the query "two". */
  lemma HiddenForTwo(tasks: map<string, Task>, id: string, content: string)
    requires id in tasks && tasks[id].content == content
    requires 'w' !in content && 'W' !in content
    ensures !Shown(tasks, id, "two")
  {
    MissingLetterHides(content, "two", 'w');
    assert tasks[id] == Task(tasks[id].id, content);
  }

  /** The card "Task Two" is shown by the query "two". */
  lemma ShownForTwo(tasks: map<string, Task>, id: string)
    requires id in tasks && tasks[id].content == "Task Two"
    ensures Shown(tasks, id, "two")
  {
    OccurrenceShows("Task Two", "two", 5);
    assert tasks[id] == Task(tasks[id].id, "Task Two");
  }

  /** The visible positions of a one-card and of a two-card list. */
  lemma VisiblePositionsShort(tasks: map<string, Task>, x1: string, x2: string, query: string)
    ensures VisiblePositions(tasks, [x1], query) == if Shown(tasks, x1, query) then [0] else []
    ensures VisiblePositions(tasks, [x1, x2], query)
         == (if Shown(tasks, x1, query) then [0] else []) + (if Shown(tasks, x2, query) then [1] else [])
  {
    assert [x1][..0] == [];
    assert [x1, x2][..1] == [x1];
  }

  /** Placements over a two-column order. */
  lemma PlacedPair(columns: map<string, Column>, c1: string, c2: string, t: string)
    ensures Placed(columns, [c1, c2], t) == CountIn(columns, c1, t) + CountIn(columns, c2, t)
  {
    assert [c1, c2][..1] == [c1];
    assert [c1][..0] == [];
    assert Placed(columns, [c1], t) == Placed(columns, [], t) + CountIn(columns, c1, t);
  }

  /** As written, the drop splices the top card `x1` out of `c1` while
      inserting `x2` into `c2`. */
  lemma MoveWrongCard(b: BoardState, c1: string, c2: string, x1: string, x2: string, x3: string)
    requires c1 != c2 && c1 in b.columns && c2 in b.columns
    requires b.columns[c1].id == c1 && b.columns[c2].id == c2
    requires b.columns[c1].taskIds == [x1, x2] && b.columns[c2].taskIds == [x3]
    ensures var o := OnDragEnd(b, DropResult(x2, DraggableLocation(c1, 0), Some(DraggableLocation(c2, 0))));
      && o.Updated?
      && o.board.columns == b.columns[c1 := b.columns[c1].(taskIds := [x2])]
                                      [c2 := b.columns[c2].(taskIds := [x2, x3])]
  {
    var r := DropResult(x2, DraggableLocation(c1, 0), Some(DraggableLocation(c2, 0)));
    var s1, s2 := RemoveAt([x1, x2], 0), InsertAt([x3], 0, x2);
    RemoveFromTwo(x1, x2);
    InsertIntoOne(x3, x2);
    CrossColumnUnfold(b, r);
  }

  /** Corrected, the drop moves the second card `x2` of `c1` below the single
      card of `c2`. */
  lemma MoveSecondCardAcross(b: BoardState, c1: string, c2: string, x1: string, x2: string, x3: string)
    requires c1 != c2 && c1 in b.columns && c2 in b.columns
    requires b.columns[c1].id == c1 && b.columns[c2].id == c2
    requires b.columns[c1].taskIds == [x1, x2] && b.columns[c2].taskIds == [x3]
    ensures var o := OnDragEnd(b, DropResult(x2, DraggableLocation(c1, 1), Some(DraggableLocation(c2, 1))));
      && o.Updated?
      && o.board.columns == b.columns[c1 := b.columns[c1].(taskIds := [x1])]
                                      [c2 := b.columns[c2].(taskIds := [x3, x2])]
  {
    var r := DropResult(x2, DraggableLocation(c1, 1), Some(DraggableLocation(c2, 1)));
    var s1, s2 := RemoveAt([x1, x2], 1), InsertAt([x3], 1, x2);
    RemoveFromTwo(x1, x2);
    InsertIntoOne(x3, x2);
    CrossColumnUnfold(b, r);
  }

  /** `onDragEnd` as written, fed the drop above on a seed-like board: "To Do"
      keeps "task-2" although "task-1" is the card removed, "In Progress"
      gains a second "task-2", and "task-1" is no longer placed anywhere. The
      result breaks the board invariants. */
  lemma FilteredDropAsWritten(b: BoardState)
    requires ColumnsLikeSeed(b) && OnlyTaskTwoShown(b)
    ensures ReportedByView(b, "two", FilteredDrop())
    ensures var o := OnDragEnd(b, FilteredDrop());
      && o.Updated?
      && o.board.columns["column-1"].taskIds == ["task-2"]
      && o.board.columns["column-2"].taskIds == ["task-2", "task-3"]
      && Placed(o.board.columns, o.board.columnOrder, "task-1") == 0
      && Placed(o.board.columns, o.board.columnOrder, "task-2") == 2
      && !Consistent(o.board)
  {
    SeedIdsDistinct();
    VisiblePositionsShort(b.tasks, "task-1", "task-2", "two");
    MoveWrongCard(b, "column-1", "column-2", "task-1", "task-2", "task-3");
    var n := OnDragEnd(b, FilteredDrop()).board;
    WrongCardPlacements(n, "column-1", "column-2", "task-1", "task-2", "task-3");
  }

  /** The seed's ids are pairwise distinct. */
  lemma SeedIdsDistinct()
    ensures "column-1" != "column-2"
    ensures "task-1" != "task-2" && "task-1" != "task-3" && "task-2" != "task-3"
  {
    assert "column-1"[7] != "column-2"[7];
    assert "task-1"[5] != "task-2"[5] && "task-1"[5] != "task-3"[5] && "task-2"[5] != "task-3"[5];
  }

  /** After the as-written drop, `x1` is placed nowhere and `x2` twice. */
  lemma WrongCardPlacements(n: BoardState, c1: string, c2: string, x1: string, x2: string, x3: string)
    requires x1 != x2 && x1 != x3 && x2 != x3
    requires n.columnOrder == [c1, c2] && c1 in n.columns && c2 in n.columns
    requires n.columns[c1].taskIds == [x2] && n.columns[c2].taskIds == [x2, x3]
    ensures Placed(n.columns, n.columnOrder, x1) == 0
    ensures Placed(n.columns, n.columnOrder, x2) == 2
  {
    PlacedPair(n.columns, c1, c2, x1);
    PlacedPair(n.columns, c1, c2, x2);
    assert multiset([x2, x3]) == multiset{x2, x3};
  }

  /** The same drop translated from view indices: "task-2" itself moves,
      below the hidden "task-3", and a consistent seed-like board stays consistent. */
  lemma FilteredDropCorrected(b: BoardState)
    requires ColumnsLikeSeed(b) && OnlyTaskTwoShown(b) && Consistent(b)
    ensures var o := DropInView(b, "two", FilteredDrop());
      && o.Updated?
      && o.board.columns["column-1"].taskIds == ["task-1"]
      && o.board.columns["column-2"].taskIds == ["task-3", "task-2"]
      && Consistent(o.board)
  {
    SeedIdsDistinct();
    FilteredDropTranslated(b);
    MoveSecondCardAcross(b, "column-1", "column-2", "task-1", "task-2", "task-3");
    DropInViewPreservesConsistency(b, "two", FilteredDrop());
  }

  /** The translation names the card's real place (index 1 of "To Do") and
      the end of "In Progress", past its hidden card. */
  lemma FilteredDropTranslated(b: BoardState)
    requires ColumnsLikeSeed(b) && OnlyTaskTwoShown(b)
    ensures ReportedByView(b, "two", FilteredDrop())
    ensures ToCanonical(b, "two", FilteredDrop())
         == DropResult("task-2", DraggableLocation("column-1", 1), Some(DraggableLocation("column-2", 1)))
  {
    SeedIdsDistinct();
    VisiblePositionsShort(b.tasks, "task-1", "task-2", "two");
    VisiblePositionsShort(b.tasks, "task-3", "task-3", "two");
  }

  /** On the seed itself: with "two" in the search box, the drop the view
      reports corrupts the board as written and keeps it consistent once
      translated. */
  lemma SeedFilteredDrop()
    ensures ReportedByView(InitialData(), "two", FilteredDrop())
    ensures OnDragEnd(InitialData(), FilteredDrop()).Updated?
    ensures !Consistent(OnDragEnd(InitialData(), FilteredDrop()).board)
    ensures DropInView(InitialData(), "two", FilteredDrop()).Updated?
    ensures Consistent(DropInView(InitialData(), "two", FilteredDrop()).board)
  {
    InitialDataLayout();
    SeedShownForTwo(InitialData());
    FilteredDropAsWritten(InitialData());
    FilteredDropCorrected(InitialData());
  }
}
