/** The `Board` component's state: the current board, the search query, and
    a linear undo/redo history of board snapshots with an index into it.
    The session functions state what each handler does to the whole state;
    the `Board` class performs the same updates field by field. */
module BoardHistory {
  import opened Wrappers
  import opened KanbanInterfaces
  import opened Moves
  import opened ViewDrops
  import opened ColumnEdits
  import opened Seed

  /** The component's state variables at one moment. */
  datatype Session = Session(
    boardState: BoardState,
    searchQuery: string,
    history: seq<BoardState>,
    currentIndex: nat)

  /** The current index is a position of the history and the shown board is the
      snapshot it points at. */
  predicate InSync(s: Session) {
    s.currentIndex < |s.history| && s.boardState == s.history[s.currentIndex]
  }

  /** A `Partial<BoardState>`: the fields a handler hands to
      `updateBoardState`, each present or absent. */
  datatype BoardPatch = BoardPatch(
    tasks: Option<map<string, Task>>,
    columns: Option<map<string, Column>>,
    columnOrder: Option<seq<string>>)

  /** `{ ...boardState, ...newState }`: the fields present in the patch
      replace the board's, the others are kept. */
  function Merge(b: BoardState, p: BoardPatch): (r: BoardState)
    ensures p.tasks.None? ==> r.tasks == b.tasks
    ensures p.columns.None? ==> r.columns == b.columns
    ensures p.columnOrder.None? ==> r.columnOrder == b.columnOrder
    ensures p.tasks.Some? ==> r.tasks == p.tasks.value
    ensures p.columns.Some? ==> r.columns == p.columns.value
    ensures p.columnOrder.Some? ==> r.columnOrder == p.columnOrder.value
  {
    BoardState(p.tasks.GetOr(b.tasks), p.columns.GetOr(b.columns), p.columnOrder.GetOr(b.columnOrder))
  }

  /** The patch that turns `b` into `n` when `n` differs from `b` in its
      columns and column order only, as every handler's patch does. */
  function ColumnsPatch(n: BoardState): BoardPatch {
    BoardPatch(None, Some(n.columns), Some(n.columnOrder))
  }

  /** Merging a columns patch of a board with the same tasks yields that board. */
  lemma MergeColumnsPatch(b: BoardState, n: BoardState)
    requires n.tasks == b.tasks
    ensures Merge(b, ColumnsPatch(n)) == n
    ensures Merge(b, BoardPatch(None, Some(n.columns), None)) == n.(columnOrder := b.columnOrder)
  {
  }

  /** The state on mount: the loaded board, or the seed when nothing was
      loaded, as the only snapshot, and an empty query. */
  function Init(loaded: Option<BoardState>): (s: Session)
    ensures InSync(s)
    ensures s.history == [s.boardState] && s.currentIndex == 0 && s.searchQuery == ""
    ensures s.boardState == if loaded.Some? then loaded.value else InitialData()
  {
    var b := loaded.GetOr(InitialData());
    Session(b, "", [b], 0)
  }

  /** `updateBoardState`: the merged board becomes current, the history is cut
      after the current snapshot and the merged board appended, and the
      current index moves one on. From an in-sync state this lands on the new last
      snapshot, so everything that could have been redone is gone. */
  function Commit(s: Session, patch: BoardPatch): (r: Session)
    ensures r.boardState == Merge(s.boardState, patch) && r.searchQuery == s.searchQuery
    ensures r.currentIndex == s.currentIndex + 1
    ensures InSync(s) ==>
      && InSync(r)
      && r.currentIndex == |r.history| - 1
      && r.history == s.history[..s.currentIndex + 1] + [r.boardState]
  {
    var newBoardState := Merge(s.boardState, patch);
    var keep := if s.currentIndex + 1 <= |s.history| then s.currentIndex + 1 else |s.history|;
    s.(boardState := newBoardState,
       history := s.history[..keep] + [newBoardState],
       currentIndex := s.currentIndex + 1)
  }

  /** `undo`: one snapshot back, unless at the first; the history is kept. */
  function UndoStep(s: Session): (r: Session)
    requires InSync(s)
    ensures InSync(r)
    ensures r.history == s.history && r.searchQuery == s.searchQuery
    ensures s.currentIndex == 0 ==> r == s
    ensures s.currentIndex > 0 ==> r.currentIndex == s.currentIndex - 1
  {
    if s.currentIndex > 0 then
      s.(currentIndex := s.currentIndex - 1, boardState := s.history[s.currentIndex - 1])
    else s
  }

  /** `redo`: one snapshot forward, unless at the last; the history is kept. */
  function RedoStep(s: Session): (r: Session)
    requires InSync(s)
    ensures InSync(r)
    ensures r.history == s.history && r.searchQuery == s.searchQuery
    ensures s.currentIndex == |s.history| - 1 ==> r == s
    ensures s.currentIndex < |s.history| - 1 ==> r.currentIndex == s.currentIndex + 1
  {
    if s.currentIndex < |s.history| - 1 then
      s.(currentIndex := s.currentIndex + 1, boardState := s.history[s.currentIndex + 1])
    else s
  }

  /** Undo then redo gives back the state before the undo. */
  lemma UndoThenRedo(s: Session)
    requires InSync(s) && s.currentIndex > 0
    ensures RedoStep(UndoStep(s)) == s
  {
  }

  /** Redo then undo gives back the state before the redo. */
  lemma RedoThenUndo(s: Session)
    requires InSync(s) && s.currentIndex < |s.history| - 1
    ensures UndoStep(RedoStep(s)) == s
  {
  }

  /** After any update there is nothing to redo. */
  lemma NothingToRedoAfterUpdate(s: Session, patch: BoardPatch)
    requires InSync(s)
    ensures RedoStep(Commit(s, patch)) == Commit(s, patch)
  {
  }

  /** Committing A and B, undoing, and committing C: C is current, redo does
      nothing, and the history holds the old prefix, A and C; B is gone. */
  lemma NewEditAfterUndoDiscardsRedo(s: Session, a: BoardPatch, b: BoardPatch, c: BoardPatch)
    requires InSync(s)
    ensures var t := Commit(UndoStep(Commit(Commit(s, a), b)), c);
      && t.boardState == Merge(Merge(s.boardState, a), c)
      && RedoStep(t) == t
      && t.history == s.history[..s.currentIndex + 1]
                      + [Merge(s.boardState, a), Merge(Merge(s.boardState, a), c)]
  {
    var s1 := Commit(s, a);
    var s2 := Commit(s1, b);
    var s3 := UndoStep(s2);
    assert s3.history[..s3.currentIndex + 1] == s1.history by {
      assert s2.history[..s1.currentIndex + 1] == s1.history;
    }
  }

  /** The user's interactions with the component. The id of an added column
      stands for `column-${Date.now()}`. */
  datatype Event =
    | DragEnded(result: DropResult)
    | SearchChanged(query: string)
    | AddColumnClicked(newColumnId: string)
    | DeleteColumnClicked(columnId: string)
    | UndoClicked
    | RedoClicked

  /** What one event does to the state. A drop is read against the view the
      current query filters; one with no destination, or one that names a
      column the board lacks (the handler throws), commits nothing. Typing in
      the search box changes the query only. */
  function Step(s: Session, e: Event): (r: Session)
    requires InSync(s)
    ensures InSync(r)
    ensures e.SearchChanged? ==> r == s.(searchQuery := e.query)
    ensures e.DragEnded? && e.result.destination.None? ==> r == s
    ensures r.searchQuery == if e.SearchChanged? then e.query else s.searchQuery
  {
    match e
    case DragEnded(result) =>
      (match DropInView(s.boardState, s.searchQuery, result)
       case Ignored => s
       case Crashed(_) => s
       case Updated(n) => Commit(s, BoardPatch(None, Some(n.columns), None)))
    case SearchChanged(query) => s.(searchQuery := query)
    case AddColumnClicked(newColumnId) => Commit(s, ColumnsPatch(AddColumn(s.boardState, newColumnId)))
    case DeleteColumnClicked(columnId) => Commit(s, ColumnsPatch(DeleteColumn(s.boardState, columnId)))
    case UndoClicked => UndoStep(s)
    case RedoClicked => RedoStep(s)
  }

  /** Deleting a column that does not exist leaves the board as it was but
      still records a new snapshot and moves the current index. */
  lemma DeleteAbsentColumnStillCommits(s: Session, columnId: string)
    requires InSync(s)
    requires columnId !in s.boardState.columns && columnId !in s.boardState.columnOrder
    ensures var r := Step(s, DeleteColumnClicked(columnId));
      && r.boardState == s.boardState
      && r.currentIndex == s.currentIndex + 1
      && r.history == s.history[..s.currentIndex + 1] + [s.boardState]
  {
    MergeColumnsPatch(s.boardState, DeleteColumn(s.boardState, columnId));
  }

  /** A drop that changes the board commits exactly the translated drop's
      board; tasks and column order stay. */
  lemma DropCommitsTranslatedMove(s: Session, result: DropResult)
    requires InSync(s) && DropInView(s.boardState, s.searchQuery, result).Updated?
    ensures var r := Step(s, DragEnded(result));
      && r.boardState == DropInView(s.boardState, s.searchQuery, result).board
      && r.history == s.history[..s.currentIndex + 1] + [r.boardState]
  {
    var n := DropInView(s.boardState, s.searchQuery, result).board;
    MergeColumnsPatch(s.boardState, n);
  }

  /** Every snapshot of the history is a consistent board. */
  ghost predicate AllConsistent(s: Session) {
    forall k :: 0 <= k < |s.history| ==> Consistent(s.history[k])
  }

  /** The events the component can receive in state `s`: a drop the view
      reports, and an added column's id that no column has. */
  ghost predicate Admissible(s: Session, e: Event) {
    match e
    case DragEnded(result) => ReportedByView(s.boardState, s.searchQuery, result)
    case AddColumnClicked(newColumnId) => newColumnId !in s.boardState.columns
    case _ => true
  }

  /** One admissible event keeps every snapshot consistent. */
  lemma StepKeepsConsistent(s: Session, e: Event)
    requires InSync(s) && AllConsistent(s) && Admissible(s, e)
    ensures AllConsistent(Step(s, e))
  {
    var b := s.boardState;
    assert Consistent(b);
    match e {
      case DragEnded(result) =>
        var o := DropInView(b, s.searchQuery, result);
        if o.Updated? {
          DropInViewPreservesConsistency(b, s.searchQuery, result);
          MergeColumnsPatch(b, o.board);
          CommitKeepsConsistent(s, BoardPatch(None, Some(o.board.columns), None));
        }
      case AddColumnClicked(newColumnId) =>
        AddColumnPreservesConsistency(b, newColumnId);
        MergeColumnsPatch(b, AddColumn(b, newColumnId));
        CommitKeepsConsistent(s, ColumnsPatch(AddColumn(b, newColumnId)));
      case DeleteColumnClicked(columnId) =>
        DeleteColumnPreservesConsistency(b, columnId);
        MergeColumnsPatch(b, DeleteColumn(b, columnId));
        CommitKeepsConsistent(s, ColumnsPatch(DeleteColumn(b, columnId)));
      case SearchChanged(_) =>
      case UndoClicked =>
      case RedoClicked =>
    }
  }

  /** Committing a consistent board keeps every snapshot consistent. */
  lemma CommitKeepsConsistent(s: Session, patch: BoardPatch)
    requires InSync(s) && AllConsistent(s) && Consistent(Merge(s.boardState, patch))
    ensures AllConsistent(Commit(s, patch))
  {
    var r := Commit(s, patch);
    forall k | 0 <= k < |r.history| ensures Consistent(r.history[k]) {
      if k <= s.currentIndex {
        assert r.history[k] == s.history[k];
      }
    }
  }

  /** The state after handling `events` in order. */
  function Run(s: Session, events: seq<Event>): (r: Session)
    requires InSync(s)
    ensures InSync(r)
    decreases |events|
  {
    if events == [] then s else Run(Step(s, events[0]), events[1..])
  }

  /** Every event of the sequence is admissible in the state it arrives in. */
  ghost predicate AdmissibleRun(s: Session, events: seq<Event>)
    requires InSync(s)
    decreases |events|
  {
    events != [] ==> Admissible(s, events[0]) && AdmissibleRun(Step(s, events[0]), events[1..])
  }

  /** From a consistent start, every board the component shows or can return
      to by undo and redo is consistent: no card is lost from `tasks` while
      placed, and none is placed twice. */
  lemma {:induction false} RunKeepsConsistent(s: Session, events: seq<Event>)
    requires InSync(s) && AllConsistent(s) && AdmissibleRun(s, events)
    ensures AllConsistent(Run(s, events))
    ensures Consistent(Run(s, events).boardState)
    decreases |events|
  {
    if events != [] {
      StepKeepsConsistent(s, events[0]);
      RunKeepsConsistent(Step(s, events[0]), events[1..]);
    }
  }

  /** Starting from the seed, or from a loaded consistent board, every
      snapshot is consistent. */
  lemma InitConsistent(loaded: Option<BoardState>)
    requires loaded.Some? ==> Consistent(loaded.value)
    ensures AllConsistent(Init(loaded))
  {
  }

  /** The `Board` component: its state variables as fields, its handlers as
      methods that update them in place. */
  class Board {
    var boardState: BoardState
    var searchQuery: string
    var history: seq<BoardState>
    var currentIndex: nat

    /** The fields as a session value. */
    function Snapshot(): Session
      reads this
    {
      Session(boardState, searchQuery, history, currentIndex)
    }

    /** The shown board is the snapshot at `currentIndex`. */
    ghost predicate Valid()
      reads this
    {
      InSync(Snapshot())
    }

    /** Mounting: the loaded board, or the seed, as the only snapshot. */
    constructor(loaded: Option<BoardState>)
      ensures Valid() && Snapshot() == Init(loaded)
    {
      var b := loaded.GetOr(InitialData());
      boardState := b;
      searchQuery := "";
      history := [b];
      currentIndex := 0;
    }

    /** `updateBoardState`. */
    method UpdateBoardState(newState: BoardPatch)
      requires Valid()
      modifies this
      ensures Valid() && Snapshot() == Commit(old(Snapshot()), newState)
    {
      var newBoardState := Merge(boardState, newState);
      boardState := newBoardState;
      history := history[..currentIndex + 1] + [newBoardState];
      currentIndex := currentIndex + 1;
    }

    /** `onDragEnd`, read against the view the current query filters; the
      error is the one the handler would throw. */
    method OnDragEnd(result: DropResult) returns (error: Option<MoveError>)
      requires Valid()
      modifies this
      ensures Valid() && Snapshot() == Step(old(Snapshot()), DragEnded(result))
      ensures error.Some? <==> DropInView(old(boardState), old(searchQuery), result).Crashed?
    {
      error := None;
      match DropInView(boardState, searchQuery, result) {
        case Ignored =>
        case Crashed(e) => error := Some(e);
        case Updated(n) => UpdateBoardState(BoardPatch(None, Some(n.columns), None));
      }
    }

    /** `addColumn`, with the fresh id supplied by the caller. */
    method AddColumn(newColumnId: string)
      requires Valid()
      modifies this
      ensures Valid() && Snapshot() == Step(old(Snapshot()), AddColumnClicked(newColumnId))
    {
      var n := ColumnEdits.AddColumn(boardState, newColumnId);
      UpdateBoardState(BoardPatch(None, Some(n.columns), Some(n.columnOrder)));
    }

    /** `deleteColumn`. */
    method DeleteColumn(columnId: string)
      requires Valid()
      modifies this
      ensures Valid() && Snapshot() == Step(old(Snapshot()), DeleteColumnClicked(columnId))
    {
      var n := ColumnEdits.DeleteColumn(boardState, columnId);
      UpdateBoardState(BoardPatch(None, Some(n.columns), Some(n.columnOrder)));
    }

    /** `handleSearch`. */
    method HandleSearch(query: string)
      requires Valid()
      modifies this
      ensures Valid() && Snapshot() == Step(old(Snapshot()), SearchChanged(query))
    {
      searchQuery := query;
    }

    /** `undo`. */
    method Undo()
      requires Valid()
      modifies this
      ensures Valid() && Snapshot() == UndoStep(old(Snapshot()))
    {
      if currentIndex > 0 {
        currentIndex := currentIndex - 1;
        boardState := history[currentIndex];
      }
    }

    /** `redo`. */
    method Redo()
      requires Valid()
      modifies this
      ensures Valid() && Snapshot() == RedoStep(old(Snapshot()))
    {
      if currentIndex < |history| - 1 {
        currentIndex := currentIndex + 1;
        boardState := history[currentIndex];
      }
    }
  }
}
