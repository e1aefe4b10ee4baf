// The scene: one board of nine cells, one turn manager and the nine cell
// buttons wired to them, in the order the scripts subscribe. Start-up runs
// TurnManager.Start (X first) and BoardManager.Start (ResetGame); after
// that the only inputs are clicks on a cell's button and the restart
// button, which calls ResetGame.

module Scene {
  import opened Rules
  import opened Cells
  import opened Board
  import opened Turns
  import opened CellUI

  /** The board states between two inputs: GameInvariant, with the finish
      notifications counted since the last reset. */
  ghost predicate Playable(s: BoardState)
  {
    WellFormed(s) && GameInvariant(s.values, s.live, Finishes(SinceReset(s.events)))
  }

  /** An accepted click, a mark written into an unlocked blank cell with the
      board's check run against it, keeps the board playable; the game
      finishes (every cell locked) exactly when the check ends it, and then
      the one finish notification is added to the board's log. */
  lemma {:induction false} PlacedKeepsPlayable(s: BoardState, i: Index, v: int)
    requires Playable(s) && s.live[i] && s.values[i] == Blank && v in {X, O}
    ensures var r := Placed(s, i, v);
      var o := Evaluate(r.values, v);
      Playable(r) && r.values == s.values[i := v] &&
      (r.live == AllLocked <==> Ended(o)) &&
      r.events == s.events + Finish(o, v)
  {
    var r := Placed(s, i, v);
    var o := Evaluate(r.values, v);
    MoveKeepsInvariant(s.values, s.live, Finishes(SinceReset(s.events)), i, v);
    FinishCount(o, v);
    SinceResetAppend(s.events, Finish(o, v));
    FinishesAppend(SinceReset(s.events), Finish(o, v));
    if !Ended(o) {
      assert AllLive[0] != AllLocked[0];
    }
  }

  /** Once a game has finished, every cell is locked and no click is
      taken. */
  lemma LockedRejects(s: BoardState, i: Index)
    requires Playable(s) && Finishes(SinceReset(s.events)) > 0
    ensures s.live == AllLocked && !Accepts(s, i)
  {
    assert AllLocked[i] == false;
  }

  /** A board of blank unlocked cells right after a reset notification is
      playable and counts no finish. */
  lemma RestartPlayable(s: BoardState)
    requires WellFormed(s) && s.values == Blanks && s.live == AllLive
    requires |s.events| > 0 && s.events[|s.events| - 1] == ResetRaised
    ensures Playable(s) && Finishes(SinceReset(s.events)) == 0
  {
    ResetEstablishesInvariant(s.values);
  }

  /** A whole game from a fresh board, as Game.Click plays it: clicks on
      cells 0, 4, 1, 3, 2 are all taken and write X, O, X, O, X. The fifth
      completes row 0, the first line of the table, for X: the row's cells
      are notified "won", every cell is locked, and the board reports one
      win for X. A further click is ignored, and after five turns O holds
      the turn, so O moves first after a restart. */
  lemma RowZeroScenario(s0: BoardState, s1: BoardState, s2: BoardState, s3: BoardState,
                        s4: BoardState, s5: BoardState)
    requires WellFormed(s0) && s0.values == Blanks && s0.live == AllLive
    requires WellFormed(s1) && s1 == Placed(s0, 0, MarkFor(XToMove(0)))
    requires WellFormed(s2) && s2 == Placed(s1, 4, MarkFor(XToMove(1)))
    requires WellFormed(s3) && s3 == Placed(s2, 1, MarkFor(XToMove(2)))
    requires WellFormed(s4) && s4 == Placed(s3, 3, MarkFor(XToMove(3)))
    requires s5 == Placed(s4, 2, MarkFor(XToMove(4)))
    ensures Accepts(s0, 0) && Accepts(s1, 4) && Accepts(s2, 1) && Accepts(s3, 3) && Accepts(s4, 2)
    ensures s5.values == [X, X, X, O, O, Blank, Blank, Blank, Blank]
    ensures s5.live == AllLocked && s5.events == s0.events + [GameFinished(X, true)]
    ensures forall j :: 0 <= j < 9 ==>
      s5.notes[j] == s0.notes[j] + (if j < 5 then [ValueChanged(j, s5.values[j])] else []) + [Result(j < 3)]
    ensures !Accepts(s5, 5) && !XToMove(5)
  {
    assert XToMove(0) && !XToMove(1) && XToMove(2) && !XToMove(3) && XToMove(4) && !XToMove(5);
    assert MarkFor(XToMove(0)) == X && MarkFor(XToMove(1)) == O && MarkFor(XToMove(2)) == X;
    assert MarkFor(XToMove(3)) == O && MarkFor(XToMove(4)) == X;
    RowZeroOpeningOngoing();
    QuietMove(s0, 0, X, s1);
    QuietMove(s1, 4, O, s2);
    QuietMove(s2, 1, X, s3);
    QuietMove(s3, 3, O, s4);
    RowZeroWin(s4, s5);
  }

  /** None of the first four moves of the row-0 game ends it. */
  lemma RowZeroOpeningOngoing()
    ensures Evaluate(Blanks[0 := X], X) == Ongoing
    ensures Evaluate(Blanks[0 := X][4 := O], O) == Ongoing
    ensures Evaluate(Blanks[0 := X][4 := O][1 := X], X) == Ongoing
    ensures Evaluate(Blanks[0 := X][4 := O][1 := X][3 := O], O) == Ongoing
  {
  }

  /** A move after which play goes on is the write alone: the check it
      triggers changes nothing. */
  lemma QuietMove(s: BoardState, k: Index, v: int, t: BoardState)
    requires WellFormed(s) && Evaluate(s.values[k := v], v) == Ongoing
    requires t == Placed(s, k, v)
    ensures t == Written(s, k, v) && t.values == s.values[k := v]
  {
    OngoingChangesNothing(Written(s, k, v), v);
  }

  /** The fifth move of the row-0 game: X completes the first line of the
      table. */
  lemma RowZeroWin(s: BoardState, t: BoardState)
    requires WellFormed(s) && s.values == Blanks[0 := X][4 := O][1 := X][3 := O]
    requires t == Placed(s, 2, X)
    ensures t.values == [X, X, X, O, O, Blank, Blank, Blank, Blank]
    ensures t.live == AllLocked && t.events == s.events + [GameFinished(X, true)]
    ensures forall j :: 0 <= j < 9 ==>
      t.notes[j] == s.notes[j] + (if j == 2 then [ValueChanged(2, X)] else []) + [Result(j < 3)]
  {
    var after := [X, X, X, O, O, Blank, Blank, Blank, Blank];
    assert s.values[2 := X] == after;
    assert Evaluate(after, X) == Win(0);
  }

  /** The nine cell assets, loaded in board order with their saved values:
      new objects, the i-th with id i, none of which has notified yet. */
  method LoadCells(saved: seq<int>) returns (cs: seq<Cell>)
    requires |saved| == 9
    ensures |cs| == 9
    ensures forall j :: 0 <= j < 9 ==> cs[j].id == j && cs[j].notes == [] && fresh(cs[j])
  {
    cs := [];
    for i := 0 to 9
      invariant |cs| == i
      invariant forall j :: 0 <= j < i ==> cs[j].id == j && cs[j].notes == [] && fresh(cs[j])
    {
      var c := new Cell(i, saved[i]);
      cs := cs + [c];
    }
  }

  class Game {
    const board: BoardManager
    const turns: TurnManager

    /** Every cell is locked: a game has finished. */
    ghost predicate Locked()
      requires board.Valid()
      reads board.cells
    {
      board.Interactive() == AllLocked
    }

    /** The board is playable and the turn manager holds the turn the
        number of turns handed out calls for. */
    ghost predicate Valid()
      reads board, board.cells, turns
    {
      board.Valid() && turns.Valid() && Playable(board.State())
    }

    /** Loads the nine cell assets with their saved values, then runs the
        managers' Start: X begins and the board is reset, so every cell has
        raised exactly one value-change notification, carrying 0. The board,
        the turn manager and the cells are new objects the game owns. */
    constructor (saved: seq<int>)
      requires |saved| == 9
      ensures Valid() && !Locked() && turns.taken == 0 && turns.xUserTurn
      ensures board.Values() == Blanks && board.Interactive() == AllLive
      ensures board.events == [ResetRaised]
      ensures forall i :: 0 <= i < 9 ==> board.cells[i].notes == [ValueChanged(i, Blank)]
      ensures fresh(board) && fresh(turns) && forall i :: 0 <= i < 9 ==> fresh(board.cells[i])
    {
      var cs := LoadCells(saved);
      board := new BoardManager(cs);
      turns := new TurnManager();
      new;
      board.ResetGame();
      RestartPlayable(board.State());
      assert AllLive[0] != AllLocked[0];
    }

    /** A click on the button of cell `i`. It is taken exactly when the
        cell is interactive and blank; then the turn is handed out and the
        mark of the player it goes to, X on the even turns, is written, and
        the board's check runs against it. A click that is not taken
        changes nothing. */
    method Click(i: Index)
      requires Valid()
      modifies board, board.cells, turns
      ensures Valid()
      ensures Accepts(old(board.State()), i) ==>
        turns.taken == old(turns.taken) + 1 &&
        board.State() == Placed(old(board.State()), i, MarkFor(XToMove(old(turns.taken))))
      ensures !Accepts(old(board.State()), i) ==>
        turns.taken == old(turns.taken) && turns.xUserTurn == old(turns.xUserTurn) &&
        board.State() == old(board.State())
    {
      ghost var s := board.State();
      OnButtonClick(board, turns, board.cells[i]);
      if Accepts(s, i) {
        PlacedKeepsPlayable(s, i, MarkFor(old(turns.xUserTurn)));
      }
    }

    /** The restart button: every cell blank and interactive and notified
        `(i, 0)` once, OnReset raised once, no finish counted any more, and
        the turn left as it was. */
    method ResetGame()
      requires Valid()
      modifies board, board.cells
      ensures Valid() && !Locked()
      ensures board.Values() == Blanks && board.Interactive() == AllLive
      ensures board.events == old(board.events) + [ResetRaised]
      ensures Finishes(SinceReset(board.events)) == 0
      ensures turns.xUserTurn == old(turns.xUserTurn) && turns.taken == old(turns.taken)
      ensures forall i :: 0 <= i < 9 ==>
        board.cells[i].notes == old(board.cells[i].notes) + [ValueChanged(i, Blank)]
    {
      board.ResetGame();
      RestartPlayable(board.State());
      assert AllLive[0] != AllLocked[0];
    }
  }
}
