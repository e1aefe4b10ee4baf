// UICellBehavior: the button of one cell. A click is accepted only on an
// interactive blank cell; it takes the turn and writes X (1) or O (2). The
// cell's value-change notification then reaches the board's win check,
// synchronously, before the click returns. The image of the cell follows
// the cell's two notifications.

module CellUI {
  import opened Rules
  import opened Cells
  import opened Board
  import opened Turns

  /** The value a click writes for the turn it took. */
  function MarkFor(isXTurn: bool): (v: int)
    ensures v == X <==> isXTurn
    ensures v == O <==> !isXTurn
  {
    if isXTurn then X else O
  }

  /** The click handler of the button of `cell`. A click on a locked or an
      occupied cell changes nothing and takes no turn. A click on an
      interactive blank cell takes the turn, writes its mark, and the board's
      check runs against that mark before the click returns. */
  method OnButtonClick(board: BoardManager, turns: TurnManager, cell: Cell)
    requires board.Valid() && cell.id < 9 && board.cells[cell.id] == cell
    modifies board, board.cells, turns
    ensures turns.Valid() == old(turns.Valid())
    ensures Accepts(old(board.State()), cell.id) ==>
      turns.taken == old(turns.taken) + 1 && turns.xUserTurn == !old(turns.xUserTurn) &&
      board.State() == Placed(old(board.State()), cell.id, MarkFor(old(turns.xUserTurn)))
    ensures !Accepts(old(board.State()), cell.id) ==>
      turns.taken == old(turns.taken) && turns.xUserTurn == old(turns.xUserTurn) &&
      board.State() == old(board.State())
  {
    ghost var s := board.State();
    if !cell.interactive {
      assert !Accepts(s, cell.id);
      return;
    }
    if cell.value == Blank {
      assert Accepts(s, cell.id);
      var isXTurn := turns.GetTurn();
      assert board.State() == s;
      var newValue := MarkFor(isXTurn);
      board.SetCellValue(cell.id, newValue);
      assert turns.taken == old(turns.taken) + 1 && turns.Valid() == old(turns.Valid());
    } else {
      assert !Accepts(s, cell.id);
    }
  }

  datatype Sprite = XSprite | OSprite | BlankSprite
  datatype Tint = DefaultColor | WinColor | FailedColor

  /** The sprite that shows a cell value: X for 1, blank for 0, and O for
      anything else. */
  function SpriteFor(value: int): (s: Sprite)
    ensures s == XSprite <==> value == X
    ensures s == BlankSprite <==> value == Blank
    ensures s == OSprite <==> value != X && value != Blank
  {
    if value == Blank then BlankSprite else if value == X then XSprite else OSprite
  }

  /** On the values the game writes, the sprite tells the value apart. */
  lemma SpriteShowsValue(v: int, w: int)
    requires v in {Blank, X, O} && w in {Blank, X, O}
    requires SpriteFor(v) == SpriteFor(w)
    ensures v == w
  {
  }

  /** The image of one cell button. */
  class CellImage {
    var sprite: Sprite
    var color: Tint

    constructor ()
      ensures sprite == BlankSprite && color == DefaultColor
    {
      sprite := BlankSprite;
      color := DefaultColor;
    }

    /** Handler of the cell's value-change notification: shows the value,
        and on a blank (a restart) also restores the default color. */
    method OnValueChanged(cell: int, newValue: int)
      modifies this
      ensures sprite == SpriteFor(newValue)
      ensures color == if newValue == Blank then DefaultColor else old(color)
    {
      sprite := if newValue == X then XSprite else OSprite;
      if newValue != Blank {
        return;
      }
      sprite := BlankSprite;
      color := DefaultColor;
    }

    /** Handler of the cell's result notification: the won or lost tint. */
    method OnGameFinished(isGameWin: bool)
      modifies this
      ensures sprite == old(sprite)
      ensures color == if isGameWin then WinColor else FailedColor
    {
      color := if isGameWin then WinColor else FailedColor;
    }
  }
}
