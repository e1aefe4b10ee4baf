// Cell: one slot of the board, with its value, its interactivity flag and
// the notifications it raises. The two notifications of a cell go to its
// subscribers synchronously; here each call records the notification it
// raises in the ghost log `notes`, and the caller dispatches it.

module Cells {

  /** The notifications a cell raises: `OnValueChanged(id, value)` and
      `OnGameFinished(isWin)`. */
  datatype Notice = ValueChanged(id: int, value: int) | Result(isWin: bool)

  class Cell {
    const id: nat
    var value: int          // 0: blank, 1: X, 2: O
    var interactive: bool
    ghost var notes: seq<Notice>

    /** A cell asset as loaded: it keeps the value it was saved with and is
        not interactive until the board resets it. */
    constructor (id: nat, saved: int)
      ensures this.id == id && value == saved && !interactive && notes == []
    {
      this.id := id;
      value := saved;
      interactive := false;
      notes := [];
    }

    /** Stores the value and notifies `(id, value)`. */
    method SetValue(newValue: int)
      modifies this
      ensures value == newValue && interactive == old(interactive)
      ensures notes == old(notes) + [ValueChanged(id, newValue)]
    {
      value := newValue;
      notes := notes + [ValueChanged(id, value)];
    }

    /** Notifies the result for this cell and locks it; the value stays. */
    method SetResult(isWin: bool)
      modifies this
      ensures !interactive && value == old(value)
      ensures notes == old(notes) + [Result(isWin)]
    {
      notes := notes + [Result(isWin)];
      interactive := false;
    }

    /** Unlocks the cell and blanks it through SetValue, so the value-change
        notification carries 0. */
    method Reset()
      modifies this
      ensures interactive && value == 0
      ensures notes == old(notes) + [ValueChanged(id, 0)]
    {
      interactive := true;
      SetValue(0);
    }
  }
}
