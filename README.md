# Tic-tac-toe rules engine, modelled in Dafny

This project models the rules engine of a Unity tic-tac-toe game: a fixed
3x3 board of nine `Cell` assets, the `BoardManager` that checks for a win
or a draw after every cell change and resets the board, the `TurnManager`
that hands the turn to X and O in turn, and the click handler of a cell
button (`UICellBehavior.OnButtonClick`) that accepts or ignores a move.

The C# objects become Dafny classes with the same fields:
- `Cell` has `id`, `value` (0 blank, 1 X, 2 O) and `interactive`.
- `BoardManager` holds the nine cells in board order.
- `TurnManager` holds `xUserTurn`.

Notifications are recorded as ghost logs rather than dispatched:
- each cell's `OnValueChanged(id, value)` and `OnGameFinished(isWin)` in the cell's `notes`;
- the board's `OnGameFinished(value, isWin)` and `OnReset` in the board's `events`.

The C# events fire synchronously, so the model calls the handlers directly, in the order the scripts wire them:
- a cell's `SetValue`, made through the board, runs `CheckWinCondition` before returning (`SetCellValue`, `ResetCell`);
- a click runs `GetTurn`, then `SetValue`, then the check.

The pure part of the check lives in module `Rules`:
- the `winConditions` table;
- `FirstWin`, the ordered scan;
- `Evaluate`, the win/draw/ongoing decision.

A `BoardState` snapshot records the values, the interactive flags, each cell's log and the board's log. Pure transitions on it are `Checked`, `Written` and `Placed`:
- `CheckWinCondition` and `SetCellValue` are proved equal to `Checked` and `Placed` of the snapshot before the call;
- `MarkWin`, `MarkAllLost`, `ResetCell` and `ResetGame` state their new state field by field.

The game-level properties are proved about the transitions.

`Scene.Game` wires one board, one turn manager and the nine buttons. Its invariant `Valid()` says three things:
- the values are marks;
- either play goes on (every cell unlocked, no full line, some blank, no finish reported since the last reset) or the game is over (every cell locked, exactly one finish reported);
- the turn flag is X's exactly after an even number of turns handed out.

The ghost counter `taken` of `TurnManager` counts the turns handed out since `Start`.

The model follows the C# code:
- the board is 3x3 only;
- there is no computer opponent;
- the check tests the lines only against the value just written;
- `ResetGame` blanks and unlocks the cells but leaves the turn where it was.

## Model

| member | source | states |
|---|---|---|
| Cells.Cell.constructor | Assets/Scripts/Cell.cs:7-9 | a loaded cell asset keeps its saved value and is locked until the board resets it |
| Cells.Cell.SetValue | Assets/Scripts/Cell.cs:12-16 | stores the value, notifies `(id, value)` once; interactivity and id unchanged |
| Cells.Cell.SetResult | Assets/Scripts/Cell.cs:17-21 | notifies the result once and locks the cell; value unchanged |
| Cells.Cell.Reset | Assets/Scripts/Cell.cs:22-26 | the cell ends interactive and blank, and its one value-change notification carries 0 |
| Turns.TurnManager.constructor | Assets/Scripts/TurnManager.cs:7-10 | X holds the first turn; the alternation invariant holds with no turn taken |
| Turns.TurnManager.GetTurn | Assets/Scripts/TurnManager.cs:12-17 | returns the turn held before the call, flips it, and keeps the invariant that X holds the turn exactly after an even number of turns |
| Turns.XToMoveOnEven | Assets/Scripts/TurnManager.cs:9-15 | X-first alternation gives X the turn exactly when an even number of turns has been taken |
| Turns.GetTurnTwice | Assets/Scripts/TurnManager.cs:12-17 | two calls in a row return opposite turns and restore the flag |
| Rules.TableDistinct | Assets/Scripts/BoardManager.cs:12-22 | the table has eight lines, each naming three different cells |
| Rules.FirstWin | Assets/Scripts/BoardManager.cs:37-41 | the scan only reports a line whose three cells all hold the placed value, and that value is not 0 |
| Rules.FirstWinIsFirst | Assets/Scripts/BoardManager.cs:37-53 | the reported line is the first full one in table order, and none is reported exactly when no line is full |
| Rules.Evaluate | Assets/Scripts/BoardManager.cs:35-66 | a win names a full line of the nonzero placed value |
| Rules.EvaluateCases | Assets/Scripts/BoardManager.cs:35-66 | win iff some line is full of the placed value; draw iff none is and no cell is blank; ongoing iff none is and some cell is blank |
| Rules.BlankNeverEnds | Assets/Scripts/BoardManager.cs:41-61 | checking after writing 0 into a cell never gives a win or a draw |
| Rules.PlacedValueDecides | Assets/Scripts/BoardManager.cs:37-41 | on an open board, a mark written into a blank cell can only fill lines through that cell, and only with that mark, so testing the placed value misses no win |
| Rules.MoveKeepsInvariant | Assets/Scripts/BoardManager.cs:35-66 | an accepted move keeps the game invariant; the game ends exactly when the check ends it, with exactly one finish |
| Rules.ResetEstablishesInvariant | Assets/Scripts/BoardManager.cs:67-71 | a blank, fully unlocked board with no finish satisfies the invariant |
| Board.FinishCount | Assets/Scripts/BoardManager.cs:51-64 | a check raises `OnGameFinished` exactly once when it ends the game and never otherwise, and never raises `OnReset` |
| Board.OngoingChangesNothing | Assets/Scripts/BoardManager.cs:54-61 | a check with no full line and a blank cell locks nothing and notifies nothing |
| Board.SinceLastReset | Assets/Scripts/BoardManager.cs:67-71 | the part of the board log counted since the last `OnReset` is the suffix after that notification |
| Board.BoardManager.constructor | Assets/Scripts/BoardManager.cs:10 | the board holds the serialized list of nine cells in board order, the i-th with id i, and has reported nothing |
| Board.BoardManager.CheckWinCondition | Assets/Scripts/BoardManager.cs:35-66 | the board after the check is `Checked` of the board before: values kept, cells locked and notified per the outcome, one finish on a win or draw |
| Board.BoardManager.FindWinningLine | Assets/Scripts/BoardManager.cs:37-42 | the loop finds the line the ordered scan `FirstWin` names, or none |
| Board.BoardManager.MarkWin | Assets/Scripts/BoardManager.cs:43-49 | the three line cells are notified "won", every other cell "lost", all nine end locked, values unchanged |
| Board.BoardManager.AllCellFilled | Assets/Scripts/BoardManager.cs:54-60 | returns true exactly when no cell is blank |
| Board.BoardManager.MarkAllLost | Assets/Scripts/BoardManager.cs:61-65 | every cell is notified "lost" and locked, values unchanged |
| Board.BoardManager.SetCellValue | Assets/Scripts/Cell.cs:12-16 | a cell write with the board subscribed is the write followed by the check (`Placed`) |
| Board.BoardManager.ResetCell | Assets/Scripts/Cell.cs:22-26 | resetting one cell blanks and unlocks it, notifies `(k, 0)`, and the check it triggers changes nothing |
| Board.BoardManager.ResetGame | Assets/Scripts/BoardManager.cs:67-71 | every cell ends blank and interactive, each notified `(i, 0)` once, and `OnReset` is raised once |
| CellUI.MarkFor | Assets/Scripts/UICellBehavior.cs:53-54 | X's turn writes 1, O's turn writes 2 |
| CellUI.OnButtonClick | Assets/Scripts/UICellBehavior.cs:48-57 | a click on a locked or occupied cell changes nothing and takes no turn; otherwise it takes one turn, writes that turn's mark, and the check runs |
| CellUI.SpriteFor | Assets/Scripts/UICellBehavior.cs:36-43 | 1 shows the X sprite, 0 the blank sprite, anything else the O sprite |
| CellUI.SpriteShowsValue | Assets/Scripts/UICellBehavior.cs:36-43 | on the values 0, 1, 2 the sprite determines the value |
| CellUI.CellImage.OnValueChanged | Assets/Scripts/UICellBehavior.cs:36-43 | the sprite shows the new value; a blank restores the default color |
| CellUI.CellImage.OnGameFinished | Assets/Scripts/UICellBehavior.cs:44-47 | the win or the lost tint; the sprite is unchanged |
| Scene.PlacedKeepsPlayable | Assets/Scripts/UICellBehavior.cs:48-57 | an accepted click writes only the clicked cell, keeps the board playable, locks every cell exactly when the game ends, and adds exactly that finish notification |
| Scene.LockedRejects | Assets/Scripts/UICellBehavior.cs:50 | once a finish has been reported since the last reset, every cell is locked and every click is ignored |
| Scene.RestartPlayable | Assets/Scripts/BoardManager.cs:67-71 | after a reset the board is playable and no finish is counted |
| Scene.RowZeroScenario | Assets/Scripts/UICellBehavior.cs:48-57 | from a fresh board, clicks on 0, 4, 1, 3, 2 are all taken and write X, O, X, O, X; the last one wins row 0 for X, locks every cell and reports one win; each of cells 0-4 is notified its mark once, then cells 0-2 "won" and cells 3-8 "lost"; a further click is ignored, and O holds the turn for the next game |
| Scene.LoadCells | Assets/Scripts/BoardManager.cs:10 | the nine serialized cell assets are new objects, the i-th with id i, none of which has notified yet |
| Scene.Game.constructor | Assets/Scripts/BoardManager.cs:23-26 | start-up gives X the first turn, and a blank, unlocked, playable board with one `OnReset`; each cell has notified `(i, 0)` once; the board, the turn manager and the nine cells are new objects |
| Scene.Game.Click | Assets/Scripts/UICellBehavior.cs:48-57 | a taken click writes X on even turns and O on odd ones, and runs the check; an ignored click changes nothing; the invariant is kept |
| Scene.Game.ResetGame | Assets/Scripts/BoardManager.cs:67-71 | restart blanks and unlocks every cell, appends one `(i, 0)` notification to each cell's log, raises `OnReset` once, counts no finish since, and leaves the turn untouched |

## Left out

- `PersistentMonoSingleton` (global instances, `DontDestroyOnLoad`, the lock) is not part of this model. The managers are plain objects owned by `Scene.Game`.
- `BreathingEffect`, `ObjectRotator` and `UIBehavior` are presentation only (floating-point animation, status text) and are not part of this model.
- Sprite loading (`Resources.Load`) and `Color` values are not modelled. Sprites and tints are abstract enumerations.
- CellUI.CellImage.constructor: the starting blank sprite and default color come from the cell's prefab in the scene, not from a script; the model picks them so that a new image shows an empty cell.
- Board.BoardManager.Valid: assumes the scene lists nine distinct cell assets in board order, the i-th with id i. This is scene data, which the scripts do not check.
- `CellUI.CellImage` is not wired into `Scene.Game`. Its two handlers are modelled on their own.
- Event subscription (`OnEnable`/`OnDisable`, `+=`/`-=`) is not modelled. Each handler is a direct call in the order the scripts subscribe.
- The interleaving of notifications across different cells is not modelled. Each cell's log records its own notifications in order. During a win, for example, the model does not record that the line cells are notified before the others.
- Cell results are modelled at the level of the cell. With `Cell.SetResult` first raising `OnGameFinished` and then locking (Assets/Scripts/Cell.cs:19-20), nothing observable sits between the two steps.
- Cell values are unbounded integers. `int` overflow cannot arise, since only 0, 1 and 2 are ever written.
- Board sizes other than 3x3, a computer opponent, difficulty levels and game modes do not exist in the code and are not modelled.
