// BoardManager: the nine cells, the win/draw check that runs after every
// cell change, and the reset that starts a game. The board's own
// notifications, `OnGameFinished(value, isWin)` and `OnReset`, are recorded
// in the ghost log `events`.

module Board {
  import opened Rules
  import opened Cells

  datatype Event = GameFinished(value: int, isWin: bool) | ResetRaised

  /** The board notification CheckWinCondition raises for each outcome. */
  function Finish(o: Outcome, v: int): seq<Event>
  {
    match o
    case Ongoing => []
    case Win(_) => [GameFinished(v, true)]
    case Draw => [GameFinished(0, false)]
  }

  /** The result notification cell `i` receives for each outcome: "won" for
      the cells of the winning line, "lost" for every other cell. */
  function CellResult(o: Outcome, i: int): seq<Notice>
    requires o.Win? ==> o.line < |WinConditions|
  {
    match o
    case Ongoing => []
    case Win(k) => [Result(InLine(WinConditions[k], i))]
    case Draw => [Result(false)]
  }

  /** The nine cells' notification logs after a check with outcome `o`:
      each cell's log gains the result notification `CellResult(o, i)`. */
  function WithResults(notes: seq<seq<Notice>>, o: Outcome): (r: seq<seq<Notice>>)
    requires |notes| == 9 && (o.Win? ==> o.line < |WinConditions|)
    ensures |r| == 9
    ensures forall i :: 0 <= i < 9 ==> r[i] == notes[i] + CellResult(o, i)
  {
    [notes[0] + CellResult(o, 0), notes[1] + CellResult(o, 1), notes[2] + CellResult(o, 2),
     notes[3] + CellResult(o, 3), notes[4] + CellResult(o, 4), notes[5] + CellResult(o, 5),
     notes[6] + CellResult(o, 6), notes[7] + CellResult(o, 7), notes[8] + CellResult(o, 8)]
  }

  /** A check raises one finish notification exactly when its outcome ends
      the game, and never a reset notification. */
  lemma FinishCount(o: Outcome, v: int)
    ensures Finishes(Finish(o, v)) == if Ended(o) then 1 else 0
    ensures forall j :: 0 <= j < |Finish(o, v)| ==> Finish(o, v)[j] != ResetRaised
  {
    assert Finish(o, v)[..|Finish(o, v)|] == Finish(o, v);
    if Ended(o) {
      assert Finish(o, v)[..0] == [];
    }
  }

  /** Logs that gained exactly the result notifications of `o`, cell by
      cell, are the logs WithResults gives. */
  lemma ResultsAdded(before: seq<seq<Notice>>, after: seq<seq<Notice>>, o: Outcome)
    requires |before| == 9 && |after| == 9 && (o.Win? ==> o.line < |WinConditions|)
    requires forall i :: 0 <= i < 9 ==> after[i] == before[i] + CellResult(o, i)
    ensures after == WithResults(before, o)
  {
  }

  /** A check that lets play go on adds no result notification. */
  lemma NoResults(notes: seq<seq<Notice>>)
    requires |notes| == 9
    ensures WithResults(notes, Ongoing) == notes
  {
    assert forall i :: 0 <= i < 9 ==> notes[i] + [] == notes[i];
  }

  /** A sequence that differs from `before` at index `k` alone, where it
      holds `x`, is `before[k := x]`. */
  lemma UpdatedAt<T>(before: seq<T>, after: seq<T>, k: nat, x: T)
    requires |after| == |before| && k < |before| && after[k] == x
    requires forall i :: 0 <= i < |before| && i != k ==> after[i] == before[i]
    ensures after == before[k := x]
  {
  }

  /** The number of game-finished notifications in a log. */
  function Finishes(log: seq<Event>): nat
  {
    if log == [] then 0
    else Finishes(log[..|log| - 1]) + (if log[|log| - 1].GameFinished? then 1 else 0)
  }

  /** A log counts no finish exactly when it holds no finish notification. */
  lemma {:induction false} NoFinishes(log: seq<Event>)
    ensures Finishes(log) == 0 <==> forall j :: 0 <= j < |log| ==> !log[j].GameFinished?
  {
    if log != [] {
      var init := log[..|log| - 1];
      NoFinishes(init);
      assert forall j :: 0 <= j < |init| ==> init[j] == log[j];
    }
  }

  /** The part of a log after its last reset notification. */
  function SinceReset(log: seq<Event>): (r: seq<Event>)
    ensures |r| <= |log|
  {
    if log == [] then []
    else if log[|log| - 1] == ResetRaised then []
    else SinceReset(log[..|log| - 1]) + [log[|log| - 1]]
  }

  /** SinceReset is a suffix of the log that holds no reset notification,
      and what precedes it, if anything, is the last reset. */
  lemma {:induction false} SinceLastReset(log: seq<Event>)
    ensures SinceReset(log) == log[|log| - |SinceReset(log)|..]
    ensures forall j :: 0 <= j < |SinceReset(log)| ==> SinceReset(log)[j] != ResetRaised
    ensures |SinceReset(log)| < |log| ==> log[|log| - |SinceReset(log)| - 1] == ResetRaised
  {
    if log != [] && log[|log| - 1] != ResetRaised {
      var init := log[..|log| - 1];
      SinceLastReset(init);
      assert |SinceReset(log)| == |SinceReset(init)| + 1;
    }
  }

  lemma {:induction false} FinishesAppend(a: seq<Event>, b: seq<Event>)
    ensures Finishes(a + b) == Finishes(a) + Finishes(b)
    decreases |b|
  {
    if b != [] {
      var b' := b[..|b| - 1];
      assert (a + b)[..|a + b| - 1] == a + b';
      FinishesAppend(a, b');
    } else {
      assert a + b == a;
    }
  }

  lemma {:induction false} SinceResetAppend(log: seq<Event>, more: seq<Event>)
    requires forall j :: 0 <= j < |more| ==> more[j] != ResetRaised
    ensures SinceReset(log + more) == SinceReset(log) + more
    decreases |more|
  {
    if more == [] {
      assert log + more == log;
    } else {
      var m' := more[..|more| - 1];
      assert (log + more)[..|log + more| - 1] == log + m';
      SinceResetAppend(log, m');
    }
  }

  /** What the board's check and its cells' writers act on: the nine cell
      values, the nine interactivity flags, the nine cells' notification
      logs and the board's own notification log. */
  datatype BoardState = BoardState(values: seq<int>, live: seq<bool>, notes: seq<seq<Notice>>, events: seq<Event>)

  predicate WellFormed(s: BoardState)
  {
    |s.values| == 9 && |s.live| == 9 && |s.notes| == 9
  }

  /** A click on cell `i` is taken: the cell is interactive and blank. */
  predicate Accepts(s: BoardState, i: Index)
    requires WellFormed(s)
  {
    s.live[i] && s.values[i] == Blank
  }

  /** The state after CheckWinCondition(_, v): values kept, flags and logs
      as the outcome of the scan against `v` says. */
  function Checked(s: BoardState, v: int): (r: BoardState)
    requires WellFormed(s)
    ensures WellFormed(r)
  {
    var o := Evaluate(s.values, v);
    BoardState(s.values, AfterCheck(s.live, o), WithResults(s.notes, o), s.events + Finish(o, v))
  }

  /** The state after cell `k` stores `v` and notifies `(k, v)`. */
  function Written(s: BoardState, k: Index, v: int): (r: BoardState)
    requires WellFormed(s)
    ensures WellFormed(r)
  {
    s.(values := s.values[k := v], notes := s.notes[k := s.notes[k] + [ValueChanged(k, v)]])
  }

  /** A check that finds no full line and a blank cell changes nothing: no
      cell is locked, no result and no finish is notified. */
  lemma OngoingChangesNothing(s: BoardState, v: int)
    requires WellFormed(s) && Evaluate(s.values, v) == Ongoing
    ensures Checked(s, v) == s
  {
    NoResults(s.notes);
    assert s.events + [] == s.events;
  }

  /** The state after `SetValue(v)` on cell `k` with the board subscribed:
      the write, then the check against `v`. */
  function Placed(s: BoardState, k: Index, v: int): (r: BoardState)
    requires WellFormed(s)
    ensures WellFormed(r)
  {
    Checked(Written(s, k, v), v)
  }

  class BoardManager {
    const cells: seq<Cell>
    ghost var events: seq<Event>

    /** Nine cells, the i-th with id i (so all nine are distinct objects). */
    ghost predicate Valid()
    {
      |cells| == 9 && forall i :: 0 <= i < 9 ==> cells[i].id == i
    }

    /** The cell values in board order. */
    function Values(): (vals: seq<int>)
      requires Valid()
      reads cells
      ensures |vals| == 9 && forall i :: 0 <= i < 9 ==> vals[i] == cells[i].value
    {
      [cells[0].value, cells[1].value, cells[2].value,
       cells[3].value, cells[4].value, cells[5].value,
       cells[6].value, cells[7].value, cells[8].value]
    }

    /** The interactivity flags in board order. */
    function Interactive(): (live: seq<bool>)
      requires Valid()
      reads cells
      ensures |live| == 9 && forall i :: 0 <= i < 9 ==> live[i] == cells[i].interactive
    {
      [cells[0].interactive, cells[1].interactive, cells[2].interactive,
       cells[3].interactive, cells[4].interactive, cells[5].interactive,
       cells[6].interactive, cells[7].interactive, cells[8].interactive]
    }

    /** The notification logs of the cells in board order. */
    ghost function Notes(): (notes: seq<seq<Notice>>)
      requires Valid()
      reads cells
      ensures |notes| == 9 && forall i :: 0 <= i < 9 ==> notes[i] == cells[i].notes
    {
      [cells[0].notes, cells[1].notes, cells[2].notes,
       cells[3].notes, cells[4].notes, cells[5].notes,
       cells[6].notes, cells[7].notes, cells[8].notes]
    }

    /** The whole observable state of the board and its cells. */
    ghost function State(): (s: BoardState)
      requires Valid()
      reads this, cells
      ensures WellFormed(s)
    {
      BoardState(Values(), Interactive(), Notes(), events)
    }

    constructor (cells: seq<Cell>)
      requires |cells| == 9 && forall i :: 0 <= i < 9 ==> cells[i].id == i
      ensures Valid() && this.cells == cells && events == []
    {
      this.cells := cells;
      events := [];
    }

    /** The handler of every cell's value-change notification. It scans the
        table in order against the value just written; the first full line
        locks its cells as "won" and all others as "lost" and reports a win.
        Without a full line and without a blank cell it locks every cell as
        "lost" and reports a draw. Otherwise nothing changes. */
    method CheckWinCondition(cellId: int, value: int)
      requires Valid()
      modifies this, cells
      ensures State() == Checked(old(State()), value)
    {
      ghost var o := Evaluate(Values(), value);
      var won, k := FindWinningLine(value);
      if won {
        assert o == Win(k);
        MarkWin(k);
        events := events + [GameFinished(value, true)];
      } else {
        var allCellFilled := AllCellFilled();
        if allCellFilled {
          assert o == Draw;
          MarkAllLost();
          events := events + [GameFinished(0, false)];
        } else {
          assert o == Ongoing;
          NoResults(Notes());
        }
      }
      assert Values() == old(Values());
      assert Interactive() == AfterCheck(old(Interactive()), o);
      assert Notes() == WithResults(old(Notes()), o);
      assert events == old(events) + Finish(o, value);
    }

    /** The table scan of CheckWinCondition: the first entry, in table order,
        whose three cells all hold `value`, with `value` not blank, as
        FirstWin specifies it. */
    method FindWinningLine(value: int) returns (won: bool, k: nat)
      requires Valid()
      ensures won ==> k < |WinConditions|
      ensures FirstWin(Values(), value, 0) == if won then Win(k) else Ongoing
    {
      k := 0;
      while k < |WinConditions|
        invariant k <= |WinConditions|
        invariant FirstWin(Values(), value, 0) == FirstWin(Values(), value, k)
      {
        var condition := WinConditions[k];
        if cells[condition.a].value == value &&
           cells[condition.b].value == value &&
           cells[condition.c].value == value &&
           value != Blank
        {
          assert Wins(Values(), k, value);
          return true, k;
        }
        k := k + 1;
      }
      won := false;
    }

    /** The winning branch of CheckWinCondition for table entry `k`:
        `SetResult(true)` on the three cells of the line, then
        `SetResult(false)` on every other cell in board order. */
    method MarkWin(k: nat)
      requires Valid() && k < |WinConditions|
      modifies cells
      ensures Values() == old(Values()) && Interactive() == AllLocked
      ensures Notes() == WithResults(old(Notes()), Win(k))
    {
      var condition := WinConditions[k];
      TableDistinct();
      cells[condition.a].SetResult(true);
      cells[condition.b].SetResult(true);
      cells[condition.c].SetResult(true);
      for i := 0 to |cells|
        invariant forall j :: 0 <= j < 9 ==>
          cells[j].value == old(cells[j].value) &&
          cells[j].interactive == (old(cells[j].interactive) && !InLine(condition, j) && j >= i)
        invariant forall j :: 0 <= j < 9 ==>
          cells[j].notes == old(cells[j].notes) +
            (if InLine(condition, j) || j < i then [Result(InLine(condition, j))] else [])
      {
        if i != condition.a && i != condition.b && i != condition.c {
          cells[i].SetResult(false);
        }
      }
      ResultsAdded(old(Notes()), Notes(), Win(k));
    }

    /** The filled-board test of CheckWinCondition: stops at the first blank. */
    method AllCellFilled() returns (allCellFilled: bool)
      requires Valid()
      ensures allCellFilled <==> AllFilled(Values())
    {
      allCellFilled := true;
      for i := 0 to |cells|
        invariant allCellFilled
        invariant forall j :: 0 <= j < i ==> cells[j].value != Blank
      {
        if cells[i].value == Blank {
          allCellFilled := false;
          break;
        }
      }
    }

    /** The draw branch of CheckWinCondition: `SetResult(false)` on every cell. */
    method MarkAllLost()
      requires Valid()
      modifies cells
      ensures Values() == old(Values()) && Interactive() == AllLocked
      ensures Notes() == WithResults(old(Notes()), Draw)
    {
      for i := 0 to |cells|
        invariant forall j :: 0 <= j < 9 ==>
          cells[j].value == old(cells[j].value) &&
          cells[j].interactive == (old(cells[j].interactive) && j >= i) &&
          cells[j].notes == old(cells[j].notes) + (if j < i then [Result(false)] else [])
      {
        cells[i].SetResult(false);
      }
      ResultsAdded(old(Notes()), Notes(), Draw);
    }

    /** `SetValue` on cell `k` as the board wires it: the cell stores the
        value and notifies `(k, value)`, and that notification runs
        CheckWinCondition before the call returns. */
    method SetCellValue(k: Index, value: int)
      requires Valid()
      modifies this, cells
      ensures State() == Placed(old(State()), k, value)
    {
      cells[k].SetValue(value);
      UpdatedAt(old(Values()), Values(), k, value);
      assert Interactive() == old(Interactive());
      UpdatedAt(old(Notes()), Notes(), k, old(Notes())[k] + [ValueChanged(k, value)]);
      assert State() == Written(old(State()), k, value);
      CheckWinCondition(k, value);
    }

    /** `Reset` of cell `k` as the board wires it: the cell is unlocked and
        blanked through SetValue, and the notification runs CheckWinCondition
        with value 0, which changes nothing more: the blanked cell rules out
        both a win and a draw. */
    method ResetCell(k: Index)
      requires Valid()
      modifies this, cells
      ensures Values() == old(Values())[k := Blank]
      ensures Interactive() == old(Interactive())[k := true]
      ensures Notes() == old(Notes())[k := old(Notes())[k] + [ValueChanged(k, Blank)]]
      ensures events == old(events)
    {
      cells[k].Reset();
      UpdatedAt(old(Values()), Values(), k, Blank);
      UpdatedAt(old(Interactive()), Interactive(), k, true);
      UpdatedAt(old(Notes()), Notes(), k, old(Notes())[k] + [ValueChanged(k, Blank)]);
      BlankNeverEnds(Values(), k);
      NoResults(Notes());
      CheckWinCondition(k, 0);
    }

    /** Resets every cell in board order, then raises OnReset. */
    method ResetGame()
      requires Valid()
      modifies this, cells
      ensures Values() == Blanks && Interactive() == AllLive
      ensures forall i :: 0 <= i < 9 ==> cells[i].notes == old(cells[i].notes) + [ValueChanged(i, Blank)]
      ensures events == old(events) + [ResetRaised]
    {
      for k := 0 to |cells|
        invariant forall j :: 0 <= j < 9 ==>
          cells[j].value == (if j < k then 0 else old(cells[j].value)) &&
          cells[j].interactive == (j < k || old(cells[j].interactive)) &&
          cells[j].notes == old(cells[j].notes) + (if j < k then [ValueChanged(j, 0)] else [])
        invariant events == old(events)
      {
        ResetCell(k);
      }
      events := events + [ResetRaised];
    }
  }
}
