// The pure part of BoardManager: the fixed table of winning lines of the
// 3x3 board and what CheckWinCondition decides from the nine cell values
// and the value that was just placed.

module Rules {

  /** An index into the row-major 3x3 board. */
  type Index = i: nat | i < 9

  /** One entry of the `winConditions` table: three cell indices. */
  datatype Line = Line(a: Index, b: Index, c: Index)

  /** Rows, then columns, then the two diagonals, in the source's order. */
  const WinConditions: seq<Line> := [
    Line(0, 1, 2), Line(3, 4, 5), Line(6, 7, 8),
    Line(0, 3, 6), Line(1, 4, 7), Line(2, 5, 8),
    Line(0, 4, 8), Line(2, 4, 6)
  ]

  const Blank := 0
  const X := 1
  const O := 2

  /** The values of a board on which every cell is blank. */
  const Blanks: seq<int> := [0, 0, 0, 0, 0, 0, 0, 0, 0]

  predicate InLine(l: Line, i: int)
  {
    i == l.a || i == l.b || i == l.c
  }

  predicate Distinct(l: Line)
  {
    l.a != l.b && l.a != l.c && l.b != l.c
  }

  /** Every line of the table names three different cells. */
  lemma TableDistinct()
    ensures |WinConditions| == 8
    ensures forall k :: 0 <= k < |WinConditions| ==> Distinct(WinConditions[k])
  {
  }

  /** The condition the scan tests for line `k`: all three cells hold the
      just-placed value `v`, and `v` is not blank. */
  predicate Wins(vals: seq<int>, k: nat, v: int)
    requires |vals| == 9 && k < |WinConditions|
  {
    var l := WinConditions[k];
    vals[l.a] == v && vals[l.b] == v && vals[l.c] == v && v != Blank
  }

  predicate AllFilled(vals: seq<int>)
  {
    forall i :: 0 <= i < |vals| ==> vals[i] != Blank
  }

  /** What one run of CheckWinCondition concludes. */
  datatype Outcome = Ongoing | Win(line: nat) | Draw

  predicate Ended(o: Outcome)
  {
    o != Ongoing
  }

  /** The table scan from entry `from` on: the first line that wins for `v`. */
  function FirstWin(vals: seq<int>, v: int, from: nat): (r: Outcome)
    requires |vals| == 9 && from <= |WinConditions|
    ensures r == Ongoing || r.Win?
    ensures r.Win? ==> from <= r.line < |WinConditions| && Wins(vals, r.line, v)
    decreases |WinConditions| - from
  {
    if from == |WinConditions| then Ongoing
    else if Wins(vals, from, v) then Win(from)
    else FirstWin(vals, v, from + 1)
  }

  /** The scan reports the first winning line from `from` on, and reports
      none exactly when no line from `from` on wins. */
  lemma {:induction false} FirstWinIsFirst(vals: seq<int>, v: int, from: nat)
    requires |vals| == 9 && from <= |WinConditions|
    ensures var r := FirstWin(vals, v, from);
      (r.Win? ==> forall j :: from <= j < r.line ==> !Wins(vals, j, v)) &&
      (r == Ongoing <==> forall j :: from <= j < |WinConditions| ==> !Wins(vals, j, v))
    decreases |WinConditions| - from
  {
    if from < |WinConditions| && !Wins(vals, from, v) {
      FirstWinIsFirst(vals, v, from + 1);
    }
  }

  /** CheckWinCondition's decision after `v` was written into a cell: the
      first line of the table full of `v`, else a draw on a full board. */
  function Evaluate(vals: seq<int>, v: int): (o: Outcome)
    requires |vals| == 9
    ensures o.Win? ==> v != Blank && o.line < |WinConditions| && Wins(vals, o.line, v)
  {
    var scan := FirstWin(vals, v, 0);
    if scan.Win? then scan
    else if AllFilled(vals) then Draw
    else Ongoing
  }

  /** The three outcomes exactly: a win names the first full line of the
      table, a draw needs no full line and no blank, and the game goes on
      when there is no full line and some cell is blank. */
  lemma EvaluateCases(vals: seq<int>, v: int)
    requires |vals| == 9
    ensures var o := Evaluate(vals, v);
      (o.Win? ==> forall j :: 0 <= j < o.line ==> !Wins(vals, j, v)) &&
      (o.Win? <==> exists k :: 0 <= k < |WinConditions| && Wins(vals, k, v)) &&
      (o == Draw <==>
        (forall k :: 0 <= k < |WinConditions| ==> !Wins(vals, k, v)) && AllFilled(vals)) &&
      (o == Ongoing <==>
        (forall k :: 0 <= k < |WinConditions| ==> !Wins(vals, k, v)) && !AllFilled(vals))
  {
    FirstWinIsFirst(vals, v, 0);
  }

  /** Writing a blank never ends the game: the `v != 0` guard rules out a
      win and the blank cell rules out a draw. */
  lemma BlankNeverEnds(vals: seq<int>, i: nat)
    requires |vals| == 9 && i < 9 && vals[i] == Blank
    ensures Evaluate(vals, Blank) == Ongoing
  {
    assert !AllFilled(vals);
    EvaluateCases(vals, Blank);
  }

  /** No nonzero value fills any line, and some cell is blank: the state of
      a board on which play can go on. */
  ghost predicate Open(vals: seq<int>)
    requires |vals| == 9
  {
    (forall k :: 0 <= k < |WinConditions| ==> !Wins(vals, k, vals[WinConditions[k].a])) &&
    !AllFilled(vals)
  }

  /** A board of blanks is open. */
  lemma EmptyBoardOpen(vals: seq<int>)
    requires |vals| == 9 && forall i :: 0 <= i < 9 ==> vals[i] == Blank
    ensures Open(vals)
  {
    assert vals[0] == Blank;
  }

  /** Writing `v` into a blank cell `i` of an open board can only fill lines
      through that cell, and only with `v`; so testing the table against the
      just-placed value alone misses no win. */
  lemma {:induction false} PlacedValueDecides(vals: seq<int>, after: seq<int>, i: nat, v: int)
    requires |vals| == 9 && Open(vals) && i < 9 && vals[i] == Blank
    requires after == vals[i := v]
    ensures forall k, w :: 0 <= k < |WinConditions| && Wins(after, k, w) ==>
      w == v && InLine(WinConditions[k], i)
  {
    forall k, w | 0 <= k < |WinConditions| && Wins(after, k, w)
      ensures w == v && InLine(WinConditions[k], i)
    {
      assert !Wins(vals, k, vals[WinConditions[k].a]);
    }
  }

  /** After such a move the board is open again unless the scan against
      the placed value ends the game. */
  lemma {:induction false} OpenAfterOngoing(vals: seq<int>, after: seq<int>, i: nat, v: int)
    requires |vals| == 9 && Open(vals) && i < 9 && vals[i] == Blank
    requires after == vals[i := v] && Evaluate(after, v) == Ongoing
    ensures Open(after)
  {
    PlacedValueDecides(vals, after, i, v);
    EvaluateCases(after, v);
  }

  /** The interactivity flags of the nine cells when all are unlocked, and
      when all are locked. */
  const AllLive: seq<bool> := [true, true, true, true, true, true, true, true, true]
  const AllLocked: seq<bool> := [false, false, false, false, false, false, false, false, false]

  /** The flags after a check with outcome `o`: an ended game locks every cell. */
  function AfterCheck(live: seq<bool>, o: Outcome): (r: seq<bool>)
    ensures Ended(o) ==> r == AllLocked
    ensures !Ended(o) ==> r == live
  {
    if Ended(o) then AllLocked else live
  }

  /** The states a game can be in between two inputs: the values are marks,
      and either play goes on (every cell unlocked, the board open, no
      finish reported since the last reset) or the game has finished (every
      cell locked, one finish reported). */
  ghost predicate GameInvariant(vals: seq<int>, live: seq<bool>, finished: nat)
  {
    |vals| == 9 &&
    (forall i :: 0 <= i < 9 ==> vals[i] in {Blank, X, O}) &&
    ((live == AllLive && Open(vals) && finished == 0) ||
     (live == AllLocked && finished == 1))
  }

  /** A fresh board satisfies the invariant. */
  lemma ResetEstablishesInvariant(vals: seq<int>)
    requires |vals| == 9 && forall i :: 0 <= i < 9 ==> vals[i] == Blank
    ensures GameInvariant(vals, AllLive, 0)
  {
    EmptyBoardOpen(vals);
  }

  /** An accepted move, a mark written into an unlocked blank cell, keeps
      the invariant: the game finishes exactly when the check against that
      mark ends it, and then exactly one finish is added. */
  lemma {:induction false} MoveKeepsInvariant(vals: seq<int>, live: seq<bool>, finished: nat, i: nat, v: int)
    requires GameInvariant(vals, live, finished)
    requires i < 9 && live[i] && vals[i] == Blank && v in {X, O}
    ensures live == AllLive && finished == 0
    ensures var o := Evaluate(vals[i := v], v);
      GameInvariant(vals[i := v], AfterCheck(live, o), if Ended(o) then 1 else 0)
  {
    assert live != AllLocked by {
      assert AllLocked[i] == false;
    }
    var after := vals[i := v];
    var o := Evaluate(after, v);
    if o == Ongoing {
      OpenAfterOngoing(vals, after, i, v);
    }
  }
}
