// TurnManager: whose turn it is, as one boolean that GetTurn reads and
// flips. Nothing else writes it once the game has started. The ghost
// counter `taken` records how many turns GetTurn has handed out since
// Start.

module Turns {

  /** Whether X holds the turn after `n` turns have been handed out since
      Start: X first, then turn about. */
  ghost function XToMove(n: nat): bool
  {
    if n == 0 then true else !XToMove(n - 1)
  }

  /** X holds the turn exactly after an even number of turns. */
  lemma {:induction false} XToMoveOnEven(n: nat)
    ensures XToMove(n) <==> n % 2 == 0
  {
    if n > 0 {
      XToMoveOnEven(n - 1);
    }
  }

  class TurnManager {
    var xUserTurn: bool
    ghost var taken: nat

    /** The flag is the one X-first alternation calls for after `taken`
        turns. */
    ghost predicate Valid()
      reads this
    {
      xUserTurn == XToMove(taken)
    }

    /** The state after Start: X plays first, no turn handed out yet. */
    constructor ()
      ensures Valid() && xUserTurn && taken == 0
    {
      xUserTurn := true;
      taken := 0;
    }

    /** Returns the turn that held before the call and hands it to the
        other player. It keeps the alternation: from Start on, the n-th turn
        handed out (counting from 0) goes to X exactly when n is even. */
    method GetTurn() returns (turn: bool)
      modifies this
      ensures taken == old(taken) + 1
      ensures turn == old(xUserTurn) && xUserTurn == !old(xUserTurn)
      ensures Valid() == old(Valid())
      ensures old(Valid()) ==> turn == XToMove(old(taken))
    {
      turn := xUserTurn;
      xUserTurn := !xUserTurn;
      taken := taken + 1;
    }
  }

  /** Two turns in a row go to the two players, and leave the flag as it
      was before the first. */
  method GetTurnTwice(t: TurnManager) returns (first: bool, second: bool)
    modifies t
    ensures first == old(t.xUserTurn) && second == !first
    ensures t.xUserTurn == old(t.xUserTurn) && t.taken == old(t.taken) + 2
  {
    first := t.GetTurn();
    second := t.GetTurn();
  }
}
