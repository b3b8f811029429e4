/**
 * The random agent: it lists the empty cells in row-major order and picks one
 * of them, or answers `None` when the board is full.
 */
module RandomAgent {
  import opened Outcomes
  import opened BoardModel

  /** What `get_type` answers. */
  const TypeName := "Random"

  /**
   * `RandomAgent.make_move`. The draw of `random.choice` is the oracle `pick`:
   * any index into the list of empty cells can be reached.
   */
  function MakeMove(b: Board, pick: nat): Option<Pos> {
    var validMoves := EmptyCells(b);
    if validMoves != [] then Some(validMoves[pick % |validMoves|]) else None
  }

  /** The agent passes exactly when no cell is empty. */
  lemma PassesOnlyWhenFull(b: Board, pick: nat)
    requires IsSquare(b)
    ensures MakeMove(b, pick) == None <==> IsFull(b)
  {
    NoEmptyCellsIffFull(b);
  }

  /** A returned move is an empty cell on the board, and every empty cell is a possible answer. */
  lemma MovesAreEmptyCells(b: Board, pick: nat)
    requires IsSquare(b)
    ensures MakeMove(b, pick).Some? ==> IsEmptyAt(b, MakeMove(b, pick).value)
    ensures forall p :: IsEmptyAt(b, p) ==> exists k: nat :: MakeMove(b, k) == Some(p)
  {
    EmptyCellsSpec(b);
    forall p | IsEmptyAt(b, p) ensures exists k: nat :: MakeMove(b, k) == Some(p) {
      var moves := EmptyCells(b);
      var k :| 0 <= k < |moves| && moves[k] == p;
      SmallRemainder(k, |moves|);
      assert MakeMove(b, k) == Some(p);
    }
  }

  /** A draw below the number of choices picks that choice itself. */
  lemma SmallRemainder(k: nat, n: nat)
    requires k < n
    ensures k % n == k
  {
  }
}
