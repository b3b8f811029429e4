/**
 * The whole-board five-in-a-row test that the Q-learning agent (`check_win`)
 * and the multi-heuristic A* agent (`is_goal_state`) both carry, word for
 * word: from every start cell, walk right, down, down-right and down-left
 * when five cells fit, and stop at the first five found.
 */
module FiveScan {
  import opened BoardModel

  /**
   * `has_five_in_a_row`: walk from `start` along `d` while the cells hold `t`,
   * answering as soon as five have been counted.
   */
  method HasFiveInARow(b: Board, start: Pos, d: Dir, t: Cell) returns (found: bool)
    requires IsUnitDir(d)
    ensures found <==> FiveAt(b, start, d, t)
  {
    var count := 0;
    var p := start;
    while OnBoard(b, p) && b[p.row][p.col] == t
      invariant 0 <= count < 5 && p == Along(start, d, count)
      invariant forall i :: 0 <= i < count ==> Matches(b, Along(start, d, i), t)
      decreases 5 - count
    {
      count := count + 1;
      if count == 5 {
        return true;
      }
      AlongAdd(start, d, count - 1, 1);
      NextIsAlong(p, d);
      p := Next(p, d);
    }
    return false;
  }

  /** A five along one of the scanned directions needs room for its last cell. */
  lemma FiveNeedsRoom(b: Board, p: Pos, d: Dir, t: Cell)
    requires IsSquare(b) && IsLineDir(d)
    ensures FiveAt(b, p, d, t) ==> OnBoard(b, p)
    ensures FiveAt(b, p, d, t) && d.dc == 1 ==> p.col <= |b| - 5
    ensures FiveAt(b, p, d, t) && d.dr == 1 ==> p.row <= |b| - 5
    ensures FiveAt(b, p, d, t) && d.dc == -1 ==> p.col >= 4
  {
    if FiveAt(b, p, d, t) {
      assert Matches(b, Along(p, d, 0), t);
      assert Matches(b, Along(p, d, 4), t);
    }
  }

  /** No five starts at `p` in any of the four directions. */
  ghost predicate NoFiveFrom(b: Board, p: Pos, t: Cell) {
    forall d :: IsLineDir(d) ==> !FiveAt(b, p, d, t)
  }

  /** The checks made from one start cell, under the source's room conditions. */
  method FiveFrom(b: Board, row: int, col: int, t: Cell) returns (found: bool)
    requires IsSquare(b)
    ensures found <==> !NoFiveFrom(b, Pos(row, col), t)
  {
    var n := |b|;
    var p := Pos(row, col);
    FiveNeedsRoom(b, p, Dir(0, 1), t);
    FiveNeedsRoom(b, p, Dir(1, 0), t);
    FiveNeedsRoom(b, p, Dir(1, 1), t);
    FiveNeedsRoom(b, p, Dir(1, -1), t);
    found := false;
    if col <= n - 5 {
      found := HasFiveInARow(b, p, Dir(0, 1), t);
      if found {
        return;
      }
    }
    if row <= n - 5 {
      found := HasFiveInARow(b, p, Dir(1, 0), t);
      if found {
        return;
      }
    }
    if row <= n - 5 && col <= n - 5 {
      found := HasFiveInARow(b, p, Dir(1, 1), t);
      if found {
        return;
      }
    }
    if row <= n - 5 && col >= 4 {
      found := HasFiveInARow(b, p, Dir(1, -1), t);
    }
  }

  /**
   * The scan over every start cell: it reports a win exactly when five
   * consecutive cells of some row, column or diagonal hold `t`.
   */
  method ScanForFive(b: Board, t: Cell) returns (won: bool)
    requires IsSquare(b)
    ensures won <==> HasFive(b, t)
  {
    var boardSize := |b|;
    for row := 0 to boardSize
      invariant forall r, c :: 0 <= r < row && 0 <= c < boardSize ==> NoFiveFrom(b, Pos(r, c), t)
    {
      for col := 0 to boardSize
        invariant forall r, c :: 0 <= c < boardSize && (0 <= r < row || (r == row && c < col)) ==>
          NoFiveFrom(b, Pos(r, c), t)
      {
        var found := FiveFrom(b, row, col, t);
        if found {
          return true;
        }
      }
    }
    forall r, c, d | IsLineDir(d) ensures !FiveAt(b, Pos(r, c), d, t) {
      FiveNeedsRoom(b, Pos(r, c), d, t);
    }
    return false;
  }
}
