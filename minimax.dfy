/**
 * The depth-limited minimax agent: from the current board it tries every
 * empty cell in row-major order on a copy of the board, its own stone on
 * its plies and the opponent's on the others, scores the leaves with the
 * static line evaluation, and keeps the first move of best score.
 */
module Minimax {
  import opened Outcomes
  import opened BoardModel
  import opened LineEvaluation
  import opened FiveScan

  /** What `minimax` answers: a score and the move that reaches it. */
  datatype Scored = Scored(score: int, move: Pos)

  /** The `(-1, -1)` of a leaf. */
  const NoMove := Pos(-1, -1)

  /** The stone placed on a ply: the agent's own on a maximising ply, the opponent's otherwise. */
  function PlyStone(color: Color, maximizing: bool): Cell {
    Stone(if maximizing then color else Opponent(color))
  }

  /** A stone on an empty cell leaves one empty cell fewer. */
  lemma StoneUsesEmptyCell(b: Board, k: nat, t: Cell)
    requires IsSquare(b) && k < |EmptyCells(b)| && t != Empty
    ensures IsEmptyAt(b, EmptyCells(b)[k])
    ensures CountCells(Place(b, EmptyCells(b)[k], t), Empty) == CountCells(b, Empty) - 1
  {
    EmptyCellsSpec(b);
    assert EmptyCells(b)[k] in EmptyCells(b);
    CountAfterPlace(b, EmptyCells(b)[k], t, Empty);
  }

  /**
   * The loop of `max_evaluation` and `min_evaluation` over the children in
   * order: a strictly better score replaces the one held, so ties keep the
   * earliest move; `None` stands for the infinite start value.
   */
  function Pick(scores: seq<int>, moves: seq<Pos>, maximizing: bool): (r: Option<Scored>)
    requires |scores| == |moves|
    ensures r.Some? <==> moves != []
    ensures r.Some? ==> r.value.move in moves
    decreases |moves|
  {
    if moves == [] then None
    else
      var k := |moves| - 1;
      var prev := Pick(scores[..k], moves[..k], maximizing);
      if prev.None? || (maximizing && scores[k] > prev.value.score) || (!maximizing && scores[k] < prev.value.score)
      then Some(Scored(scores[k], moves[k]))
      else prev
  }

  /** One more child: the fold compares the `k`-th with the best of those before it. */
  lemma PickStep(scores: seq<int>, moves: seq<Pos>, k: nat, s: int, maximizing: bool)
    requires |scores| == k < |moves|
    ensures var prev := Pick(scores, moves[..k], maximizing);
      Pick(scores + [s], moves[..k + 1], maximizing) ==
        if prev.None? || (maximizing && s > prev.value.score) || (!maximizing && s < prev.value.score)
        then Some(Scored(s, moves[k]))
        else prev
  {
    assert (scores + [s])[..k] == scores;
    assert moves[..k + 1][..k] == moves[..k];
  }

  /**
   * The fold answers the largest score (the smallest when minimising) at
   * the first position that holds it.
   */
  lemma {:induction false} PickFirstBest(scores: seq<int>, moves: seq<Pos>, maximizing: bool) returns (j: nat)
    requires |scores| == |moves| && moves != []
    ensures var r := Pick(scores, moves, maximizing).value;
      j < |moves| && moves[j] == r.move && scores[j] == r.score
    ensures var r := Pick(scores, moves, maximizing).value;
      forall i :: 0 <= i < |scores| ==> if maximizing then scores[i] <= r.score else scores[i] >= r.score
    ensures var r := Pick(scores, moves, maximizing).value;
      forall i :: 0 <= i < j ==> if maximizing then scores[i] < r.score else scores[i] > r.score
    decreases |moves|
  {
    var k := |moves| - 1;
    if k == 0 {
      j := 0;
    } else {
      j := PickFirstBest(scores[..k], moves[..k], maximizing);
      var prev := Pick(scores[..k], moves[..k], maximizing).value;
      if (maximizing && scores[k] > prev.score) || (!maximizing && scores[k] < prev.score) {
        j := k;
      }
    }
  }

  /**
   * The value of `minimax(depth, b, maximizing)` for an agent of colour
   * `color` searching to `limit`: a leaf is scored by `evaluation_state`,
   * any other board by the fold over its children. Every ply fills one cell,
   * so the recursion ends even when `limit` is never reached.
   */
  function Value(limit: int, depth: int, b: Board, color: Color, maximizing: bool): Scored
    requires IsSquare(b)
    decreases CountCells(b, Empty), 2, 0
  {
    var moves := EmptyCells(b);
    if depth == limit || moves == [] then Scored(EvaluationState(b, color), NoMove)
    else Pick(ScoresUpTo(limit, depth, b, color, maximizing, |moves|), moves, maximizing).value
  }

  /** The value of the child reached by the `k`-th empty cell. */
  function ChildValue(limit: int, depth: int, b: Board, color: Color, maximizing: bool, k: nat): Scored
    requires IsSquare(b) && k < |EmptyCells(b)|
    decreases CountCells(b, Empty), 0, 0
  {
    var t := PlyStone(color, maximizing);
    StoneUsesEmptyCell(b, k, t);
    PlaceKeepsSquare(b, EmptyCells(b)[k], t);
    Value(limit, depth + 1, Place(b, EmptyCells(b)[k], t), color, !maximizing)
  }

  /** The scores of the first `k` children, in row-major order of their moves. */
  function ScoresUpTo(limit: int, depth: int, b: Board, color: Color, maximizing: bool, k: nat): (s: seq<int>)
    requires IsSquare(b) && k <= |EmptyCells(b)|
    ensures |s| == k
    decreases CountCells(b, Empty), 1, k
  {
    if k == 0 then []
    else ScoresUpTo(limit, depth, b, color, maximizing, k - 1) + [ChildValue(limit, depth, b, color, maximizing, k - 1).score]
  }

  /** One child more: its score is appended. */
  lemma ScoresStep(limit: int, depth: int, b: Board, color: Color, maximizing: bool, k: nat)
    requires IsSquare(b) && k < |EmptyCells(b)|
    ensures ScoresUpTo(limit, depth, b, color, maximizing, k + 1) ==
      ScoresUpTo(limit, depth, b, color, maximizing, k) + [ChildValue(limit, depth, b, color, maximizing, k).score]
  {
  }

  /** The `i`-th collected score is the value of the `i`-th child. */
  lemma {:induction false} ScoresUpToAt(limit: int, depth: int, b: Board, color: Color, maximizing: bool, k: nat)
    requires IsSquare(b) && k <= |EmptyCells(b)|
    ensures forall i :: 0 <= i < k ==>
      ScoresUpTo(limit, depth, b, color, maximizing, k)[i] == ChildValue(limit, depth, b, color, maximizing, i).score
  {
    forall i | 0 <= i < k
      ensures ScoresUpTo(limit, depth, b, color, maximizing, k)[i] == ChildValue(limit, depth, b, color, maximizing, i).score
    {
      ScoreAt(limit, depth, b, color, maximizing, k, i);
    }
  }

  /** One collected score at a time: later children leave earlier scores in place. */
  lemma {:induction false} ScoreAt(limit: int, depth: int, b: Board, color: Color, maximizing: bool, k: nat, i: nat)
    requires IsSquare(b) && i < k <= |EmptyCells(b)|
    ensures ScoresUpTo(limit, depth, b, color, maximizing, k)[i] == ChildValue(limit, depth, b, color, maximizing, i).score
  {
    var earlier := ScoresUpTo(limit, depth, b, color, maximizing, k - 1);
    if i < k - 1 {
      ScoreAt(limit, depth, b, color, maximizing, k - 1, i);
      assert ScoresUpTo(limit, depth, b, color, maximizing, k)[i] == earlier[i];
    }
  }

  /**
   * Away from the leaves, a maximising ply answers the largest child score
   * and a minimising ply the smallest, each with the first move in
   * row-major order whose child reaches it.
   */
  lemma PlyValue(limit: int, depth: int, b: Board, color: Color, maximizing: bool) returns (j: nat)
    requires IsSquare(b) && depth != limit && EmptyCells(b) != []
    ensures var v := Value(limit, depth, b, color, maximizing);
      j < |EmptyCells(b)| && v.move == EmptyCells(b)[j] && v.score == ChildValue(limit, depth, b, color, maximizing, j).score
    ensures var v := Value(limit, depth, b, color, maximizing);
      forall i :: 0 <= i < |EmptyCells(b)| ==>
        var c := ChildValue(limit, depth, b, color, maximizing, i).score;
        if maximizing then c <= v.score else c >= v.score
    ensures var v := Value(limit, depth, b, color, maximizing);
      forall i :: 0 <= i < j ==>
        var c := ChildValue(limit, depth, b, color, maximizing, i).score;
        if maximizing then c < v.score else c > v.score
  {
    var moves := EmptyCells(b);
    var scores := ScoresUpTo(limit, depth, b, color, maximizing, |moves|);
    j := PickFirstBest(scores, moves, maximizing);
    ScoresUpToAt(limit, depth, b, color, maximizing, |moves|);
  }

  /**
   * The answer of `minimax`: a leaf answers the static score and `(-1, -1)`;
   * any other board answers an empty cell of that board.
   */
  lemma ValueMove(limit: int, depth: int, b: Board, color: Color, maximizing: bool)
    requires IsSquare(b)
    ensures var v := Value(limit, depth, b, color, maximizing);
      (depth == limit || IsFull(b)) ==> v == Scored(EvaluationState(b, color), NoMove)
    ensures var v := Value(limit, depth, b, color, maximizing);
      !(depth == limit || IsFull(b)) ==> IsEmptyAt(b, v.move)
  {
    NoEmptyCellsIffFull(b);
    EmptyCellsSpec(b);
    var moves := EmptyCells(b);
  }

  /** The cells of a board held in place, as `_apply_move` and `_undo_move` see it. */
  function Contents(a: array2<Cell>): (b: Board)
    reads a
    ensures |b| == a.Length0 && forall i :: 0 <= i < |b| ==> |b[i]| == a.Length1
    ensures forall i, j :: 0 <= i < a.Length0 && 0 <= j < a.Length1 ==> b[i][j] == a[i, j]
  {
    seq(a.Length0, i requires 0 <= i < a.Length0 reads a => seq(a.Length1, j requires 0 <= j < a.Length1 reads a => a[i, j]))
  }

  /** `_apply_move`: the stone is written into the board in place. */
  method ApplyMove(board: array2<Cell>, move: Pos, symbol: Cell)
    requires 0 <= move.row < board.Length0 && 0 <= move.col < board.Length1
    modifies board
    ensures Contents(board) == Place(old(Contents(board)), move, symbol)
  {
    ghost var before := Contents(board);
    board[move.row, move.col] := symbol;
    ghost var expected := Place(before, move, symbol);
    forall i | 0 <= i < board.Length0
      ensures Contents(board)[i] == expected[i]
    {
      assert forall j :: 0 <= j < board.Length1 ==> Contents(board)[i][j] == expected[i][j];
    }
  }

  /** `_undo_move`: the cell is emptied in place. */
  method UndoMove(board: array2<Cell>, move: Pos)
    requires 0 <= move.row < board.Length0 && 0 <= move.col < board.Length1
    modifies board
    ensures Contents(board) == Place(old(Contents(board)), move, Empty)
  {
    ghost var before := Contents(board);
    board[move.row, move.col] := Empty;
    ghost var expected := Place(before, move, Empty);
    forall i | 0 <= i < board.Length0
      ensures Contents(board)[i] == expected[i]
    {
      assert forall j :: 0 <= j < board.Length1 ==> Contents(board)[i][j] == expected[i][j];
    }
  }

  /** Undoing a move made on an empty cell gives back the board as it was. */
  lemma UndoAfterApply(b: Board, move: Pos, symbol: Cell)
    requires IsEmptyAt(b, move)
    ensures Place(Place(b, move, symbol), move, Empty) == b
  {
    var r := Place(Place(b, move, symbol), move, Empty);
    assert r[move.row] == b[move.row];
  }

  /**
   * `check_line` inside `_is_winner`: up to five steps from `(r, c)` along
   * `(dr, dc)`, stopping at the first cell off the board or not `symbol`.
   */
  method CheckLine(b: Board, r: int, c: int, dr: int, dc: int, symbol: Cell) returns (five: bool)
    requires IsSquare(b) && IsUnitDir(Dir(dr, dc))
    ensures five <==> FiveAt(b, Pos(r, c), Dir(dr, dc), symbol)
  {
    var count := 0;
    for i := 0 to 5
      invariant count == i
      invariant forall k :: 0 <= k < i ==> Matches(b, Along(Pos(r, c), Dir(dr, dc), k), symbol)
    {
      var nr := r + i * dr;
      var nc := c + i * dc;
      ScaledStep(Pos(r, c), Dir(dr, dc), i);
      if 0 <= nr < |b| && 0 <= nc < |b| && b[nr][nc] == symbol {
        count := count + 1;
      } else {
        break;
      }
    }
    five := count == 5;
  }

  /** `_is_winner`: from every cell holding `symbol`, the four line checks. */
  method IsWinner(b: Board, symbol: Cell) returns (won: bool)
    requires IsSquare(b)
    ensures won <==> HasFive(b, symbol)
  {
    var n := |b|;
    for r := 0 to n
      invariant forall i, j :: 0 <= i < r && 0 <= j < n ==> NoFiveFrom(b, Pos(i, j), symbol)
    {
      for c := 0 to n
        invariant forall i, j :: 0 <= j < n && (0 <= i < r || (i == r && j < c)) ==> NoFiveFrom(b, Pos(i, j), symbol)
      {
        if b[r][c] == symbol {
          var right := CheckLine(b, r, c, 0, 1, symbol);
          var down := CheckLine(b, r, c, 1, 0, symbol);
          var downRight := CheckLine(b, r, c, 1, 1, symbol);
          var downLeft := CheckLine(b, r, c, 1, -1, symbol);
          if right || down || downRight || downLeft {
            assert right ==> IsLineDir(Dir(0, 1)) && FiveAt(b, Pos(r, c), Dir(0, 1), symbol);
            assert down ==> IsLineDir(Dir(1, 0)) && FiveAt(b, Pos(r, c), Dir(1, 0), symbol);
            assert downRight ==> IsLineDir(Dir(1, 1)) && FiveAt(b, Pos(r, c), Dir(1, 1), symbol);
            assert downLeft ==> IsLineDir(Dir(1, -1)) && FiveAt(b, Pos(r, c), Dir(1, -1), symbol);
            return true;
          }
        } else {
          forall d | IsLineDir(d)
            ensures !FiveAt(b, Pos(r, c), d, symbol)
          {
            assert Along(Pos(r, c), d, 0) == Pos(r, c);
          }
        }
      }
    }
    forall i, j, d | IsLineDir(d)
      ensures !FiveAt(b, Pos(i, j), d, symbol)
    {
      FiveNeedsRoom(b, Pos(i, j), d, symbol);
    }
    return false;
  }

  /** `is_free`: the place is on the board and empty. */
  function IsFree(b: Board, place: Pos): (free: bool)
    requires IsSquare(b)
    ensures free <==> place in EmptyCells(b)
  {
    EmptyCellsSpec(b);
    var i := place.row;
    var j := place.col;
    0 <= i < |b| && 0 <= j < |b| && b[i][j] == Empty
  }

  /** The agent: its colour and the depth its search stops at. */
  class MinimaxAgent {
    const depth: int
    const color: Color

    /** `__init__`, whose depth defaults to 1. */
    constructor (color: Color, depth: int)
      ensures this.color == color && this.depth == depth
    {
      this.color := color;
      this.depth := depth;
    }

    /** `evaluation_function`: the static score for the agent's colour. */
    function Evaluation(b: Board): int
      requires IsSquare(b)
    {
      EvaluationState(b, color)
    }

    /** `minimax`: a leaf at the depth limit or on a full board, else a max or min ply. */
    method Search(d: int, board: Board, maximizing: bool) returns (r: Scored)
      requires IsSquare(board)
      ensures r == Value(depth, d, board, color, maximizing)
      decreases CountCells(board, Empty), 2, 0
    {
      var legalMoves := EmptyCells(board);
      if d == depth || |legalMoves| == 0 {
        return Scored(Evaluation(board), NoMove);
      }
      if maximizing {
        r := MaxEvaluation(d, board, legalMoves);
      } else {
        r := MinEvaluation(d, board, legalMoves);
      }
    }

    /**
     * The body of the loops of `max_evaluation` and `min_evaluation`: a row
     * copy of the board with the ply's stone on the `k`-th empty cell,
     * searched one level deeper by the other side.
     */
    method ChildRun(d: int, board: Board, k: nat, maximizing: bool) returns (actionRun: Scored)
      requires IsSquare(board) && k < |EmptyCells(board)|
      ensures actionRun == ChildValue(depth, d, board, color, maximizing, k)
      decreases CountCells(board, Empty), 0, 0
    {
      var action := EmptyCells(board)[k];
      var stone := if maximizing then color else (if color == Black then White else Black);
      StoneUsesEmptyCell(board, k, Stone(stone));
      PlaceKeepsSquare(board, action, Stone(stone));
      var boardCopy := Place(board, action, Stone(stone));
      actionRun := Search(d + 1, boardCopy, !maximizing);
    }

    /**
     * `max_evaluation`: each move on a fresh copy of the board with the
     * agent's stone; a child that scores strictly higher replaces the best.
     */
    method MaxEvaluation(d: int, board: Board, legalMoves: seq<Pos>) returns (r: Scored)
      requires IsSquare(board) && legalMoves == EmptyCells(board) && legalMoves != []
      ensures Some(r) == Pick(ScoresUpTo(depth, d, board, color, true, |legalMoves|), legalMoves, true)
      decreases CountCells(board, Empty), 1, 0
    {
      var maxEval: Option<int> := None;
      var maxAction := NoMove;
      ghost var scores: seq<int> := [];
      for k := 0 to |legalMoves|
        invariant scores == ScoresUpTo(depth, d, board, color, true, k)
        invariant k == 0 ==> maxEval.None?
        invariant k > 0 ==> maxEval.Some? && Pick(scores, legalMoves[..k], true) == Some(Scored(maxEval.value, maxAction))
      {
        var action := legalMoves[k];
        var actionRun := ChildRun(d, board, k, true);
        PickStep(scores, legalMoves, k, actionRun.score, true);
        ScoresStep(depth, d, board, color, true, k);
        scores := scores + [actionRun.score];
        if maxEval.None? || actionRun.score > maxEval.value {
          maxEval := Some(actionRun.score);
          maxAction := action;
        }
      }
      assert legalMoves[..|legalMoves|] == legalMoves;
      r := Scored(maxEval.value, maxAction);
    }

    /**
     * `min_evaluation`: each move on a fresh copy of the board with the
     * opponent's stone; a child that scores strictly lower replaces the best.
     */
    method MinEvaluation(d: int, board: Board, legalMoves: seq<Pos>) returns (r: Scored)
      requires IsSquare(board) && legalMoves == EmptyCells(board) && legalMoves != []
      ensures Some(r) == Pick(ScoresUpTo(depth, d, board, color, false, |legalMoves|), legalMoves, false)
      decreases CountCells(board, Empty), 1, 0
    {
      var minEval: Option<int> := None;
      var minAction := NoMove;
      ghost var scores: seq<int> := [];
      for k := 0 to |legalMoves|
        invariant scores == ScoresUpTo(depth, d, board, color, false, k)
        invariant k == 0 ==> minEval.None?
        invariant k > 0 ==> minEval.Some? && Pick(scores, legalMoves[..k], false) == Some(Scored(minEval.value, minAction))
      {
        var action := legalMoves[k];
        var actionRun := ChildRun(d, board, k, false);
        PickStep(scores, legalMoves, k, actionRun.score, false);
        ScoresStep(depth, d, board, color, false, k);
        scores := scores + [actionRun.score];
        if minEval.None? || actionRun.score < minEval.value {
          minEval := Some(actionRun.score);
          minAction := action;
        }
      }
      assert legalMoves[..|legalMoves|] == legalMoves;
      r := Scored(minEval.value, minAction);
    }

    /**
     * `make_move`: the move of a maximising search from depth 0; an empty
     * cell, unless the depth limit is 0 or the board is full, where it is
     * `(-1, -1)`.
     */
    method MakeMove(board: Board) returns (move: Pos)
      requires IsSquare(board)
      ensures move == Value(depth, 0, board, color, true).move
      ensures depth == 0 || IsFull(board) ==> move == NoMove
      ensures depth != 0 && !IsFull(board) ==> IsEmptyAt(board, move)
    {
      var result := Search(0, board, true);
      ValueMove(depth, 0, board, color, true);
      move := result.move;
    }
  }
}
