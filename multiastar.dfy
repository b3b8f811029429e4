/**
 * The multi-heuristic A* agent: a best-first search from the current board
 * over boards with more of the agent's stones, with a frontier ordered by
 * accumulated heuristic cost, a list of visited boards and a budget of
 * expansions; the heuristic changes round-robin from one move to the next.
 */
module MultiAStar {
  import opened Outcomes
  import opened BoardModel
  import opened LineEvaluation
  import opened FiveScan

  /** `QueueNode`: the accumulated cost, the board reached and the moves that reached it. */
  datatype QueueNode = QueueNode(score: int, state: Board, path: seq<Pos>)

  /** The three heuristics of the agent. */
  datatype Heuristic = Heuristic2 | Heuristic3 | Heuristic4

  /** The round-robin list: ten turns of `heuristic_3`, then `heuristic_2` and `heuristic_4`. */
  const Heuristics: seq<Heuristic> := seq(10, _ => Heuristic3) + [Heuristic2, Heuristic4]

  /** The schedule of the list, slot by slot. */
  lemma HeuristicSchedule()
    ensures |Heuristics| == 12
    ensures forall i :: 0 <= i < 10 ==> Heuristics[i] == Heuristic3
    ensures Heuristics[10] == Heuristic2 && Heuristics[11] == Heuristic4
  {
  }

  /** The index after `k` moves of an agent that started at 0. */
  function IndexAfter(k: nat): nat {
    if k == 0 then 0 else (IndexAfter(k - 1) + 1) % 12
  }

  /** The first twelve moves use the twelve slots in order. */
  lemma {:induction false} FirstCycle(k: nat)
    requires k < 12
    ensures IndexAfter(k) == k
  {
    if k > 0 {
      FirstCycle(k - 1);
    }
  }

  /** After twelve moves the index is back where it was. */
  lemma {:induction false} RoundRobin(k: nat)
    ensures IndexAfter(k + 12) == IndexAfter(k)
  {
    if k == 0 {
      FirstCycle(11);
    } else {
      RoundRobin(k - 1);
    }
  }

  /**
   * `heuristic_3`: the score `evaluate_color` gives the opponent's lines,
   * negated when the agent plays white.
   */
  function Heuristic3Value(state: Board, color: Color): int
    requires IsSquare(state)
  {
    var opponent := Opponent(color);
    var blackTotalScore := ColorScore(state, opponent, opponent == color);
    if color == Black then blackTotalScore else -1 * blackTotalScore
  }

  /** The value of one heuristic for `color` on `state`. */
  ghost function Cost(h: Heuristic, state: Board, color: Color): int
    requires IsSquare(state)
  {
    match h
    case Heuristic3 => Heuristic3Value(state, color)
    case Heuristic2 =>
      var opponent := Opponent(color);
      if HasFive(state, Stone(opponent)) then 100000 else Heuristic3Value(state, opponent)
    case Heuristic4 => if HasFive(state, Stone(color)) then 100000 else Heuristic3Value(state, color)
  }

  /**
   * For black the cost of a board grows with white's score; for white it
   * falls as black's score grows, so the search favours boards where black
   * is strong.
   */
  lemma Heuristic3Order(s1: Board, s2: Board, color: Color)
    requires IsSquare(s1) && IsSquare(s2)
    ensures var o := Opponent(color);
      color == Black ==>
        (Heuristic3Value(s1, color) < Heuristic3Value(s2, color) <==> ColorScore(s1, o, false) < ColorScore(s2, o, false))
    ensures var o := Opponent(color);
      color == White ==>
        (Heuristic3Value(s1, color) < Heuristic3Value(s2, color) <==> ColorScore(s1, o, false) > ColorScore(s2, o, false))
  {
  }

  /** `heuristic_3` is never negative for black and never positive for white, and 0 without opponent stones. */
  lemma Heuristic3Signs(state: Board, color: Color)
    requires IsSquare(state)
    ensures color == Black ==> Heuristic3Value(state, color) >= 0
    ensures color == White ==> Heuristic3Value(state, color) <= 0
    ensures Absent(state, Opponent(color)) ==> Heuristic3Value(state, color) == 0
  {
    ColorScoreNonNegative(state, Opponent(color), false);
    if Absent(state, Opponent(color)) {
      ColorScoreAbsent(state, Opponent(color), false);
    }
  }

  /** `is_goal_state`: five of `player` in a row, column or diagonal. */
  method IsGoalState(b: Board, player: Color) returns (goal: bool)
    requires IsSquare(b)
    ensures goal <==> HasFive(b, Stone(player))
  {
    goal := ScanForFive(b, Stone(player));
  }

  /** The heuristic `h` applied to `state`, as the search calls it. */
  method HeuristicCost(h: Heuristic, state: Board, color: Color) returns (v: int)
    requires IsSquare(state)
    ensures v == Cost(h, state, color)
  {
    match h
    case Heuristic3 =>
      v := Heuristic3Value(state, color);
    case Heuristic2 =>
      var opponent := if color == White then Black else White;
      var won := IsGoalState(state, opponent);
      v := if won then 100000 else Heuristic3Value(state, opponent);
    case Heuristic4 =>
      var won := IsGoalState(state, color);
      v := if won then 100000 else Heuristic3Value(state, color);
  }

  /** The board after stones `t` have been placed on the cells of `path` in order. */
  function PlayAll(b: Board, path: seq<Pos>, t: Cell): (r: Board)
    ensures |r| == |b| && (IsSquare(b) ==> IsSquare(r))
    decreases |path|
  {
    if path == [] then b else Place(PlayAll(b, path[..|path| - 1], t), path[|path| - 1], t)
  }

  /** Every cell of `path` is empty when its stone is placed. */
  predicate LegalPath(b: Board, path: seq<Pos>, t: Cell)
    decreases |path|
  {
    path == [] ||
    (LegalPath(b, path[..|path| - 1], t) && IsEmptyAt(PlayAll(b, path[..|path| - 1], t), path[|path| - 1]))
  }

  /** The first move of a legal path is an empty cell of the start board. */
  lemma {:induction false} FirstMoveIsEmpty(b: Board, path: seq<Pos>, t: Cell)
    requires LegalPath(b, path, t) && path != []
    ensures IsEmptyAt(b, path[0])
    decreases |path|
  {
    var prefix := path[..|path| - 1];
    if prefix != [] {
      assert prefix[0] == path[0];
      FirstMoveIsEmpty(b, prefix, t);
    }
  }

  /** The sum of the heuristic over the boards along `path`, first move first. */
  ghost function PathCost(b: Board, path: seq<Pos>, h: Heuristic, player: Color): int
    requires IsSquare(b)
    decreases |path|
  {
    if path == [] then 0
    else PathCost(b, path[..|path| - 1], h, player) + Cost(h, PlayAll(b, path, Stone(player)), player)
  }

  /** A frontier node: its board is reached from the start by its legal path, at the cost of that path. */
  ghost predicate Reached(start: Board, player: Color, h: Heuristic, n: QueueNode)
    requires IsSquare(start)
  {
    n.state == PlayAll(start, n.path, Stone(player)) && LegalPath(start, n.path, Stone(player)) &&
    n.score == PathCost(start, n.path, h, player)
  }

  /**
   * `get_successors`: for each empty cell in row-major order, a copy of the
   * board with `player`'s stone there, paired with the cell. The cost the
   * source attaches to each is not used by the search and is left out.
   */
  method GetSuccessors(board: Board, player: Color) returns (successors: seq<(Board, Pos)>)
    requires IsSquare(board) && |board| > 0 && !HasFive(board, Stone(player))
    ensures |successors| == |EmptyCells(board)|
    ensures forall i :: 0 <= i < |successors| ==>
      successors[i].1 == EmptyCells(board)[i] && successors[i].0 == Place(board, successors[i].1, Stone(player))
  {
    successors := [];
    ghost var moves: seq<Pos> := [];
    var rows := |board|;
    var cols := |board[0]|;
    for r := 0 to rows
      invariant moves == Scan(rows, EmptyTest(board), r, 0) && |successors| == |moves|
      invariant forall i :: 0 <= i < |successors| ==>
        successors[i].1 == moves[i] && successors[i].0 == Place(board, moves[i], Stone(player))
    {
      for c := 0 to cols
        invariant moves == Scan(rows, EmptyTest(board), r, c) && |successors| == |moves|
        invariant forall i :: 0 <= i < |successors| ==>
          successors[i].1 == moves[i] && successors[i].0 == Place(board, moves[i], Stone(player))
      {
        if board[r][c] == Empty {
          var newBoard := board[r := board[r][c := Stone(player)]];
          successors := successors + [(newBoard, Pos(r, c))];
          moves := moves + [Pos(r, c)];
        }
      }
    }
  }

  /** `heapq.heappop`: a node of least score is taken out, the others stay. */
  method PopMin(frontier: seq<QueueNode>) returns (node: QueueNode, rest: seq<QueueNode>)
    requires frontier != []
    ensures multiset(frontier) == multiset(rest) + multiset{node} && |rest| == |frontier| - 1
    ensures forall k :: 0 <= k < |frontier| ==> node.score <= frontier[k].score
    ensures node in frontier && forall n :: n in rest ==> n in frontier
    ensures forall n :: n in frontier ==> n in rest || n == node
  {
    var best := 0;
    for k := 1 to |frontier|
      invariant 0 <= best < |frontier|
      invariant forall j :: 0 <= j < k ==> frontier[best].score <= frontier[j].score
    {
      if frontier[k].score < frontier[best].score {
        best := k;
      }
    }
    node := frontier[best];
    rest := frontier[..best] + frontier[best + 1..];
    assert frontier == frontier[..best] + [node] + frontier[best + 1..];
    assert forall n :: n in rest ==> n in frontier;
  }

  /** One successor node: the parent's path and cost extended by one legal move. */
  method Extend(board: Board, player: Color, heuristic: Heuristic, cur: QueueNode, action: Pos)
    returns (child: QueueNode)
    requires IsSquare(board) && Reached(board, player, heuristic, cur) && IsEmptyAt(cur.state, action)
    ensures Reached(board, player, heuristic, child) && |child.path| == |cur.path| + 1
    ensures child.state == Place(cur.state, action, Stone(player))
  {
    var successor := Place(cur.state, action, Stone(player));
    var newPath := cur.path + [action];
    assert newPath[..|newPath| - 1] == cur.path;
    assert PlayAll(board, newPath, Stone(player)) == successor;
    var h := HeuristicCost(heuristic, successor, player);
    assert PathCost(board, newPath, heuristic, player) == cur.score + h;
    child := QueueNode(cur.score + h, successor, newPath);
  }

  /**
   * The inner loop of `a_star_search`: each successor whose board has not
   * been visited joins the frontier with its path extended by its move and
   * the parent's cost raised by the heuristic of its board.
   */
  method PushSuccessors(board: Board, player: Color, heuristic: Heuristic, cur: QueueNode,
                        successors: seq<(Board, Pos)>, visited: seq<Board>, frontier: seq<QueueNode>)
    returns (result: seq<QueueNode>)
    requires IsSquare(board) && Reached(board, player, heuristic, cur)
    requires |successors| == |EmptyCells(cur.state)|
    requires forall i :: 0 <= i < |successors| ==>
      successors[i].1 == EmptyCells(cur.state)[i] && successors[i].0 == Place(cur.state, successors[i].1, Stone(player))
    ensures successors == [] ==> result == frontier
    ensures forall n :: n in result ==> n in frontier || (Reached(board, player, heuristic, n) && |n.path| == |cur.path| + 1)
    ensures forall n :: n in frontier ==> n in result
    ensures forall i :: 0 <= i < |successors| ==> successors[i].0 in visited || Pending(result, successors[i].0)
  {
    EmptyCellsSpec(cur.state);
    result := frontier;
    for k := 0 to |successors|
      invariant successors == [] ==> result == frontier
      invariant forall n :: n in result ==> n in frontier || (Reached(board, player, heuristic, n) && |n.path| == |cur.path| + 1)
      invariant forall n :: n in frontier ==> n in result
      invariant forall i :: 0 <= i < k ==> successors[i].0 in visited || Pending(result, successors[i].0)
    {
      var (successor, action) := successors[k];
      assert action in EmptyCells(cur.state);
      var before := result;
      result := PushSuccessor(board, player, heuristic, cur, successor, action, visited, result);
      PendingKept(before, result);
    }
  }

  /** One pass of the inner loop: a successor not yet visited joins the frontier. */
  method PushSuccessor(board: Board, player: Color, heuristic: Heuristic, cur: QueueNode,
                       successor: Board, action: Pos, visited: seq<Board>, frontier: seq<QueueNode>)
    returns (result: seq<QueueNode>)
    requires IsSquare(board) && Reached(board, player, heuristic, cur) && IsEmptyAt(cur.state, action)
    requires successor == Place(cur.state, action, Stone(player))
    ensures successor in visited ==> result == frontier
    ensures forall n :: n in result ==> n in frontier || (Reached(board, player, heuristic, n) && |n.path| == |cur.path| + 1)
    ensures forall n :: n in frontier ==> n in result
    ensures successor in visited || Pending(result, successor)
  {
    if successor in visited {
      return frontier;
    }
    var child := Extend(board, player, heuristic, cur, action);
    result := frontier + [child];
    assert child in result && child.state == successor;
  }

  /** A frontier that only grows keeps every waiting board. */
  lemma PendingKept(frontier: seq<QueueNode>, larger: seq<QueueNode>)
    requires forall n :: n in frontier ==> n in larger
    ensures forall x :: Pending(frontier, x) ==> Pending(larger, x)
  {
    forall x | Pending(frontier, x) ensures Pending(larger, x) {
      var n :| n in frontier && n.state == x;
      assert n in larger;
    }
  }

  /** A board still waiting on the frontier. */
  ghost predicate Pending(frontier: seq<QueueNode>, x: Board) {
    exists n :: n in frontier && n.state == x
  }

  /**
   * Every move of `t` from a board of `done` leads to a board of `known` or
   * to one still waiting on the frontier.
   */
  ghost predicate Covered(done: seq<Board>, known: seq<Board>, frontier: seq<QueueNode>, t: Cell) {
    forall s, p :: s in done && p in EmptyCells(s) ==> Place(s, p, t) in known || Pending(frontier, Place(s, p, t))
  }

  /** Popping a node keeps the cover when its board becomes known. */
  lemma CoveredAfterPop(done: seq<Board>, known: seq<Board>, known': seq<Board>,
                        frontier: seq<QueueNode>, cur: QueueNode, rest: seq<QueueNode>, t: Cell)
    requires Covered(done, known, frontier, t)
    requires forall n :: n in frontier ==> n in rest || n == cur
    requires cur.state in known' && forall x :: x in known ==> x in known'
    ensures Covered(done, known', rest, t)
  {
    forall s, p | s in done && p in EmptyCells(s)
      ensures Place(s, p, t) in known' || Pending(rest, Place(s, p, t))
    {
      if Place(s, p, t) !in known {
        var n :| n in frontier && n.state == Place(s, p, t);
        if n != cur {
          assert n in rest;
        }
      }
    }
  }

  /** Expanding a board covers its moves, given its successors are known or pushed. */
  lemma CoveredAfterExpand(done: seq<Board>, known: seq<Board>, rest: seq<QueueNode>, result: seq<QueueNode>,
                           cur: Board, successors: seq<(Board, Pos)>, t: Cell)
    requires Covered(done, known, rest, t)
    requires forall n :: n in rest ==> n in result
    requires |successors| == |EmptyCells(cur)|
    requires forall i :: 0 <= i < |successors| ==>
      successors[i].1 == EmptyCells(cur)[i] && successors[i].0 == Place(cur, successors[i].1, t)
    requires forall i :: 0 <= i < |successors| ==> successors[i].0 in known || Pending(result, successors[i].0)
    ensures Covered(done + [cur], known, result, t)
  {
    forall s, p | s in done + [cur] && p in EmptyCells(s)
      ensures Place(s, p, t) in known || Pending(result, Place(s, p, t))
    {
      if s in done {
        if Place(s, p, t) !in known {
          var n :| n in rest && n.state == Place(s, p, t);
          assert n in result;
        }
      } else {
        var i :| 0 <= i < |EmptyCells(cur)| && EmptyCells(cur)[i] == p;
        assert successors[i].0 == Place(s, p, t);
      }
    }
  }

  /**
   * Boards that hold the start and are closed under the moves of `t` hold
   * every board a legal path of `t` reaches.
   */
  lemma {:induction false} ClosedHoldsReachable(b: Board, path: seq<Pos>, t: Cell, boards: seq<Board>)
    requires IsSquare(b) && b in boards && LegalPath(b, path, t)
    requires forall s, p :: s in boards && p in EmptyCells(s) ==> Place(s, p, t) in boards
    ensures PlayAll(b, path, t) in boards
    decreases |path|
  {
    if path != [] {
      var prefix := path[..|path| - 1];
      ClosedHoldsReachable(b, prefix, t, boards);
      var before := PlayAll(b, prefix, t);
      EmptyCellsSpec(before);
      assert path[|path| - 1] in EmptyCells(before);
    }
  }

  /**
   * A search that ran out of frontier expanded the start and every successor
   * of what it expanded, none of which holds five: no sequence of the
   * player's moves from the start makes five.
   */
  lemma ExhaustedMeansNoFive(b: Board, visited: seq<Board>, t: Cell)
    requires IsSquare(b) && b in visited && Covered(visited, visited, [], t)
    requires forall x :: x in visited ==> !HasFive(x, t)
    ensures forall path :: LegalPath(b, path, t) ==> !HasFive(PlayAll(b, path, t), t)
  {
    forall path | LegalPath(b, path, t) ensures !HasFive(PlayAll(b, path, t), t) {
      ClosedHoldsReachable(b, path, t, visited);
    }
  }

  /**
   * `a_star_search`: pop a cheapest node; answer its path when its board is
   * a goal or the budget is spent; skip boards already visited; otherwise
   * mark it visited, push every successor not yet visited at the parent's
   * cost plus the heuristic of the successor, and spend one unit of budget.
   * `None` when the frontier runs out.
   */
  method AStarSearch(board: Board, player: Color, heuristic: Heuristic, searchDepth: int)
    returns (path: Option<seq<Pos>>, ghost expansions: nat)
    requires IsSquare(board) && |board| > 0 && searchDepth >= 0
    ensures expansions <= searchDepth
    ensures path.Some? ==> |path.value| <= searchDepth && LegalPath(board, path.value, Stone(player))
    ensures path.Some? ==> HasFive(PlayAll(board, path.value, Stone(player)), Stone(player)) || expansions == searchDepth
    ensures path.Some? && path.value == [] <==> HasFive(board, Stone(player)) || searchDepth == 0
    ensures path.None? ==> forall moves :: LegalPath(board, moves, Stone(player)) ==>
      !HasFive(PlayAll(board, moves, Stone(player)), Stone(player))
    ensures IsFull(board) && !HasFive(board, Stone(player)) && searchDepth > 0 ==> path.None?
  {
    var t := Stone(player);
    var start := QueueNode(0, board, []);
    var frontier := [start];
    var visited: seq<Board> := [];
    var budget := searchDepth;
    while frontier != []
      invariant 0 <= budget == searchDepth - |visited|
      invariant forall n :: n in frontier ==> Reached(board, player, heuristic, n) && |n.path| <= |visited|
      invariant forall i, j :: 0 <= i < j < |visited| ==> visited[i] != visited[j]
      invariant visited == [] ==> frontier == [start]
      invariant visited != [] ==> !HasFive(board, t) && searchDepth > 0 && board in visited
      invariant visited != [] ==> forall n :: n in frontier ==> |n.path| >= 1
      invariant visited != [] && IsFull(board) ==> frontier == []
      invariant forall x :: x in visited ==> !HasFive(x, t)
      invariant Covered(visited, visited, frontier, t)
      decreases budget, |frontier|
    {
      var cur, rest := PopMin(frontier);
      var curState, curPath, curCost := cur.state, cur.path, cur.score;
      var goal := IsGoalState(curState, player);
      if goal || budget == 0 {
        return Some(curPath), |visited|;
      }
      if curState in visited {
        CoveredAfterPop(visited, visited, visited, frontier, cur, rest, t);
        frontier := rest;
        continue;
      }
      ghost var first := visited == [];
      ghost var done := visited;
      visited := visited + [curState];
      CoveredAfterPop(done, done, visited, frontier, cur, rest, t);
      var successors := GetSuccessors(curState, player);
      if first {
        NoEmptyCellsIffFull(board);
        assert IsFull(board) ==> successors == [];
      }
      frontier := PushSuccessors(board, player, heuristic, cur, successors, visited, rest);
      CoveredAfterExpand(done, visited, rest, frontier, curState, successors, t);
      budget := budget - 1;
    }
    ExhaustedMeansNoFive(board, visited, t);
    return None, |visited|;
  }

  /** The agent: its colour, its budget and the index of the next heuristic. */
  class MultiAStarAgent {
    const player: Color
    const searchDepth: int
    var currentHeuristic: nat

    ghost predicate Valid()
      reads this
    {
      currentHeuristic < |Heuristics|
    }

    /** `__init__`: the list starts at its first slot. */
    constructor (player: Color, depth: int)
      ensures Valid() && currentHeuristic == 0 && this.player == player && searchDepth == depth
    {
      this.player := player;
      searchDepth := depth;
      currentHeuristic := 0;
    }

    /**
     * `make_move`: search with the current heuristic, advance the index
     * round-robin and answer the first move of the path found. An empty path
     * fails on indexing, and no path at all fails on `None`.
     */
    method MakeMove(board: Board) returns (r: Result<Pos>)
      requires Valid() && IsSquare(board) && |board| > 0 && searchDepth >= 0
      modifies this`currentHeuristic
      ensures Valid() && currentHeuristic == (old(currentHeuristic) + 1) % 12
      ensures r.Ok? ==> IsEmptyAt(board, r.value)
      ensures HasFive(board, Stone(player)) || searchDepth == 0 ==> r == Raised(IndexError("list index out of range"))
      ensures IsFull(board) && !HasFive(board, Stone(player)) && searchDepth > 0 ==> r.Raised?
      ensures r == Raised(TypeError("'NoneType' object is not subscriptable")) ==>
        forall moves :: LegalPath(board, moves, Stone(player)) ==> !HasFive(PlayAll(board, moves, Stone(player)), Stone(player))
    {
      var heuristic := Heuristics[currentHeuristic];
      currentHeuristic := (currentHeuristic + 1) % |Heuristics|;
      var bestMove, expansions := AStarSearch(board, player, heuristic, searchDepth);
      if bestMove.None? {
        return Raised(TypeError("'NoneType' object is not subscriptable"));
      }
      if bestMove.value == [] {
        return Raised(IndexError("list index out of range"));
      }
      FirstMoveIsEmpty(board, bestMove.value, Stone(player));
      return Ok(bestMove.value[0]);
    }
  }
}
