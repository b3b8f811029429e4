/**
 * The Monte Carlo tree search agent. Its tree of `MCTSNode`s is kept as one
 * list of nodes in which a node names its parent and children by their
 * positions; a node's board is its parent's board with the parent's player's
 * stone on the node's move. Each simulation selects a leaf by UCB1, expands
 * one untried move, plays a short random game from there and adds the
 * evaluation of the final board to every node on the way back to the root.
 */
module Mcts {
  import opened Outcomes
  import opened BoardModel
  import opened LineEvaluation
  import opened CandidateMoves
  import Game

  /** What `get_type` answers. */
  const TypeName := "MCTS"

  /** One `MCTSNode`; `parent` and `children` are positions in the tree's node list. */
  datatype Node = Node(
    board: Board,
    currentPlayer: Color,
    parent: Option<nat>,
    move: Option<Pos>,
    children: seq<nat>,
    visits: nat,
    totalScore: int,
    untriedMoves: seq<Pos>)

  /**
   * The UCB1 key `total_score / visits + weight * sqrt(log(parent visits) / visits)`
   * of a child, given the weight, the child's total score, the child's visits
   * and its parent's visits. Square root and logarithm are floating point in
   * the source, so the key is a parameter here.
   */
  type Ucb = (real, int, nat, nat) -> real

  /**
   * `_make_move_on_board`: an empty cell takes the stone; an occupied cell is
   * left as it was.
   */
  function MakeMoveOnBoard(b: Board, row: int, col: int, color: Color): (r: Board)
    requires 0 <= row < |b| && 0 <= col < |b[row]|
    ensures |r| == |b| && forall i :: 0 <= i < |b| ==> |r[i]| == |b[i]|
    ensures r[row][col] == if b[row][col] == Empty then Stone(color) else b[row][col]
    ensures forall q :: OnBoard(b, q) && q != Pos(row, col) ==> r[q.row][q.col] == b[q.row][q.col]
  {
    if b[row][col] == Empty then Place(b, Pos(row, col), Stone(color)) else b
  }

  /** Once a cell holds a stone, a second move on it changes nothing. */
  lemma SecondMoveIgnored(b: Board, row: int, col: int, x: Color, y: Color)
    requires 0 <= row < |b| && 0 <= col < |b[row]|
    ensures MakeMoveOnBoard(MakeMoveOnBoard(b, row, col, x), row, col, y) == MakeMoveOnBoard(b, row, col, x)
  {
  }

  /**
   * `_check_win_on_board`: from the cell, count the stones of `color` on both
   * sides, at most four each way, along the four directions; a count of five
   * or more wins.
   */
  method CheckWinOnBoard(b: Board, row: int, col: int, color: Color) returns (won: bool)
    requires IsSquare(b) && OnBoard(b, Pos(row, col))
    ensures won <==> WinThrough(b, Pos(row, col), Stone(color))
  {
    var directions := [Dir(1, 0), Dir(0, 1), Dir(1, 1), Dir(1, -1)];
    var p := Pos(row, col);
    for t := 0 to |directions|
      invariant forall s :: 0 <= s < t ==> LineCount(b, p, directions[s], Stone(color)) < 5
    {
      var count := Game.CountThrough(b, p, directions[t], Stone(color));
      if count >= 5 {
        assert IsLineDir(directions[t]);
        return true;
      }
    }
    forall d | IsLineDir(d) ensures LineCount(b, p, d, Stone(color)) < 5 {
      assert d == directions[0] || d == directions[1] || d == directions[2] || d == directions[3];
    }
    return false;
  }

  /** `find_legal_moves_all_board`: every empty cell, in row-major order. */
  method FindLegalMovesAllBoard(b: Board) returns (legalMoves: seq<Pos>)
    requires IsSquare(b)
    ensures legalMoves == EmptyCells(b)
    ensures forall p :: p in legalMoves <==> IsEmptyAt(b, p)
  {
    legalMoves := [];
    var rows := |b|;
    for r := 0 to rows
      invariant legalMoves == Scan(rows, EmptyTest(b), r, 0)
    {
      var cols := |b[0]|;
      for c := 0 to cols
        invariant legalMoves == Scan(rows, EmptyTest(b), r, c)
      {
        if b[r][c] == Empty {
          legalMoves := legalMoves + [Pos(r, c)];
        }
      }
    }
    EmptyCellsSpec(b);
  }

  /** `max` with a key: the first position holding the largest key. */
  function FirstMax(keys: seq<real>): (m: nat)
    requires keys != []
    ensures m < |keys|
    ensures forall j :: 0 <= j < |keys| ==> keys[j] <= keys[m]
    ensures forall j :: 0 <= j < m ==> keys[j] < keys[m]
  {
    if |keys| == 1 then 0
    else
      var m := FirstMax(keys[..|keys| - 1]);
      if keys[|keys| - 1] > keys[m] then |keys| - 1 else m
  }

  /** The UCB1 key of child `c` of node `i`. */
  function UcbKey(ns: seq<Node>, i: nat, c: nat, weight: real, ucb: Ucb): real
    requires i < |ns| && c < |ns|
  {
    ucb(weight, ns[c].totalScore, ns[c].visits, ns[i].visits)
  }

  /** The UCB1 keys of the children of node `i`, in the children's order. */
  function ChildKeys(ns: seq<Node>, i: nat, weight: real, ucb: Ucb): (keys: seq<real>)
    requires i < |ns| && forall k :: 0 <= k < |ns[i].children| ==> ns[i].children[k] < |ns|
    ensures |keys| == |ns[i].children|
    ensures forall k :: 0 <= k < |keys| ==> keys[k] == UcbKey(ns, i, ns[i].children[k], weight, ucb)
  {
    var kids := ns[i].children;
    seq(|kids|, k requires 0 <= k < |kids| => UcbKey(ns, i, kids[k], weight, ucb))
  }

  /** The visit counts of the children of node `i`, in the children's order. */
  function VisitKeys(ns: seq<Node>, i: nat): (keys: seq<real>)
    requires i < |ns| && forall k :: 0 <= k < |ns[i].children| ==> ns[i].children[k] < |ns|
    ensures |keys| == |ns[i].children|
    ensures forall k :: 0 <= k < |keys| ==> keys[k] == ns[ns[i].children[k]].visits as real
  {
    var kids := ns[i].children;
    seq(|kids|, k requires 0 <= k < |kids| => ns[kids[k]].visits as real)
  }

  /** A node counted once more with `result` added to its score. */
  function Bumped(n: Node, result: int): Node {
    n.(visits := n.visits + 1, totalScore := n.totalScore + result)
  }

  /** The fields a node's place in the tree depends on. */
  function Shape(n: Node): (Board, Color, Option<nat>, Option<Pos>) {
    (n.board, n.currentPlayer, n.parent, n.move)
  }

  /**
   * The shape of the tree: every board is square and every untried move is
   * an empty cell of its node's board; children come after their node and
   * name it as their parent; below the root, every node
   * comes after its parent, was reached by a move, and holds the parent's
   * board with the parent's player's stone on that move.
   */
  ghost predicate TreeShaped(ns: seq<Node>) {
    (forall i :: 0 <= i < |ns| ==> IsSquare(ns[i].board))
    && (forall i, k :: 0 <= i < |ns| && 0 <= k < |ns[i].untriedMoves| ==> IsEmptyAt(ns[i].board, ns[i].untriedMoves[k]))
    && (forall i, k :: 0 <= i < |ns| && 0 <= k < |ns[i].children| ==>
          i < ns[i].children[k] < |ns| && ns[ns[i].children[k]].parent == Some(i))
    && (forall i :: 0 < i < |ns| ==> ns[i].parent.Some? && ns[i].parent.value < i && ns[i].move.Some?)
    && (forall i :: 0 < i < |ns| ==> ChildEdge(ns, i))
  }

  /**
   * Node `i` comes from its parent by one move of the parent's player on a
   * cell that was empty, and the parent's player is to move again.
   */
  ghost predicate ChildEdge(ns: seq<Node>, i: nat)
    requires i < |ns|
  {
    ns[i].parent.Some? && ns[i].parent.value < |ns| && ns[i].move.Some?
    && var p := ns[ns[i].parent.value];
    IsEmptyAt(p.board, ns[i].move.value)
    && ns[i].board == Place(p.board, ns[i].move.value, Stone(p.currentPlayer))
    && ns[i].currentPlayer == p.currentPlayer
  }

  /** Node `j` is `i` or one of its ancestors. */
  ghost predicate OnPath(ns: seq<Node>, j: nat, i: nat)
    decreases i
  {
    j == i || (i < |ns| && ns[i].parent.Some? && ns[i].parent.value < i && OnPath(ns, j, ns[i].parent.value))
  }

  /** Ancestors come first. */
  lemma {:induction false} OnPathBelow(ns: seq<Node>, j: nat, i: nat)
    requires OnPath(ns, j, i)
    ensures j <= i
    decreases i
  {
    if j != i {
      OnPathBelow(ns, j, ns[i].parent.value);
    }
  }

  /** Who is on the path from `i` depends only on the parent links. */
  lemma {:induction false} OnPathSameParents(ns: seq<Node>, ms: seq<Node>, j: nat, i: nat)
    requires |ns| == |ms| && forall k :: 0 <= k < |ns| ==> ms[k].parent == ns[k].parent
    ensures OnPath(ms, j, i) <==> OnPath(ns, j, i)
    decreases i
  {
    if j != i && i < |ns| && ns[i].parent.Some? && ns[i].parent.value < i {
      OnPathSameParents(ns, ms, j, ns[i].parent.value);
    }
  }

  /** In a tree the root is on the path from every node. */
  lemma {:induction false} RootOnPath(ns: seq<Node>, i: nat)
    requires i < |ns| && TreeShaped(ns)
    ensures OnPath(ns, 0, i)
    decreases i
  {
    if i > 0 {
      RootOnPath(ns, ns[i].parent.value);
    }
  }

  /** One step of backpropagation: bumping `i` and then the path from its parent bumps the path from `i`. */
  lemma BumpStep(before: seq<Node>, mid: seq<Node>, after: seq<Node>, i: nat, p: nat, result: int)
    requires i < |before| && before[i].parent == Some(p) && p < i
    requires mid == before[i := Bumped(before[i], result)]
    requires |after| == |mid|
    requires forall j :: 0 <= j < |mid| ==> after[j] == if OnPath(mid, j, p) then Bumped(mid[j], result) else mid[j]
    ensures forall j :: 0 <= j < |before| ==>
      after[j] == if OnPath(before, j, i) then Bumped(before[j], result) else before[j]
  {
    forall j | 0 <= j < |before|
      ensures after[j] == if OnPath(before, j, i) then Bumped(before[j], result) else before[j]
    {
      OnPathSameParents(before, mid, j, p);
      if j == i {
        if OnPath(mid, j, p) {
          OnPathBelow(mid, j, p);
        }
      }
    }
  }

  /**
   * After backpropagating from `node`, the root has one more visit and every
   * node below it has been visited, given that only `node` had not been.
   */
  lemma BackpropagatedPath(before: seq<Node>, after: seq<Node>, node: nat, result: int)
    requires TreeShaped(before) && node < |before| && |after| == |before|
    requires forall j :: 0 < j < |before| && j != node ==> before[j].visits > 0
    requires forall j :: 0 <= j < |after| ==>
      after[j] == if OnPath(before, j, node) then Bumped(before[j], result) else before[j]
    ensures after[0] == Bumped(before[0], result)
    ensures forall j :: 0 < j < |after| ==> after[j].visits > 0
  {
    RootOnPath(before, node);
  }

  /** Changing only visit counts and scores keeps the shape of the tree. */
  lemma CountersKeepShape(ns: seq<Node>, ms: seq<Node>)
    requires TreeShaped(ns) && |ms| == |ns|
    requires forall j :: 0 <= j < |ns| ==> ms[j] == ns[j].(visits := ms[j].visits, totalScore := ms[j].totalScore)
    ensures TreeShaped(ms)
  {
    forall i | 0 < i < |ms| ensures ChildEdge(ms, i) {
      assert ChildEdge(ns, i);
      assert ms[ns[i].parent.value].board == ns[ns[i].parent.value].board;
    }
  }

  /** The node list after `expand` of node `i` with the new node `child`. */
  function Expanded(ns: seq<Node>, i: nat, child: Node): seq<Node>
    requires i < |ns| && ns[i].untriedMoves != []
  {
    var n := ns[i];
    ns[i := n.(children := n.children + [|ns|], untriedMoves := n.untriedMoves[..|n.untriedMoves| - 1])] + [child]
  }

  /** The node `expand` creates from node `i`: the last untried move played for the node's player. */
  ghost predicate ExpansionOf(ns: seq<Node>, i: nat, child: Node)
    requires i < |ns| && ns[i].untriedMoves != []
  {
    var n := ns[i];
    var move := n.untriedMoves[|n.untriedMoves| - 1];
    child.parent == Some(i) && child.move == Some(move)
    && child.board == Place(n.board, move, Stone(n.currentPlayer)) && child.currentPlayer == n.currentPlayer
    && child.children == [] && child.visits == 0 && child.totalScore == 0
    && forall k :: 0 <= k < |child.untriedMoves| ==> IsEmptyAt(child.board, child.untriedMoves[k])
  }

  /** Expanding a node keeps the shape of the tree. */
  lemma ExpandKeepsShape(ns: seq<Node>, i: nat, child: Node)
    requires TreeShaped(ns) && i < |ns| && ns[i].untriedMoves != [] && ExpansionOf(ns, i, child)
    ensures TreeShaped(Expanded(ns, i, child))
  {
    var ms := Expanded(ns, i, child);
    var n := ns[i];
    var move := n.untriedMoves[|n.untriedMoves| - 1];
    assert IsEmptyAt(n.board, move);
    PlaceKeepsSquare(n.board, move, Stone(n.currentPlayer));
    ExpandKeepsChildren(ns, i, child);
    ExpandKeepsEdges(ns, i, child);
  }

  /** After `expand`, children still come after their node and name it as their parent. */
  lemma ExpandKeepsChildren(ns: seq<Node>, i: nat, child: Node)
    requires TreeShaped(ns) && i < |ns| && ns[i].untriedMoves != [] && child.parent == Some(i) && child.children == []
    ensures var ms := Expanded(ns, i, child);
      forall j, k :: 0 <= j < |ms| && 0 <= k < |ms[j].children| ==>
        j < ms[j].children[k] < |ms| && ms[ms[j].children[k]].parent == Some(j)
  {
    var ms := Expanded(ns, i, child);
    forall j, k | 0 <= j < |ms| && 0 <= k < |ms[j].children|
      ensures j < ms[j].children[k] < |ms| && ms[ms[j].children[k]].parent == Some(j)
    {
      if j == |ns| {
        assert false;
      } else if j != i || k < |ns[i].children| {
        var c := ns[j].children[k];
        assert ms[j].children[k] == c && ms[c].parent == ns[c].parent;
      } else {
        assert ms[j].children[k] == |ns| && ms[|ns|] == child;
      }
    }
  }

  /** After `expand`, every node below the root still comes from its parent by one move. */
  lemma ExpandKeepsEdges(ns: seq<Node>, i: nat, child: Node)
    requires TreeShaped(ns) && i < |ns| && ns[i].untriedMoves != [] && ExpansionOf(ns, i, child)
    ensures var ms := Expanded(ns, i, child);
      forall j :: 0 < j < |ms| ==> ChildEdge(ms, j)
  {
    var ms := Expanded(ns, i, child);
    forall j | 0 < j < |ms| ensures ChildEdge(ms, j) {
      if j < |ns| {
        assert ChildEdge(ns, j);
        assert ms[ns[j].parent.value].board == ns[ns[j].parent.value].board;
      }
    }
  }

  /** The search tree: `nodes[0]` is the root. */
  class Tree {
    var nodes: seq<Node>
    /** The root's first list of untried moves; every move the root can answer comes from it. */
    ghost const candidates: seq<Pos>

    ghost predicate Valid()
      reads this
    {
      |nodes| > 0 && nodes[0].parent.None? && nodes[0].move.None? && TreeShaped(nodes)
      && (forall k :: 0 <= k < |nodes[0].untriedMoves| ==> nodes[0].untriedMoves[k] in candidates)
      && (forall i :: 0 < i < |nodes| && nodes[i].parent == Some(0) ==> nodes[i].move.value in candidates)
    }

    /** Every node below the root has been simulated at least once. */
    ghost predicate Visited()
      reads this
    {
      forall i :: 0 < i < |nodes| ==> nodes[i].visits > 0
    }

    /** `MCTSNode(board, current_player)`: a root whose untried moves are the shared border cells. */
    constructor (board: Board, currentPlayer: Color)
      requires IsSquare(board)
      ensures Valid() && Visited()
      ensures |nodes| == 1 && nodes[0].board == board && nodes[0].currentPlayer == currentPlayer
      ensures nodes[0].children == [] && nodes[0].visits == 0 && nodes[0].totalScore == 0
      ensures forall p :: p in candidates ==> IsEmptyAt(board, p)
      ensures BorderCells(board, 1) != [] ==> forall p :: p in candidates ==> IsBorderCell(board, p, 1)
    {
      var untried := FindSharedBorderCells(board, 1, MaxValidMoves);
      nodes := [Node(board, currentPlayer, None, None, [], 0, 0, untried)];
      candidates := untried;
    }

    /** `is_fully_expanded`. */
    function IsFullyExpanded(i: nat): bool
      reads this
      requires i < |nodes|
    {
      |nodes[i].untriedMoves| == 0
    }

    /**
     * `best_child`: the first child with the largest UCB1 key, given by its
     * position among the children. The key divides by the child's visits, so
     * every child must have been visited.
     */
    function BestChild(i: nat, weight: real, ucb: Ucb): (m: nat)
      reads this
      requires Valid() && i < |nodes| && nodes[i].children != []
      requires forall k :: 0 <= k < |nodes[i].children| ==> nodes[nodes[i].children[k]].visits > 0
      ensures m < |nodes[i].children|
      ensures forall k :: 0 <= k < |nodes[i].children| ==>
        UcbKey(nodes, i, nodes[i].children[k], weight, ucb) <= UcbKey(nodes, i, nodes[i].children[m], weight, ucb)
      ensures forall k :: 0 <= k < m ==>
        UcbKey(nodes, i, nodes[i].children[k], weight, ucb) < UcbKey(nodes, i, nodes[i].children[m], weight, ucb)
    {
      FirstMax(ChildKeys(nodes, i, weight, ucb))
    }

    /**
     * The `max(children, key=visits)` of `make_move`: the first child with
     * the most visits, given by its position among the children.
     */
    function MostVisitedChild(i: nat): (m: nat)
      reads this
      requires Valid() && i < |nodes| && nodes[i].children != []
      ensures m < |nodes[i].children|
      ensures forall k :: 0 <= k < |nodes[i].children| ==>
        nodes[nodes[i].children[k]].visits <= nodes[nodes[i].children[m]].visits
      ensures forall k :: 0 <= k < m ==>
        nodes[nodes[i].children[k]].visits < nodes[nodes[i].children[m]].visits
    {
      FirstMax(VisitKeys(nodes, i))
    }

    /**
     * `_select`: from the root, follow the best child while the node is fully
     * expanded and has children. The node reached still has an untried move
     * or is a leaf.
     */
    method Select(weight: real, ucb: Ucb) returns (node: nat)
      requires Valid() && Visited()
      ensures node < |nodes| && (nodes[node].untriedMoves != [] || nodes[node].children == [])
    {
      node := 0;
      while IsFullyExpanded(node) && nodes[node].children != []
        invariant node < |nodes|
        decreases |nodes| - node
      {
        node := nodes[node].children[BestChild(node, weight, ucb)];
      }
    }

    /**
     * `expand`: pop the last untried move, play it for the node's player on a
     * copy of the board, and append the new node as the last child.
     */
    method Expand(i: nat) returns (child: nat)
      requires Valid() && i < |nodes| && nodes[i].untriedMoves != []
      modifies this
      ensures Valid() && child == |old(nodes)| && |nodes| == child + 1
      ensures nodes == Expanded(old(nodes), i, nodes[child]) && ExpansionOf(old(nodes), i, nodes[child])
    {
      var n := nodes[i];
      var move := n.untriedMoves[|n.untriedMoves| - 1];
      assert IsEmptyAt(n.board, move);
      var nextBoard := MakeMoveOnBoard(n.board, move.row, move.col, n.currentPlayer);
      PlaceKeepsSquare(n.board, move, Stone(n.currentPlayer));
      var untried := FindSharedBorderCells(nextBoard, 1, MaxValidMoves);
      var childNode := Node(nextBoard, n.currentPlayer, Some(i), Some(move), [], 0, 0, untried);
      var before := nodes;
      ExpandKeepsShape(before, i, childNode);
      child := |nodes|;
      nodes := Expanded(before, i, childNode);
    }

    /**
     * `backpropagate`: the node and each of its ancestors gain one visit and
     * the result; no other node changes.
     */
    method Backpropagate(i: nat, result: int)
      requires Valid() && i < |nodes|
      modifies this
      ensures Valid() && |nodes| == |old(nodes)|
      ensures forall j :: 0 <= j < |nodes| ==>
        nodes[j] == if OnPath(old(nodes), j, i) then Bumped(old(nodes[j]), result) else old(nodes[j])
      decreases i
    {
      var before := nodes;
      nodes := nodes[i := Bumped(nodes[i], result)];
      CountersKeepShape(before, nodes);
      if nodes[i].parent.Some? {
        var p := nodes[i].parent.value;
        var mid := nodes;
        Backpropagate(p, result);
        BumpStep(before, mid, nodes, i, p, result);
      }
    }
  }

  /**
   * `MCTSAgent`: the number of simulations per move, the length of each
   * simulated game and the exploration weight of UCB1.
   */
  class MctsAgent {
    const nSimulations: int
    const mSteps: int
    const explorationWeight: real

    constructor (nSimulations: int := 2, mSteps: int := 2, explorationWeight: real := 1.41)
      ensures this.nSimulations == nSimulations && this.mSteps == mSteps
      ensures this.explorationWeight == explorationWeight
    {
      this.nSimulations := nSimulations;
      this.mSteps := mSteps;
      this.explorationWeight := explorationWeight;
    }

    /**
     * `simulate_move`: play out a game from the node's board for at most
     * `m_steps` moves and score it. A draw on the agent's side scores 0, an
     * empty choice on the opponent's side raises, and otherwise the final
     * board is evaluated, with noise `delta`, for the root's player.
     */
    method SimulateMove(nodeBoard: Board, nodePlayer: Color, rootPlayer: Color, jitter: nat -> Pos -> real, delta: real)
      returns (result: Result<int>, ghost ending: Ending, ghost final: Board, ghost placed: nat,
               ghost moves: seq<Pos>, ghost boards: seq<Board>)
      requires IsSquare(nodeBoard)
      ensures IsSquare(final) && placed <= Max(0, mSteps)
      ensures CountCells(final, Empty) + placed == CountCells(nodeBoard, Empty)
      ensures ending.Played? ==> placed == Max(0, mSteps)
      ensures ending.Won? ==> placed > 0 && WinThrough(final, ending.last, Stone(MoverOf(nodePlayer, placed)))
      ensures ending.Drawn? ==> IsFull(final) && MoverOf(nodePlayer, placed + 1) == nodePlayer
      ensures ending.NoChoice? ==> IsFull(final) && MoverOf(nodePlayer, placed + 1) == Opponent(nodePlayer)
      ensures result.Raised? <==> ending.NoChoice?
      ensures result.Raised? ==> result.error == IndexError("Cannot choose from an empty sequence")
      ensures ending.Drawn? ==> result == Ok(0)
      ensures ending.Played? || ending.Won? ==> result == Ok(EvaluationFunction(final, rootPlayer, delta))
      ensures RollOut(nodeBoard, nodePlayer, moves, boards) && |moves| == placed && boards[placed] == final
      ensures ending.Won? ==> ending.last == moves[placed - 1]
      ensures forall k :: 0 <= k < placed && (k < placed - 1 || !ending.Won?) ==> !WonAt(nodePlayer, moves, boards, k)
    {
      var end, board, count;
      end, board, count, moves, boards := PlayOut(nodeBoard, nodePlayer, Max(0, mSteps), jitter);
      ending, final, placed := end, board, count;
      match end
      case NoChoice =>
        result := Raised(IndexError("Cannot choose from an empty sequence"));
      case Drawn =>
        result := Ok(0);
      case _ =>
        result := Ok(EvaluationFunction(board, rootPlayer, delta));
    }

    /**
     * The simulation loop of `make_move`: select, expand when an untried move
     * is left, simulate and backpropagate, `n_simulations` times. Each
     * completed simulation adds one visit to the root; a failed simulation
     * stops the loop with its error.
     */
    method RunSimulations(tree: Tree, rootPlayer: Color, ucb: Ucb, jitters: nat -> nat -> Pos -> real, noise: nat -> real)
      returns (failure: Option<PyError>)
      requires tree.Valid() && tree.Visited()
      modifies tree
      ensures tree.Valid() && (failure.None? ==> tree.Visited())
      ensures tree.nodes[0].board == old(tree.nodes[0].board)
      ensures nSimulations <= 0 ==> tree.nodes == old(tree.nodes) && failure.None?
      ensures failure.None? ==> tree.nodes[0].visits == old(tree.nodes[0].visits) + Max(0, nSimulations)
      ensures failure.Some? ==> failure.value == IndexError("Cannot choose from an empty sequence")
    {
      var count := Max(0, nSimulations);
      for s := 0 to count
        invariant tree.Valid() && tree.Visited()
        invariant tree.nodes[0].board == old(tree.nodes[0].board)
        invariant tree.nodes[0].visits == old(tree.nodes[0].visits) + s
        invariant s == 0 ==> tree.nodes == old(tree.nodes)
      {
        failure := Simulate(tree, rootPlayer, ucb, jitters(s), noise(s));
        if failure.Some? {
          return;
        }
      }
      return None;
    }

    /** One pass of the simulation loop: select and expand, simulate, then backpropagate the result. */
    method Simulate(tree: Tree, rootPlayer: Color, ucb: Ucb, jitter: nat -> Pos -> real, delta: real)
      returns (failure: Option<PyError>)
      requires tree.Valid() && tree.Visited()
      modifies tree
      ensures tree.Valid() && tree.nodes[0].board == old(tree.nodes[0].board)
      ensures failure.None? ==> tree.Visited() && tree.nodes[0].visits == old(tree.nodes[0].visits) + 1
      ensures failure.Some? ==> failure.value == IndexError("Cannot choose from an empty sequence")
    {
      var node := PrepareLeaf(tree, explorationWeight, ucb);
      var mid := tree.nodes;
      var result, ending, final, placed, moves, boards :=
        SimulateMove(mid[node].board, mid[node].currentPlayer, rootPlayer, jitter, delta);
      if result.Raised? {
        return Some(result.error);
      }
      tree.Backpropagate(node, result.value);
      BackpropagatedPath(mid, tree.nodes, node, result.value);
      failure := None;
    }

    /**
     * `make_move`: grow a tree from the board and answer the move of the
     * root's most visited child, the first one on a tie. With no child,
     * `max` of an empty list raises `ValueError`.
     */
    method MakeMove(board: Board, currentPlayer: Color, ucb: Ucb, jitters: nat -> nat -> Pos -> real, noise: nat -> real)
      returns (r: Result<Pos>)
      requires IsSquare(board)
      ensures r.Ok? ==> IsEmptyAt(board, r.value)
      ensures r.Ok? && BorderCells(board, 1) != [] ==> IsBorderCell(board, r.value, 1)
      ensures r.Raised? ==>
        r.error == ValueError("max() arg is an empty sequence")
        || r.error == IndexError("Cannot choose from an empty sequence")
      ensures nSimulations <= 0 ==> r == Raised(ValueError("max() arg is an empty sequence"))
    {
      var root := new Tree(board, currentPlayer);
      var failure := RunSimulations(root, currentPlayer, ucb, jitters, noise);
      if failure.Some? {
        return Raised(failure.value);
      }
      if root.nodes[0].children == [] {
        return Raised(ValueError("max() arg is an empty sequence"));
      }
      var best := root.nodes[0].children[root.MostVisitedChild(0)];
      r := Ok(root.nodes[best].move.value);
    }
  }

  /**
   * The first half of one simulation of `make_move`: select a node and, when
   * it still has an untried move, expand it. Every node but the one returned
   * has been visited, and the root keeps its board and visits.
   */
  method PrepareLeaf(tree: Tree, weight: real, ucb: Ucb) returns (node: nat)
    requires tree.Valid() && tree.Visited()
    modifies tree
    ensures tree.Valid() && node < |tree.nodes|
    ensures forall j :: 0 < j < |tree.nodes| && j != node ==> tree.nodes[j].visits > 0
    ensures tree.nodes[0].board == old(tree.nodes[0].board) && tree.nodes[0].visits == old(tree.nodes[0].visits)
  {
    node := tree.Select(weight, ucb);
    if !tree.IsFullyExpanded(node) {
      node := tree.Expand(node);
    }
  }

  /** The choice of one turn of `simulate_move`: the agent's side when `player` is the node's player. */
  method ChooseMove(b: Board, player: Color, nodePlayer: Color, jitter: Pos -> real) returns (choice: Option<Pos>)
    requires IsSquare(b) && (player == nodePlayer ==> |b| > 0)
    ensures choice.Some? ==> IsEmptyAt(b, choice.value)
    ensures choice.None? ==> IsFull(b)
  {
    if player == nodePlayer {
      choice := AgentTurn(b, player, jitter);
    } else {
      choice := OpponentTurn(b);
    }
  }

  /**
   * The agent's turn of `simulate_move`: a random one of the top 30 cells of
   * the mixed heuristic, or of the shared border cells when that list is
   * empty; `None`, the draw, when both are empty.
   */
  method AgentTurn(b: Board, player: Color, jitter: Pos -> real) returns (choice: Option<Pos>)
    requires IsSquare(b) && |b| > 0
    ensures choice.Some? ==> IsEmptyAt(b, choice.value)
    ensures choice.Some? && !Stoneless(b) && BorderCells(b, 1) != [] ==> IsBorderCell(b, choice.value, 1)
    ensures choice.None? ==> IsFull(b)
  {
    var legalMoves := MixedHeuristic(b, player, 30, jitter);
    if legalMoves == [] {
      legalMoves := FindSharedBorderCells(b, 1, MaxValidMoves);
    }
    if legalMoves == [] {
      NoCandidatesMeansFull(b);
      return None;
    }
    var k :| 0 <= k < |legalMoves|;
    choice := Some(legalMoves[k]);
  }

  /**
   * The opponent's turn of `simulate_move`: a random one of the shared border
   * cells; `None` when there is none, where `random.choice` raises.
   */
  method OpponentTurn(b: Board) returns (choice: Option<Pos>)
    requires IsSquare(b)
    ensures choice.Some? ==> IsEmptyAt(b, choice.value)
    ensures choice.Some? && BorderCells(b, 1) != [] ==> IsBorderCell(b, choice.value, 1)
    ensures choice.None? ==> IsFull(b)
  {
    var cells := FindSharedBorderCells(b, 1, MaxValidMoves);
    if cells == [] {
      NoCandidatesMeansFull(b);
      return None;
    }
    var k :| 0 <= k < |cells|;
    choice := Some(cells[k]);
  }

  /** How a simulated game ends. */
  datatype Ending =
    | Played            // all the moves were made
    | Won(last: Pos)    // the move on `last` won
    | Drawn             // the agent's side had no move
    | NoChoice          // the opponent's side had no move

  /**
   * The loop of `simulate_move`: at most `steps` moves from the node's board,
   * the opponent of the node's player moving first. The agent's side plays
   * one of the top cells of the mixed heuristic, the opponent's side one of
   * the shared border cells; the game stops after a winning move or when the
   * side to move has nothing to play.
   */
  method PlayOut(nodeBoard: Board, nodePlayer: Color, steps: nat, jitter: nat -> Pos -> real)
    returns (ending: Ending, final: Board, placed: nat, ghost moves: seq<Pos>, ghost boards: seq<Board>)
    requires IsSquare(nodeBoard)
    ensures Progress(nodeBoard, nodePlayer, final, placed, moves, boards) && placed <= steps
    ensures ending.Played? ==> placed == steps
    ensures ending.Won? ==> placed > 0 && WinThrough(final, ending.last, Stone(MoverOf(nodePlayer, placed)))
    ensures ending.Drawn? ==> IsFull(final) && MoverOf(nodePlayer, placed + 1) == nodePlayer
    ensures ending.NoChoice? ==> IsFull(final) && MoverOf(nodePlayer, placed + 1) == Opponent(nodePlayer)
    ensures ending.Won? ==> ending.last == moves[placed - 1]
    ensures forall k :: 0 <= k < placed && (k < placed - 1 || !ending.Won?) ==> !WonAt(nodePlayer, moves, boards, k)
  {
    final := nodeBoard;
    var currentPlayer := Opponent(nodePlayer);
    placed := 0;
    moves, boards := [], [nodeBoard];
    while placed < steps
      invariant placed <= steps
      invariant currentPlayer == MoverOf(nodePlayer, placed + 1)
      invariant placed > 0 ==> |final| > 0
      invariant Progress(nodeBoard, nodePlayer, final, placed, moves, boards)
      invariant forall k :: 0 <= k < placed ==> !WonAt(nodePlayer, moves, boards, k)
    {
      var stop;
      stop, final, placed, moves, boards := RollStep(nodeBoard, nodePlayer, jitter(placed), final, placed, currentPlayer, moves, boards);
      if stop.Some? {
        return stop.value, final, placed, moves, boards;
      }
      MoverNext(nodePlayer, placed);
      currentPlayer := Opponent(currentPlayer);
    }
    ending := Played;
  }

  /**
   * One turn of the roll-out: the side to move chooses a cell, or the game
   * stops without a move; the stone is placed and the game stops when it wins.
   */
  method RollStep(nodeBoard: Board, nodePlayer: Color, jitter: Pos -> real, final: Board, placed: nat,
                  currentPlayer: Color, ghost moves: seq<Pos>, ghost boards: seq<Board>)
    returns (stop: Option<Ending>, next: Board, placed': nat, ghost moves': seq<Pos>, ghost boards': seq<Board>)
    requires currentPlayer == MoverOf(nodePlayer, placed + 1) && (placed > 0 ==> |final| > 0)
    requires Progress(nodeBoard, nodePlayer, final, placed, moves, boards)
    requires forall k :: 0 <= k < placed ==> !WonAt(nodePlayer, moves, boards, k)
    ensures Progress(nodeBoard, nodePlayer, next, placed', moves', boards') && placed' <= placed + 1
    ensures stop.None? ==> placed' == placed + 1 && |next| > 0
    ensures stop.Some? ==> !stop.value.Played?
    ensures stop.Some? && stop.value.Won? ==> placed' > 0 && WinThrough(next, stop.value.last, Stone(MoverOf(nodePlayer, placed')))
    ensures stop.Some? && stop.value.Drawn? ==> IsFull(next) && MoverOf(nodePlayer, placed' + 1) == nodePlayer
    ensures stop.Some? && stop.value.NoChoice? ==> IsFull(next) && MoverOf(nodePlayer, placed' + 1) == Opponent(nodePlayer)
    ensures stop.Some? && stop.value.Won? ==> stop.value.last == moves'[placed' - 1]
    ensures forall k :: 0 <= k < placed' && (k < placed' - 1 || stop.None? || !stop.value.Won?) ==> !WonAt(nodePlayer, moves', boards', k)
  {
    var choice := ChooseMove(final, currentPlayer, nodePlayer, jitter);
    if choice.None? {
      return Some(if currentPlayer == nodePlayer then Drawn else NoChoice), final, placed, moves, boards;
    }
    var move := choice.value;
    var won;
    next, won := PlayMove(final, move, currentPlayer);
    moves', boards' := PlayedStep(nodeBoard, nodePlayer, placed, moves, boards, move, final, next, won);
    placed' := placed + 1;
    stop := if won then Some(Won(move)) else None;
  }

  /**
   * The record of a roll-out: `boards[k + 1]` is `boards[k]` with the stone
   * of the `k + 1`-th mover on the empty cell `moves[k]`.
   */
  ghost predicate RollOut(nodeBoard: Board, nodePlayer: Color, moves: seq<Pos>, boards: seq<Board>) {
    |boards| == |moves| + 1 && boards[0] == nodeBoard &&
    forall k :: 0 <= k < |moves| ==>
      IsEmptyAt(boards[k], moves[k]) && boards[k + 1] == Place(boards[k], moves[k], Stone(MoverOf(nodePlayer, k + 1)))
  }

  /** The `k + 1`-th placement of a roll-out makes five through its cell. */
  ghost predicate WonAt(nodePlayer: Color, moves: seq<Pos>, boards: seq<Board>, k: nat)
    requires k < |moves| && |boards| == |moves| + 1
  {
    WinThrough(boards[k + 1], moves[k], Stone(MoverOf(nodePlayer, k + 1)))
  }

  /** A roll-out after `placed` moves: the board, its empty cells and the record that reaches it. */
  ghost predicate Progress(nodeBoard: Board, nodePlayer: Color, final: Board, placed: nat, moves: seq<Pos>, boards: seq<Board>) {
    IsSquare(final) && |final| == |nodeBoard| && CountCells(final, Empty) + placed == CountCells(nodeBoard, Empty) &&
    RollOut(nodeBoard, nodePlayer, moves, boards) && |moves| == placed && boards[placed] == final
  }

  /** Recording one more placement of a roll-out. */
  ghost method PlayedStep(nodeBoard: Board, nodePlayer: Color, placed: nat, moves: seq<Pos>, boards: seq<Board>,
                          move: Pos, before: Board, after: Board, won: bool)
    returns (moves': seq<Pos>, boards': seq<Board>)
    requires Progress(nodeBoard, nodePlayer, before, placed, moves, boards)
    requires forall k :: 0 <= k < placed ==> !WonAt(nodePlayer, moves, boards, k)
    requires IsEmptyAt(before, move) && after == Place(before, move, Stone(MoverOf(nodePlayer, placed + 1)))
    requires IsSquare(after) && |after| == |before| && CountCells(after, Empty) + 1 == CountCells(before, Empty)
    requires won <==> WinThrough(after, move, Stone(MoverOf(nodePlayer, placed + 1)))
    ensures Progress(nodeBoard, nodePlayer, after, placed + 1, moves', boards')
    ensures moves'[placed] == move
    ensures forall k :: 0 <= k < placed ==> !WonAt(nodePlayer, moves', boards', k)
    ensures won <==> WonAt(nodePlayer, moves', boards', placed)
  {
    moves', boards' := moves + [move], boards + [after];
    forall k | 0 <= k < placed ensures !WonAt(nodePlayer, moves', boards', k) {
      assert WonAt(nodePlayer, moves', boards', k) == WonAt(nodePlayer, moves, boards, k);
    }
  }

  /** Who makes the `n`-th move of a game simulated from a node of `nodePlayer`: the opponent moves first. */
  function MoverOf(nodePlayer: Color, n: nat): Color {
    if n == 0 then nodePlayer else Opponent(MoverOf(nodePlayer, n - 1))
  }

  /** The movers alternate. */
  lemma MoverNext(nodePlayer: Color, n: nat)
    ensures MoverOf(nodePlayer, n + 1) == Opponent(MoverOf(nodePlayer, n))
  {
  }

  /** The opponent makes the odd-numbered moves and the node's player the even-numbered ones. */
  lemma {:induction false} MoverParity(nodePlayer: Color, n: nat)
    ensures MoverOf(nodePlayer, n) == if n % 2 == 1 then Opponent(nodePlayer) else nodePlayer
  {
    if n > 0 {
      MoverParity(nodePlayer, n - 1);
    }
  }

  /**
   * One move of `simulate_move` on an empty cell: `_make_move_on_board`
   * followed by `_check_win_on_board` at that cell.
   */
  method PlayMove(b: Board, move: Pos, player: Color) returns (next: Board, won: bool)
    requires IsSquare(b) && IsEmptyAt(b, move)
    ensures next == Place(b, move, Stone(player)) && IsSquare(next) && |next| == |b|
    ensures CountCells(next, Empty) + 1 == CountCells(b, Empty)
    ensures won <==> WinThrough(next, move, Stone(player))
  {
    CountAfterPlace(b, move, Stone(player), Empty);
    PlaceKeepsSquare(b, move, Stone(player));
    next := MakeMoveOnBoard(b, move.row, move.col, player);
    won := CheckWinOnBoard(next, move.row, move.col, player);
  }

  /** With no shared border cell listed, the board has no empty cell. */
  lemma NoCandidatesMeansFull(b: Board)
    requires IsSquare(b)
    requires BorderCells(b, 1) == [] && Min(2, |EmptyCells(b)|) == 0
    ensures IsFull(b)
  {
    NoEmptyCellsIffFull(b);
  }
}
