/**
 * The candidate-move generators of the agents: the border scan that lists the
 * empty cells next to a stone, the neighbour, offensive and defensive score
 * grids, the jittered top-k selection and the mixed heuristic built from them.
 */
module CandidateMoves {
  import opened BoardModel
  import opened LineEvaluation

  /** The cap on the number of cells `find_shared_border_cells` returns. */
  const MaxValidMoves := 255

  function Min(a: int, b: int): int {
    if a <= b then a else b
  }

  /* ---------------------------------------------------------------------- */
  /* find_shared_border_cells                                               */
  /* ---------------------------------------------------------------------- */

  /** The eight surrounding cells, in the order the source lists them. */
  const Ring: seq<Dir> := [Dir(-1, 0), Dir(1, 0), Dir(0, -1), Dir(0, 1),
                           Dir(-1, -1), Dir(-1, 1), Dir(1, -1), Dir(1, 1)]

  /** The sixteen cells at distance two, added when `distance == 2`. */
  const OuterRing: seq<Dir> := [Dir(-2, 0), Dir(2, 0), Dir(0, -2), Dir(0, 2),
                                Dir(-2, -2), Dir(-2, 2), Dir(2, -2), Dir(2, 2),
                                Dir(-2, -1), Dir(-2, 1), Dir(2, -1), Dir(2, 1),
                                Dir(-1, -2), Dir(-1, 2), Dir(1, -2), Dir(1, 2)]

  /** The offsets inspected around a cell; any `distance` other than 2 means the ring. */
  function NeighborOffsets(distance: int): seq<Dir> {
    if distance == 2 then Ring + OuterRing else Ring
  }

  /** Some offset in `offsets` leads from `p` to a stone on the board. */
  predicate HasOccupiedNeighbor(b: Board, p: Pos, offsets: seq<Dir>) {
    exists t :: 0 <= t < |offsets| && IsOccupied(b, Next(p, offsets[t]))
  }

  /** An empty cell with a stone among the inspected neighbours. */
  predicate IsBorderCell(b: Board, p: Pos, distance: int) {
    IsEmptyAt(b, p) && HasOccupiedNeighbor(b, p, NeighborOffsets(distance))
  }

  /** An empty cell with no stone among the inspected neighbours. */
  predicate IsLoneCell(b: Board, p: Pos, distance: int) {
    IsEmptyAt(b, p) && !HasOccupiedNeighbor(b, p, NeighborOffsets(distance))
  }

  function BorderTest(b: Board, distance: int): Pos -> bool {
    p => IsBorderCell(b, p, distance)
  }

  function LoneTest(b: Board, distance: int): Pos -> bool {
    p => IsLoneCell(b, p, distance)
  }

  /** The border cells in row-major order: `shared_border_cells` after the scan. */
  function BorderCells(b: Board, distance: int): seq<Pos> {
    AllCells(|b|, BorderTest(b, distance))
  }

  /** The other empty cells in row-major order: `none_cells` after the scan. */
  function LoneCells(b: Board, distance: int): seq<Pos> {
    AllCells(|b|, LoneTest(b, distance))
  }

  /** The inner loop over the neighbours of (r, c): it stops at the first stone. */
  method CheckNeighbors(b: Board, r: int, c: int, offsets: seq<Dir>) returns (hasNeighbor: bool)
    requires IsSquare(b)
    ensures hasNeighbor == HasOccupiedNeighbor(b, Pos(r, c), offsets)
  {
    var rows := |b|;
    var cols := |b|;
    hasNeighbor := false;
    var t := 0;
    while t < |offsets|
      invariant 0 <= t <= |offsets|
      invariant !hasNeighbor
      invariant forall s :: 0 <= s < t ==> !IsOccupied(b, Next(Pos(r, c), offsets[s]))
    {
      var nr := r + offsets[t].dr;
      var nc := c + offsets[t].dc;
      if InBounds(nr, nc, rows, cols) {
        if b[nr][nc] != Empty {
          hasNeighbor := true;
          assert IsOccupied(b, Next(Pos(r, c), offsets[t]));
          return;
        }
      }
      t := t + 1;
    }
  }

  /** `s` is what `random.sample(from, k)` may return: `k` distinct members of `from`. */
  predicate IsSample(s: seq<Pos>, from: seq<Pos>, k: int) {
    |s| == k
    && (forall i :: 0 <= i < |s| ==> s[i] in from)
    && (forall i, j :: 0 <= i < j < |s| ==> s[i] != s[j])
  }

  lemma PrefixIsSample(from: seq<Pos>, k: nat)
    requires StrictlyOrdered(from) && k <= |from|
    ensures IsSample(from[..k], from, k)
  {
    OrderedIsDistinct(from);
  }

  method FindSharedBorderCells(b: Board, distance: int, maxValidMoves: int) returns (cells: seq<Pos>)
    requires IsSquare(b)
    ensures forall i :: 0 <= i < |cells| ==> IsEmptyAt(b, cells[i])
    ensures forall i, j :: 0 <= i < j < |cells| ==> cells[i] != cells[j]
    ensures |cells| <= MaxValidMoves
    ensures BorderCells(b, distance) != [] ==>
      |cells| == Min(MaxValidMoves, |BorderCells(b, distance)|)
      && forall i :: 0 <= i < |cells| ==> IsBorderCell(b, cells[i], distance)
    ensures 0 < |BorderCells(b, distance)| <= MaxValidMoves ==>
      forall p :: p in cells <==> IsBorderCell(b, p, distance)
    ensures BorderCells(b, distance) == [] ==>
      |cells| == Min(2, |EmptyCells(b)|) && forall i :: 0 <= i < |cells| ==> IsLoneCell(b, cells[i], distance)
  {
    var rows := |b|;
    var cols := |b|;
    var offsets := NeighborOffsets(distance);
    var shared: seq<Pos> := [];
    var none: seq<Pos> := [];
    for r := 0 to rows
      invariant shared == Scan(rows, BorderTest(b, distance), r, 0)
      invariant none == Scan(rows, LoneTest(b, distance), r, 0)
    {
      for c := 0 to cols
        invariant shared == Scan(rows, BorderTest(b, distance), r, c)
        invariant none == Scan(rows, LoneTest(b, distance), r, c)
      {
        if b[r][c] == Empty {
          var hasNeighbor := CheckNeighbors(b, r, c, offsets);
          if hasNeighbor {
            shared := shared + [Pos(r, c)];
          } else {
            none := none + [Pos(r, c)];
          }
        }
      }
    }
    assert shared == BorderCells(b, distance);
    assert none == LoneCells(b, distance);
    BorderSpec(b, distance);
    if |shared| == 0 && |none| > 0 {
      PrefixIsSample(none, Min(2, |none|));
      cells :| IsSample(cells, none, Min(2, |none|));
      assert IsSample(cells, none, Min(2, |none|));
      EmptyIsBorderOrLone(b, distance);
    } else if |shared| == 0 && |none| == 0 {
      cells := [];
      EmptyIsBorderOrLone(b, distance);
    } else {
      var numToSelect := Min(MaxValidMoves, |shared|);
      PrefixIsSample(shared, numToSelect);
      cells :| IsSample(cells, shared, numToSelect);
      assert IsSample(cells, shared, numToSelect);
      if |shared| <= MaxValidMoves {
        SampleOfAll(cells, shared);
      }
    }
  }

  lemma BorderSpec(b: Board, distance: int)
    requires IsSquare(b)
    ensures forall p :: p in BorderCells(b, distance) <==> IsBorderCell(b, p, distance)
    ensures forall p :: p in LoneCells(b, distance) <==> IsLoneCell(b, p, distance)
    ensures StrictlyOrdered(BorderCells(b, distance)) && StrictlyOrdered(LoneCells(b, distance))
  {
    AllCellsSpec(|b|, BorderTest(b, distance));
    AllCellsSpec(|b|, LoneTest(b, distance));
  }

  /** Every empty cell is a border cell or a lone cell, so the two lists split the empty cells. */
  lemma EmptyIsBorderOrLone(b: Board, distance: int)
    requires IsSquare(b)
    ensures |EmptyCells(b)| == |BorderCells(b, distance)| + |LoneCells(b, distance)|
  {
    SplitCount(|b|, EmptyTest(b), BorderTest(b, distance), LoneTest(b, distance), |b|, 0);
  }

  /** Scanning with a test that is the disjoint union of two others lists as many cells as both. */
  lemma {:induction false} SplitCount(n: nat, whole: Pos -> bool, left: Pos -> bool, right: Pos -> bool, r: nat, c: nat)
    requires forall p :: whole(p) <==> left(p) || right(p)
    requires forall p :: !(left(p) && right(p))
    ensures |Scan(n, whole, r, c)| == |Scan(n, left, r, c)| + |Scan(n, right, r, c)|
    decreases r, c
  {
    if c == 0 {
      if r > 0 {
        SplitCount(n, whole, left, right, r - 1, n);
      }
    } else {
      SplitCount(n, whole, left, right, r, c - 1);
    }
  }

  /** A sample as long as a duplicate-free list holds every member of it. */
  lemma SampleOfAll(s: seq<Pos>, from: seq<Pos>)
    requires IsSample(s, from, |from|)
    requires forall i, j :: 0 <= i < j < |from| ==> from[i] != from[j]
    ensures forall p :: p in s <==> p in from
  {
    var sset := set i | 0 <= i < |s| :: s[i];
    var fset := set i | 0 <= i < |from| :: from[i];
    DistinctCard(s);
    DistinctCard(from);
    assert sset <= fset;
    SubsetSameSize(sset, fset);
    forall p | p in from ensures p in s {
      assert p in fset;
    }
  }

  lemma {:induction false} DistinctCard(s: seq<Pos>)
    requires forall i, j :: 0 <= i < j < |s| ==> s[i] != s[j]
    ensures |set i | 0 <= i < |s| :: s[i]| == |s|
    decreases |s|
  {
    if s != [] {
      var init := s[..|s| - 1];
      DistinctCard(init);
      var a := set i | 0 <= i < |init| :: init[i];
      var whole := set i | 0 <= i < |s| :: s[i];
      assert whole == a + {s[|s| - 1]};
      assert s[|s| - 1] !in a;
    }
  }

  lemma SubsetSameSize<T>(a: set<T>, b: set<T>)
    requires a <= b && |a| == |b|
    ensures a == b
  {
    if a != b {
      var x :| x in b && x !in a;
      SubsetCard(a, b - {x});
    }
  }

  lemma {:induction false} SubsetCard<T>(a: set<T>, b: set<T>)
    requires a <= b
    ensures |a| <= |b|
    decreases |a|
  {
    if a != {} {
      var y :| y in a;
      SubsetCard(a - {y}, b - {y});
    }
  }

  /* ---------------------------------------------------------------------- */
  /* Score grids                                                            */
  /* ---------------------------------------------------------------------- */

  /** An n×n grid of integer scores, indexed like the board. */
  type Grid = seq<seq<int>>

  predicate IsGrid(g: Grid, n: nat) {
    |g| == n && forall i :: 0 <= i < n ==> |g[i]| == n
  }

  function ZeroGrid(n: nat): (g: Grid)
    ensures IsGrid(g, n) && forall i, j :: 0 <= i < n && 0 <= j < n ==> g[i][j] == 0
  {
    seq(n, _ => seq(n, _ => 0))
  }

  /** No stone anywhere on the board. */
  predicate Stoneless(b: Board) {
    forall i, j :: 0 <= i < |b| && 0 <= j < |b[i]| ==> b[i][j] == Empty
  }

  /** The stones among the cells `offsets` lead to from `p`. */
  function CountOccupied(b: Board, p: Pos, offsets: seq<Dir>): (count: nat)
    ensures count <= |offsets|
  {
    if offsets == [] then 0
    else CountOccupied(b, p, offsets[..|offsets| - 1])
         + (if IsOccupied(b, Next(p, offsets[|offsets| - 1])) then 1 else 0)
  }

  lemma {:induction false} CountOccupiedPositive(b: Board, p: Pos, offsets: seq<Dir>)
    ensures CountOccupied(b, p, offsets) > 0 <==> HasOccupiedNeighbor(b, p, offsets)
    decreases |offsets|
  {
    if offsets != [] {
      var init := offsets[..|offsets| - 1];
      CountOccupiedPositive(b, p, init);
      if HasOccupiedNeighbor(b, p, init) {
        var t :| 0 <= t < |init| && IsOccupied(b, Next(p, init[t]));
        assert offsets[t] == init[t];
      }
      if HasOccupiedNeighbor(b, p, offsets) && !IsOccupied(b, Next(p, offsets[|offsets| - 1])) {
        var t :| 0 <= t < |offsets| && IsOccupied(b, Next(p, offsets[t]));
        assert init[t] == offsets[t];
      }
    }
  }

  /** `num_of_neighbors`: the stones among the eight surrounding cells. */
  method NumOfNeighbors(b: Board, i: int, j: int) returns (neighborsSum: int)
    requires IsSquare(b)
    ensures neighborsSum == CountOccupied(b, Pos(i, j), Ring)
    ensures 0 <= neighborsSum <= 8
  {
    var n := |b|;
    neighborsSum := 0;
    for t := 0 to |Ring|
      invariant neighborsSum == CountOccupied(b, Pos(i, j), Ring[..t])
    {
      assert Ring[..t + 1][..t] == Ring[..t];
      var ni := i + Ring[t].dr;
      var nj := j + Ring[t].dc;
      if 0 <= ni < n && 0 <= nj < n {
        if b[ni][nj] != Empty {
          neighborsSum := neighborsSum + 1;
        }
      }
    }
    assert Ring[..|Ring|] == Ring;
  }

  /** The neighbour score of a cell: its stone neighbours when it is empty, 0 when it is taken. */
  function NeighborScore(b: Board, p: Pos): int {
    if IsEmptyAt(b, p) then CountOccupied(b, p, Ring) else 0
  }

  /** A neighbour score is between 0 and 8, and positive exactly on the border cells. */
  lemma NeighborScoreSpec(b: Board, p: Pos)
    ensures 0 <= NeighborScore(b, p) <= 8
    ensures NeighborScore(b, p) > 0 <==> IsBorderCell(b, p, 1)
  {
    CountOccupiedPositive(b, p, Ring);
  }

  /** `neighbors_heuristic`: the neighbour score grid, and whether the board has no stone. */
  method NeighborsHeuristic(b: Board) returns (scores: Grid, emptyBoard: bool)
    requires IsSquare(b)
    ensures IsGrid(scores, |b|)
    ensures forall i, j :: 0 <= i < |b| && 0 <= j < |b| ==> scores[i][j] == NeighborScore(b, Pos(i, j))
    ensures emptyBoard <==> Stoneless(b)
  {
    var n := |b|;
    scores := ZeroGrid(n);
    emptyBoard := true;
    for i := 0 to n
      invariant IsGrid(scores, n)
      invariant forall r, c :: 0 <= r < n && 0 <= c < n ==>
        scores[r][c] == (if r < i then NeighborScore(b, Pos(r, c)) else 0)
      invariant emptyBoard <==> forall r, c :: 0 <= r < i && 0 <= c < n ==> b[r][c] == Empty
    {
      for j := 0 to n
        invariant IsGrid(scores, n)
        invariant forall r, c :: 0 <= r < n && 0 <= c < n ==>
          scores[r][c] == (if r < i || (r == i && c < j) then NeighborScore(b, Pos(r, c)) else 0)
        invariant emptyBoard <==> forall r, c :: (0 <= r < i && 0 <= c < n) || (r == i && 0 <= c < j) ==> b[r][c] == Empty
      {
        if b[i][j] == Empty {
          var count := NumOfNeighbors(b, i, j);
          scores := scores[i := scores[i][j := count]];
        } else {
          emptyBoard := false;
        }
      }
    }
  }

  /** `10 ** e` for a natural exponent. */
  function Pow10(e: nat): (r: nat)
    ensures r >= 1
  {
    if e == 0 then 1 else 10 * Pow10(e - 1)
  }

  /**
   * `int(10 ** (consec - 1))`: no run scores 0 (a tenth, truncated), a run of
   * `consec` stones scores 10 to the power `consec - 1`.
   */
  function RunScore(consec: nat): (r: nat)
    ensures r > 0 <==> consec > 0
  {
    if consec == 0 then 0 else Pow10(consec - 1)
  }

  /** The stones of `target` adjacent to `p` on both sides along `d`. */
  function DirectionRun(b: Board, p: Pos, d: Dir, target: Color): nat
    requires IsUnitDir(d)
  {
    Ray(b, Next(p, d), d, Stone(target)) + Ray(b, Next(p, Neg(d)), Neg(d), Stone(target))
  }

  /** One walk of `sequence_found_in_direction`: the `target` stones from `start` on, stepping by `d`. */
  method WalkRun(b: Board, start: Pos, d: Dir, target: Color) returns (consec: nat)
    requires IsSquare(b) && IsUnitDir(d)
    ensures consec == Ray(b, start, d, Stone(target))
  {
    var n := |b|;
    consec := 0;
    var i, j := start.row, start.col;
    while 0 <= i < n && 0 <= j < n && b[i][j] == Stone(target)
      invariant consec + Ray(b, Pos(i, j), d, Stone(target)) == Ray(b, start, d, Stone(target))
      decreases RayMeasure(b, Pos(i, j), d)
    {
      consec := consec + 1;
      i := i + d.dr;
      j := j + d.dc;
    }
  }

  /** `sequence_found_in_direction`: the walks forward and backward from (row, col), scored. */
  method SequenceFoundInDirection(b: Board, row: int, col: int, d: Dir, target: Color) returns (score: int)
    requires IsSquare(b) && IsUnitDir(d)
    ensures score == RunScore(DirectionRun(b, Pos(row, col), d, target))
  {
    var forward := WalkRun(b, Next(Pos(row, col), d), d, target);
    var backward := WalkRun(b, Next(Pos(row, col), Neg(d)), Neg(d), target);
    var consec := forward + backward;
    score := if consec == 0 then 0 else Pow10(consec - 1);
  }

  /** The four directions `evaluate_position` looks along. */
  const ScoreDirs: seq<Dir> := [Dir(0, 1), Dir(1, 0), Dir(1, 1), Dir(1, -1)]

  function DirsScore(b: Board, p: Pos, target: Color, dirs: seq<Dir>): (r: nat)
    requires forall t :: 0 <= t < |dirs| ==> IsUnitDir(dirs[t])
  {
    if dirs == [] then 0
    else DirsScore(b, p, target, dirs[..|dirs| - 1]) + RunScore(DirectionRun(b, p, dirs[|dirs| - 1], target))
  }

  /** `evaluate_position`: the run scores of `target` around `p` in the four directions. */
  function PositionScore(b: Board, p: Pos, target: Color): nat {
    DirsScore(b, p, target, ScoreDirs)
  }

  method EvaluatePosition(b: Board, row: int, col: int, target: Color) returns (score: int)
    requires IsSquare(b)
    ensures score == PositionScore(b, Pos(row, col), target)
  {
    score := 0;
    for t := 0 to |ScoreDirs|
      invariant score == DirsScore(b, Pos(row, col), target, ScoreDirs[..t])
    {
      assert ScoreDirs[..t + 1][..t] == ScoreDirs[..t];
      var s := SequenceFoundInDirection(b, row, col, ScoreDirs[t], target);
      score := score + s;
    }
    assert ScoreDirs[..|ScoreDirs|] == ScoreDirs;
  }

  /** The offensive or defensive score of a cell: 0 when it is taken. */
  function HeuristicScore(b: Board, p: Pos, target: Color): nat {
    if IsEmptyAt(b, p) then PositionScore(b, p, target) else 0
  }

  /** The grid both `offensive_heuristic` and `defensive_heuristic` fill, for the stones of `target`. */
  method TargetScores(b: Board, target: Color) returns (scores: Grid)
    requires IsSquare(b)
    ensures IsGrid(scores, |b|)
    ensures forall i, j :: 0 <= i < |b| && 0 <= j < |b| ==> scores[i][j] == HeuristicScore(b, Pos(i, j), target)
  {
    var n := |b|;
    scores := ZeroGrid(n);
    for i := 0 to n
      invariant IsGrid(scores, n)
      invariant forall r, c :: 0 <= r < n && 0 <= c < n ==>
        scores[r][c] == (if r < i then HeuristicScore(b, Pos(r, c), target) else 0)
    {
      for j := 0 to n
        invariant IsGrid(scores, n)
        invariant forall r, c :: 0 <= r < n && 0 <= c < n ==>
          scores[r][c] == (if r < i || (r == i && c < j) then HeuristicScore(b, Pos(r, c), target) else 0)
      {
        if b[i][j] == Empty {
          var v := EvaluatePosition(b, i, j, target);
          scores := scores[i := scores[i][j := v]];
        }
      }
    }
  }

  /** `offensive_heuristic`: runs of the player's own stones next to each empty cell. */
  method OffensiveHeuristic(b: Board, color: Color) returns (scores: Grid)
    requires IsSquare(b)
    ensures IsGrid(scores, |b|)
    ensures forall i, j :: 0 <= i < |b| && 0 <= j < |b| ==> scores[i][j] == HeuristicScore(b, Pos(i, j), color)
  {
    scores := TargetScores(b, color);
  }

  /** `defensive_heuristic`: runs of the opponent's stones next to each empty cell. */
  method DefensiveHeuristic(b: Board, color: Color) returns (scores: Grid)
    requires IsSquare(b)
    ensures IsGrid(scores, |b|)
    ensures forall i, j :: 0 <= i < |b| && 0 <= j < |b| ==>
      scores[i][j] == HeuristicScore(b, Pos(i, j), Opponent(color))
  {
    var opColor := if color == White then Black else White;
    scores := TargetScores(b, opColor);
  }

  /* ---------------------------------------------------------------------- */
  /* Position scores: which cells attract a positive score                  */
  /* ---------------------------------------------------------------------- */

  /** A stone of `target` on one of the eight cells around `p`. */
  predicate AdjacentTo(b: Board, p: Pos, target: Color) {
    exists s :: 0 <= s < |Ring| && Matches(b, Next(p, Ring[s]), Stone(target))
  }

  /** A sum of direction scores is positive exactly when one of its runs is not empty. */
  lemma {:induction false} DirsScorePositive(b: Board, p: Pos, target: Color, dirs: seq<Dir>)
    requires forall t :: 0 <= t < |dirs| ==> IsUnitDir(dirs[t])
    ensures DirsScore(b, p, target, dirs) > 0 <==> exists t :: 0 <= t < |dirs| && DirectionRun(b, p, dirs[t], target) > 0
  {
    if dirs != [] {
      var init := dirs[..|dirs| - 1];
      DirsScorePositive(b, p, target, init);
      assert forall t :: 0 <= t < |init| ==> init[t] == dirs[t];
      if DirsScore(b, p, target, init) > 0 {
        var t :| 0 <= t < |init| && DirectionRun(b, p, init[t], target) > 0;
        assert DirectionRun(b, p, dirs[t], target) > 0;
      }
    }
  }

  /** A run along `d` is not empty exactly when a `target` stone sits right beside `p` on that line. */
  lemma DirectionRunPositive(b: Board, p: Pos, d: Dir, target: Color)
    requires IsUnitDir(d)
    ensures DirectionRun(b, p, d, target) > 0
        <==> Matches(b, Next(p, d), Stone(target)) || Matches(b, Next(p, Neg(d)), Stone(target))
  {
  }

  /** A `t` cell right beside `p` on the line through `p` along `d`. */
  predicate Beside(b: Board, p: Pos, d: Dir, t: Cell) {
    Matches(b, Next(p, d), t) || Matches(b, Next(p, Neg(d)), t)
  }

  lemma RunsBeside(b: Board, p: Pos, target: Color)
    ensures forall w :: 0 <= w < |ScoreDirs| ==>
      (DirectionRun(b, p, ScoreDirs[w], target) > 0 <==> Beside(b, p, ScoreDirs[w], Stone(target)))
  {
    forall w | 0 <= w < |ScoreDirs|
      ensures DirectionRun(b, p, ScoreDirs[w], target) > 0 <==> Beside(b, p, ScoreDirs[w], Stone(target))
    {
      DirectionRunPositive(b, p, ScoreDirs[w], target);
    }
  }

  /** The eight neighbours are the cells beside `p` along the four scoring directions. */
  lemma AdjacentBeside(b: Board, p: Pos, target: Color)
    ensures AdjacentTo(b, p, target) <==> exists w :: 0 <= w < |ScoreDirs| && Beside(b, p, ScoreDirs[w], Stone(target))
  {
    var t := Stone(target);
    if AdjacentTo(b, p, target) {
      var s :| 0 <= s < |Ring| && Matches(b, Next(p, Ring[s]), t);
      var w := if s == 0 || s == 1 then 1 else if s == 2 || s == 3 then 0 else if s == 4 || s == 7 then 2 else 3;
      assert Beside(b, p, ScoreDirs[w], t);
    }
    if exists w :: 0 <= w < |ScoreDirs| && Beside(b, p, ScoreDirs[w], t) {
      var w :| 0 <= w < |ScoreDirs| && Beside(b, p, ScoreDirs[w], t);
      var s := if Matches(b, Next(p, ScoreDirs[w]), t) then [3, 1, 7, 6][w] else [2, 0, 4, 5][w];
      assert Matches(b, Next(p, Ring[s]), t);
    }
  }

  /** A cell scores for `target` exactly when a `target` stone touches it. */
  lemma PositionScorePositive(b: Board, p: Pos, target: Color)
    ensures PositionScore(b, p, target) > 0 <==> AdjacentTo(b, p, target)
  {
    DirsScorePositive(b, p, target, ScoreDirs);
    RunsBeside(b, p, target);
    AdjacentBeside(b, p, target);
  }

  /** The score `mixed_heuristic` gives a cell: offence plus defence, times the neighbour count. */
  function CombinedScore(b: Board, color: Color, p: Pos): int {
    (HeuristicScore(b, p, color) + HeuristicScore(b, p, Opponent(color))) * NeighborScore(b, p)
  }

  /** A stone next to `p` is of one color or of the other. */
  lemma BorderTouchesSomeColor(b: Board, p: Pos, color: Color)
    requires IsBorderCell(b, p, 1)
    ensures AdjacentTo(b, p, color) || AdjacentTo(b, p, Opponent(color))
  {
    var s :| 0 <= s < |Ring| && IsOccupied(b, Next(p, Ring[s]));
    var q := Next(p, Ring[s]);
    if b[q.row][q.col] == Stone(color) {
      assert Matches(b, Next(p, Ring[s]), Stone(color));
    } else {
      assert Matches(b, Next(p, Ring[s]), Stone(Opponent(color)));
    }
  }

  /** The combined score is positive exactly on the empty cells next to a stone. */
  lemma CombinedPositive(b: Board, color: Color, p: Pos)
    ensures CombinedScore(b, color, p) >= 0
    ensures CombinedScore(b, color, p) > 0 <==> IsBorderCell(b, p, 1)
  {
    var attack := HeuristicScore(b, p, color) + HeuristicScore(b, p, Opponent(color));
    var neighbors := NeighborScore(b, p);
    NeighborScoreSpec(b, p);
    ProductSign(attack, neighbors);
    assert CombinedScore(b, color, p) == attack * neighbors;
    if IsBorderCell(b, p, 1) {
      BorderAttacked(b, color, p);
    }
  }

  /** A border cell scores for one colour or the other. */
  lemma BorderAttacked(b: Board, color: Color, p: Pos)
    requires IsBorderCell(b, p, 1)
    ensures HeuristicScore(b, p, color) + HeuristicScore(b, p, Opponent(color)) > 0
  {
    BorderTouchesSomeColor(b, p, color);
    PositionScorePositive(b, p, color);
    PositionScorePositive(b, p, Opponent(color));
  }

  /** The sign of a product of two non-negative numbers. */
  lemma ProductSign(x: int, y: int)
    requires x >= 0 && y >= 0
    ensures x * y >= 0
    ensures x * y > 0 <==> x > 0 && y > 0
  {
    if x > 0 && y > 0 {
      assert x * y >= 1 * y;
    }
  }

  /* ---------------------------------------------------------------------- */
  /* get_top_k_moves                                                        */
  /* ---------------------------------------------------------------------- */

  /** An entry of the heap of `get_top_k_moves`: the negated jittered score, then the cell. */
  datatype HeapEntry = HeapEntry(key: int, pos: Pos)

  /** Python's order on the entry tuples: by key, then by (row, col). */
  predicate EntryBefore(x: HeapEntry, y: HeapEntry) {
    x.key < y.key || (x.key == y.key && Before(x.pos, y.pos))
  }

  lemma EntryTotal(x: HeapEntry, y: HeapEntry)
    requires x.pos != y.pos
    ensures EntryBefore(x, y) || EntryBefore(y, x)
  {
  }

  function ScoreAt(g: Grid, p: Pos): int {
    if 0 <= p.row < |g| && 0 <= p.col < |g[p.row]| then g[p.row][p.col] else 0
  }

  predicate IsPositive(g: Grid, p: Pos) {
    0 <= p.row < |g| && 0 <= p.col < |g[p.row]| && g[p.row][p.col] > 0
  }

  function PositiveTest(g: Grid): Pos -> bool {
    p => IsPositive(g, p)
  }

  /** The cells with a positive score, in the row-major order they are pushed. */
  function Positives(g: Grid): seq<Pos> {
    AllCells(|g|, PositiveTest(g))
  }

  /** The entry pushed for cell `p`, with the jitter `jitter(p)` drawn for it. */
  function EntryOf(g: Grid, jitter: Pos -> real, p: Pos): HeapEntry {
    HeapEntry(-AddRandomNoise(ScoreAt(g, p), jitter(p)), p)
  }

  /** The first loop of `get_top_k_moves`: one entry per positive cell, in row-major order. */
  method PushPositive(g: Grid, jitter: Pos -> real) returns (moves: seq<HeapEntry>)
    requires IsGrid(g, |g|)
    ensures |moves| == |Positives(g)|
    ensures forall t :: 0 <= t < |moves| ==> moves[t] == EntryOf(g, jitter, Positives(g)[t])
  {
    var n := |g|;
    moves := [];
    for i := 0 to n
      invariant |moves| == |Scan(n, PositiveTest(g), i, 0)|
      invariant forall t :: 0 <= t < |moves| ==> moves[t] == EntryOf(g, jitter, Scan(n, PositiveTest(g), i, 0)[t])
    {
      for j := 0 to n
        invariant |moves| == |Scan(n, PositiveTest(g), i, j)|
        invariant forall t :: 0 <= t < |moves| ==> moves[t] == EntryOf(g, jitter, Scan(n, PositiveTest(g), i, j)[t])
      {
        if g[i][j] > 0 {
          var noisy := AddRandomNoise(g[i][j], jitter(Pos(i, j)));
          moves := moves + [HeapEntry(-noisy, Pos(i, j))];
        }
      }
    }
  }

  predicate DistinctCells(heap: seq<HeapEntry>) {
    forall s, t :: 0 <= s < t < |heap| ==> heap[s].pos != heap[t].pos
  }

  /** `heapq.heappop`: removes and returns the least entry. */
  method PopMin(heap: seq<HeapEntry>) returns (least: HeapEntry, rest: seq<HeapEntry>)
    requires |heap| > 0 && DistinctCells(heap)
    ensures least in heap && least !in rest
    ensures forall x :: x in heap <==> x == least || x in rest
    ensures forall x :: x in rest ==> EntryBefore(least, x)
    ensures |rest| == |heap| - 1 && DistinctCells(rest)
  {
    var m := 0;
    for t := 1 to |heap|
      invariant 0 <= m < t
      invariant forall s :: 0 <= s < t && s != m ==> EntryBefore(heap[m], heap[s])
    {
      EntryTotal(heap[t], heap[m]);
      if EntryBefore(heap[t], heap[m]) {
        m := t;
      }
    }
    least := heap[m];
    rest := heap[..m] + heap[m + 1..];
    assert forall s :: 0 <= s < |rest| ==> rest[s] == (if s < m then heap[s] else heap[s + 1]);
    forall x | x in heap ensures x == least || x in rest {
      var s :| 0 <= s < |heap| && heap[s] == x;
      if s < m {
        assert rest[s] == x;
      } else if s > m {
        assert rest[s - 1] == x;
      }
    }
  }

  function Max(a: int, b: int): int {
    if a >= b then a else b
  }

  /**
   * `get_top_k_moves`: the cells with a positive score, best jittered score
   * first, ties to the smaller (row, col); at most `k` of them, and every cell
   * left out ranks after every cell returned.
   */
  method GetTopKMoves(combinedScores: Grid, k: int, jitter: Pos -> real) returns (topKMoves: seq<Pos>)
    requires IsGrid(combinedScores, |combinedScores|)
    ensures |topKMoves| == Max(0, Min(k, |Positives(combinedScores)|))
    ensures forall a :: 0 <= a < |topKMoves| ==> IsPositive(combinedScores, topKMoves[a])
    ensures forall a, c :: 0 <= a < c < |topKMoves| ==>
      EntryBefore(EntryOf(combinedScores, jitter, topKMoves[a]), EntryOf(combinedScores, jitter, topKMoves[c]))
    ensures forall q, a :: IsPositive(combinedScores, q) && q !in topKMoves && 0 <= a < |topKMoves| ==>
      EntryBefore(EntryOf(combinedScores, jitter, topKMoves[a]), EntryOf(combinedScores, jitter, q))
  {
    var moves := PushPositive(combinedScores, jitter);
    ghost var positives := Positives(combinedScores);
    PositivesSpec(combinedScores);
    assert DistinctCells(moves) by {
      OrderedIsDistinct(positives);
    }
    ghost var all := moves;
    topKMoves := [];
    ghost var chosen: seq<HeapEntry> := [];
    var count := Min(k, |moves|);
    var popped := 0;
    while popped < count
      invariant |chosen| == |topKMoves| == popped <= Max(0, count)
      invariant |moves| == |all| - popped && DistinctCells(moves)
      invariant forall x :: x in all <==> x in moves || x in chosen
      invariant forall x :: x in chosen ==> x !in moves
      invariant forall a :: 0 <= a < popped ==> topKMoves[a] == chosen[a].pos
      invariant forall a, c :: 0 <= a < c < popped ==> EntryBefore(chosen[a], chosen[c])
      invariant forall a, x :: 0 <= a < popped && x in moves ==> EntryBefore(chosen[a], x)
    {
      var least, rest := PopMin(moves);
      moves := rest;
      topKMoves := topKMoves + [least.pos];
      chosen := chosen + [least];
      popped := popped + 1;
    }
    TopKConclusion(combinedScores, jitter, all, chosen, topKMoves);
  }

  lemma PositivesSpec(g: Grid)
    ensures forall p :: p in Positives(g) <==> IsPositive(g, p) && 0 <= p.col < |g|
    ensures StrictlyOrdered(Positives(g))
  {
    AllCellsSpec(|g|, PositiveTest(g));
  }

  /** What the pop loop leaves, stated back in terms of cells. */
  lemma TopKConclusion(g: Grid, jitter: Pos -> real, all: seq<HeapEntry>, chosen: seq<HeapEntry>, cells: seq<Pos>)
    requires IsGrid(g, |g|)
    requires |all| == |Positives(g)|
    requires forall t :: 0 <= t < |all| ==> all[t] == EntryOf(g, jitter, Positives(g)[t])
    requires |chosen| == |cells| && forall a :: 0 <= a < |cells| ==> cells[a] == chosen[a].pos
    requires forall x :: x in chosen ==> x in all
    requires forall a, c :: 0 <= a < c < |chosen| ==> EntryBefore(chosen[a], chosen[c])
    requires forall a, x :: 0 <= a < |chosen| && x in all && x !in chosen ==> EntryBefore(chosen[a], x)
    ensures forall a :: 0 <= a < |cells| ==> IsPositive(g, cells[a]) && chosen[a] == EntryOf(g, jitter, cells[a])
    ensures forall q, a :: IsPositive(g, q) && q !in cells && 0 <= a < |cells| ==>
      EntryBefore(EntryOf(g, jitter, cells[a]), EntryOf(g, jitter, q))
  {
    PositivesSpec(g);
    forall a | 0 <= a < |cells| ensures IsPositive(g, cells[a]) && chosen[a] == EntryOf(g, jitter, cells[a]) {
      assert chosen[a] in all;
      var t :| 0 <= t < |all| && all[t] == chosen[a];
      assert Positives(g)[t] in Positives(g);
    }
    forall q, a | IsPositive(g, q) && q !in cells && 0 <= a < |cells|
      ensures EntryBefore(EntryOf(g, jitter, cells[a]), EntryOf(g, jitter, q))
    {
      assert q in Positives(g);
      var t :| 0 <= t < |Positives(g)| && Positives(g)[t] == q;
      var x := all[t];
      assert x in all;
      assert forall c :: 0 <= c < |chosen| ==> chosen[c] != x by {
        assert forall c :: 0 <= c < |chosen| ==> cells[c] != q;
      }
    }
  }

  /* ---------------------------------------------------------------------- */
  /* mixed_heuristic                                                        */
  /* ---------------------------------------------------------------------- */

  /** The grid of combined scores `mixed_heuristic` ranks. */
  function CombinedGrid(b: Board, color: Color): (g: Grid)
    ensures IsGrid(g, |b|)
    ensures forall i, j :: 0 <= i < |b| && 0 <= j < |b| ==> g[i][j] == CombinedScore(b, color, Pos(i, j))
  {
    seq(|b|, i => seq(|b|, j => CombinedScore(b, color, Pos(i, j))))
  }

  /** The rank of a cell: its combined score with the jitter drawn for it, then its position. */
  function MoveRank(b: Board, color: Color, jitter: Pos -> real, p: Pos): HeapEntry {
    HeapEntry(-AddRandomNoise(CombinedScore(b, color, p), jitter(p)), p)
  }

  /** The cells worth ranking are exactly the border cells at distance one. */
  lemma CombinedGridPositives(b: Board, color: Color)
    requires IsSquare(b)
    ensures Positives(CombinedGrid(b, color)) == BorderCells(b, 1)
  {
    var g := CombinedGrid(b, color);
    forall p: Pos | InBounds(p.row, p.col, |b|, |b|) ensures PositiveTest(g)(p) == BorderTest(b, 1)(p) {
      CombinedPositive(b, color, p);
    }
    AllCellsAgree(|b|, PositiveTest(g), BorderTest(b, 1));
  }

  /** The loop of `mixed_heuristic` that multiplies the three grids cell by cell. */
  method CombineScores(b: Board, color: Color, offensive: Grid, defensive: Grid, neighbors: Grid)
    returns (combined: Grid)
    requires IsSquare(b) && IsGrid(offensive, |b|) && IsGrid(defensive, |b|) && IsGrid(neighbors, |b|)
    requires forall i, j :: 0 <= i < |b| && 0 <= j < |b| ==>
      offensive[i][j] == HeuristicScore(b, Pos(i, j), color)
      && defensive[i][j] == HeuristicScore(b, Pos(i, j), Opponent(color))
      && neighbors[i][j] == NeighborScore(b, Pos(i, j))
    ensures combined == CombinedGrid(b, color)
  {
    var n := |b|;
    combined := ZeroGrid(n);
    for i := 0 to n
      invariant IsGrid(combined, n)
      invariant forall r, c :: 0 <= r < n && 0 <= c < n ==>
        combined[r][c] == (if r < i then (offensive[r][c] + defensive[r][c]) * neighbors[r][c] else 0)
    {
      combined := CombineRow(offensive, defensive, neighbors, combined, n, i);
    }
    ProductsAreCombined(b, color, offensive, defensive, neighbors, combined);
  }

  /** The inner loop of the multiplication: row `i` of the combined grid gets its products. */
  method CombineRow(offensive: Grid, defensive: Grid, neighbors: Grid, combined: Grid, n: nat, i: nat)
    returns (next: Grid)
    requires IsGrid(offensive, n) && IsGrid(defensive, n) && IsGrid(neighbors, n) && IsGrid(combined, n) && i < n
    requires forall r, c :: 0 <= r < n && 0 <= c < n ==>
      combined[r][c] == (if r < i then (offensive[r][c] + defensive[r][c]) * neighbors[r][c] else 0)
    ensures IsGrid(next, n)
    ensures forall r, c :: 0 <= r < n && 0 <= c < n ==>
      next[r][c] == (if r < i + 1 then (offensive[r][c] + defensive[r][c]) * neighbors[r][c] else 0)
  {
    next := combined;
    for j := 0 to n
      invariant IsGrid(next, n)
      invariant forall r, c :: 0 <= r < n && 0 <= c < n ==>
        next[r][c] == (if r < i || (r == i && c < j) then (offensive[r][c] + defensive[r][c]) * neighbors[r][c] else 0)
    {
      next := next[i := next[i][j := (offensive[i][j] + defensive[i][j]) * neighbors[i][j]]];
    }
  }

  lemma ProductsAreCombined(b: Board, color: Color, offensive: Grid, defensive: Grid, neighbors: Grid, combined: Grid)
    requires IsSquare(b) && IsGrid(offensive, |b|) && IsGrid(defensive, |b|) && IsGrid(neighbors, |b|)
    requires IsGrid(combined, |b|)
    requires forall i, j :: 0 <= i < |b| && 0 <= j < |b| ==>
      offensive[i][j] == HeuristicScore(b, Pos(i, j), color)
      && defensive[i][j] == HeuristicScore(b, Pos(i, j), Opponent(color))
      && neighbors[i][j] == NeighborScore(b, Pos(i, j))
    requires forall i, j :: 0 <= i < |b| && 0 <= j < |b| ==>
      combined[i][j] == (offensive[i][j] + defensive[i][j]) * neighbors[i][j]
    ensures combined == CombinedGrid(b, color)
  {
    GridsEqual(combined, CombinedGrid(b, color), |b|);
  }

  lemma GridsEqual(g: Grid, h: Grid, n: nat)
    requires IsGrid(g, n) && IsGrid(h, n)
    requires forall i, j :: 0 <= i < n && 0 <= j < n ==> g[i][j] == h[i][j]
    ensures g == h
  {
    forall i | 0 <= i < n ensures g[i] == h[i] {
    }
  }

  /**
   * `mixed_heuristic`: on a board with no stone, the centre cell; otherwise at
   * most `k` of the empty cells next to a stone, best combined score first.
   */
  method MixedHeuristic(b: Board, color: Color, k: int, jitter: Pos -> real) returns (moves: seq<Pos>)
    requires IsSquare(b)
    ensures Stoneless(b) ==> moves == [Pos(|b| / 2, |b| / 2)]
    ensures !Stoneless(b) ==> |moves| == Max(0, Min(k, |BorderCells(b, 1)|))
    ensures !Stoneless(b) ==> forall a :: 0 <= a < |moves| ==> IsBorderCell(b, moves[a], 1)
    ensures !Stoneless(b) ==> forall a, c :: 0 <= a < c < |moves| ==>
      EntryBefore(MoveRank(b, color, jitter, moves[a]), MoveRank(b, color, jitter, moves[c]))
    ensures !Stoneless(b) ==> forall q, a :: IsBorderCell(b, q, 1) && q !in moves && 0 <= a < |moves| ==>
      EntryBefore(MoveRank(b, color, jitter, moves[a]), MoveRank(b, color, jitter, q))
  {
    var n := |b|;
    var offensive := OffensiveHeuristic(b, color);
    var defensive := DefensiveHeuristic(b, color);
    var neighbors, emptyBoard := NeighborsHeuristic(b);
    if emptyBoard {
      return [Pos(n / 2, n / 2)];
    }
    var combined := CombineScores(b, color, offensive, defensive, neighbors);
    moves := GetTopKMoves(combined, k, jitter);
    CombinedGridPositives(b, color);
    RankIsEntry(b, color, jitter);
  }

  /** On the board, the rank of a cell is its heap entry in the combined grid. */
  lemma RankIsEntry(b: Board, color: Color, jitter: Pos -> real)
    requires IsSquare(b)
    ensures forall p :: IsPositive(CombinedGrid(b, color), p) ==>
      EntryOf(CombinedGrid(b, color), jitter, p) == MoveRank(b, color, jitter, p)
    ensures forall p :: IsBorderCell(b, p, 1) ==> IsPositive(CombinedGrid(b, color), p)
    ensures forall p :: IsPositive(CombinedGrid(b, color), p) ==> IsBorderCell(b, p, 1)
  {
    forall p | IsBorderCell(b, p, 1) || IsPositive(CombinedGrid(b, color), p)
      ensures IsBorderCell(b, p, 1) <==> IsPositive(CombinedGrid(b, color), p)
    {
      CombinedPositive(b, color, p);
    }
  }
}
