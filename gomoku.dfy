/**
 * The game object of the Gomoku application (src/Gomuko.py): a 15 × 15 board,
 * the player to move, the game-over flag, the winner and the statistics
 * counters, with the move, win-check, valid-move and "potential win spot"
 * bookkeeping. Drawing, scheduling of turns and the result files are not part
 * of this model.
 */
module Game {
  import opened Outcomes
  import opened BoardModel

  const BoardSize: nat := 15

  /* ---------------------------------------------------------------------- */
  /* check_win: the count through the placed cell                           */
  /* ---------------------------------------------------------------------- */

  /**
   * One walk of `check_win`: up to four cells from `p` along `d` equal to
   * `player`, stopping at the first cell that differs or is off the board.
   * The source's `row + dr * i` and `row - dr * i` are the cells `i` steps
   * along `d` and along its opposite (`ScaledStep`).
   */
  method WalkSide(b: Board, p: Pos, d: Dir, player: Cell) returns (steps: nat)
    requires IsSquare(b) && IsUnitDir(d)
    ensures steps == Cap4(Ray(b, Next(p, d), d, player))
  {
    var n := |b|;
    var i := 1;
    var q := Along(p, d, 1);
    while i < 5 && 0 <= q.row < n && 0 <= q.col < n && b[q.row][q.col] == player
      invariant 1 <= i <= 5 && q == Along(p, d, i)
      invariant forall k :: 1 <= k < i ==> Matches(b, Along(p, d, k), player)
    {
      i := i + 1;
      q := Along(p, d, i);
    }
    SideWalk(b, p, d, player, i);
    steps := i - 1;
  }

  /** The count of `check_win` along `d`: the placed cell and both walks. */
  method CountThrough(b: Board, p: Pos, d: Dir, player: Cell) returns (count: nat)
    requires IsSquare(b) && IsUnitDir(d)
    ensures count == LineCount(b, p, d, player)
  {
    var forward := WalkSide(b, p, d, player);
    var backward := WalkSide(b, p, Neg(d), player);
    count := 1 + forward + backward;
  }

  /* ---------------------------------------------------------------------- */
  /* is_valid_continuous_sequence and find_potential_win_spots              */
  /* ---------------------------------------------------------------------- */

  /** Two different values together occupy at most every cell of a line. */
  lemma {:induction false} CountsFit(line: seq<Cell>, x: Cell, y: Cell)
    requires x != y
    ensures CountInRow(line, x) + CountInRow(line, y) <= |line|
    decreases |line|
  {
    if line != [] {
      CountsFit(line[1..], x, y);
    }
  }

  /**
   * `is_valid_continuous_sequence`: four stones of `opponent` and one empty
   * cell, and one of the first five cells empty.
   */
  function IsValidContinuousSequence(line: seq<Cell>, opponent: Color): bool {
    if CountInRow(line, Stone(opponent)) == 4 && CountInRow(line, Empty) == 1 then
      CountsFit(line, Stone(opponent), Empty);
      line[0] == Empty || line[1] == Empty || line[2] == Empty || line[3] == Empty || line[4] == Empty
    else
      false
  }

  /** `line.index(None)`: the first empty cell, or the length when there is none. */
  function FirstEmpty(line: seq<Cell>): (r: nat)
    ensures r <= |line|
    ensures r < |line| ==> line[r] == Empty
    ensures forall k :: 0 <= k < r ==> line[k] != Empty
  {
    if line == [] then 0
    else if line[0] == Empty then 0
    else 1 + FirstEmpty(line[1..])
  }

  lemma {:induction false} EmptyFound(line: seq<Cell>)
    requires CountInRow(line, Empty) > 0
    ensures FirstEmpty(line) < |line|
    decreases |line|
  {
    if line[0] != Empty {
      EmptyFound(line[1..]);
    }
  }

  /**
   * On a window of five the second test is implied by the first: the check
   * accepts four stones and one gap wherever the gap is, split fours included.
   */
  lemma ContiguityNotChecked(line: seq<Cell>, opponent: Color)
    requires |line| == 5
    ensures IsValidContinuousSequence(line, opponent)
        <==> CountInRow(line, Stone(opponent)) == 4 && CountInRow(line, Empty) == 1
  {
    if CountInRow(line, Empty) == 1 {
      EmptyFound(line);
      var e := FirstEmpty(line);
      assert line[e] == Empty;
    }
  }

  /**
   * On a window of five that passes the test, every cell but the first empty
   * one holds a stone of `opponent`: a stone there completes five.
   */
  lemma GapCompletesFive(line: seq<Cell>, opponent: Color)
    requires |line| == 5 && IsValidContinuousSequence(line, opponent)
    ensures FirstEmpty(line) < 5 && line[FirstEmpty(line)] == Empty
    ensures forall k :: 0 <= k < 5 && k != FirstEmpty(line) ==> line[k] == Stone(opponent)
  {
    EmptyFound(line);
    var e := FirstEmpty(line);
    forall k | 0 <= k < 5 && k != e ensures line[k] == Stone(opponent) {
      if line[k] == Empty {
        TwoOccurrences(line, e, k, Empty);
      } else if line[k] != Stone(opponent) {
        OtherCellCosts(line, k, Stone(opponent), Empty);
      }
    }
  }

  lemma {:induction false} TwoOccurrences(line: seq<Cell>, i: nat, j: nat, x: Cell)
    requires i < |line| && j < |line| && i != j && line[i] == x && line[j] == x
    ensures CountInRow(line, x) >= 2
    decreases |line|
  {
    if i > 0 && j > 0 {
      TwoOccurrences(line[1..], i - 1, j - 1, x);
    } else {
      var k := if i == 0 then j else i;
      OneOccurrence(line[1..], k - 1, x);
    }
  }

  lemma {:induction false} OneOccurrence(line: seq<Cell>, i: nat, x: Cell)
    requires i < |line| && line[i] == x
    ensures CountInRow(line, x) >= 1
    decreases i
  {
    if i > 0 {
      OneOccurrence(line[1..], i - 1, x);
    }
  }

  /** A cell holding neither `x` nor `y` leaves one cell fewer for the two of them. */
  lemma {:induction false} OtherCellCosts(line: seq<Cell>, k: nat, x: Cell, y: Cell)
    requires x != y && k < |line| && line[k] != x && line[k] != y
    ensures CountInRow(line, x) + CountInRow(line, y) < |line|
    decreases k
  {
    if k == 0 {
      CountsFit(line[1..], x, y);
    } else {
      OtherCellCosts(line[1..], k - 1, x, y);
    }
  }

  /** The four groups of windows `find_potential_win_spots` scans, in its order. */
  datatype Section = Rows | Columns | Diagonals | AntiDiagonals

  function SectionDir(s: Section): (d: Dir)
    ensures IsUnitDir(d)
  {
    match s
    case Rows => Dir(0, 1)
    case Columns => Dir(1, 0)
    case Diagonals => Dir(1, 1)
    case AntiDiagonals => Dir(-1, 1)
  }

  /** `range(n - 4)`: the number of windows of five along a line of `n` cells. */
  function InnerCount(n: nat): nat {
    if n >= 4 then n - 4 else 0
  }

  /** The number of outer iterations of a section. */
  function OuterCount(s: Section, n: nat): nat {
    match s
    case Rows => n
    case Columns => n
    case Diagonals => InnerCount(n)
    case AntiDiagonals => InnerCount(n)
  }

  /** The first cell of the window visited at outer index `ij.row` and inner index `ij.col`. */
  function StartOf(s: Section, ij: Pos): Pos {
    match s
    case Rows => ij
    case Columns => Pos(ij.col, ij.row)
    case Diagonals => ij
    case AntiDiagonals => Pos(ij.row + 4, ij.col)
  }

  function CellAt(b: Board, p: Pos): Cell {
    if OnBoard(b, p) then b[p.row][p.col] else Empty
  }

  /** The five cells from `q` along `d`. */
  function Window(b: Board, q: Pos, d: Dir): (line: seq<Cell>)
    ensures |line| == 5
  {
    seq(5, k => CellAt(b, Along(q, d, k)))
  }

  /** All five cells of the window from `q` along `d` lie on an n × n board. */
  predicate FitsWindow(n: nat, q: Pos, d: Dir) {
    forall k :: 0 <= k < 5 ==> InBounds(Along(q, d, k).row, Along(q, d, k).col, n, n)
  }

  function ThreatTest(b: Board, opponent: Color, s: Section): Pos -> bool {
    ij => IsValidContinuousSequence(Window(b, StartOf(s, ij), SectionDir(s)), opponent)
  }

  /** The cell appended for a window that passes the test: its first empty cell. */
  function SpotOf(b: Board, s: Section, ij: Pos): Pos {
    var q := StartOf(s, ij);
    Along(q, SectionDir(s), FirstEmpty(Window(b, q, SectionDir(s))))
  }

  function Spots(b: Board, s: Section, ijs: seq<Pos>): (spots: seq<Pos>)
    ensures |spots| == |ijs|
  {
    if ijs == [] then [] else Spots(b, s, ijs[..|ijs| - 1]) + [SpotOf(b, s, ijs[|ijs| - 1])]
  }

  lemma {:induction false} SpotsAt(b: Board, s: Section, ijs: seq<Pos>)
    ensures forall k :: 0 <= k < |ijs| ==> Spots(b, s, ijs)[k] == SpotOf(b, s, ijs[k])
  {
    if ijs != [] {
      var init := ijs[..|ijs| - 1];
      SpotsAt(b, s, init);
      assert forall k :: 0 <= k < |init| ==> init[k] == ijs[k];
    }
  }

  /** The windows of one section that pass the test, in the order the loops visit them. */
  function SectionWindows(b: Board, opponent: Color, s: Section): seq<Pos> {
    Scan(InnerCount(|b|), ThreatTest(b, opponent, s), OuterCount(s, |b|), 0)
  }

  /** One more inner step of a scan appends the spot of the visited window when it passes. */
  lemma SpotsStep(b: Board, s: Section, n: nat, test: Pos -> bool, i: nat, j: nat)
    ensures Spots(b, s, Scan(n, test, i, j + 1))
         == Spots(b, s, Scan(n, test, i, j)) + (if test(Pos(i, j)) then [SpotOf(b, s, Pos(i, j))] else [])
  {
    var scanned := Scan(n, test, i, j);
    var next := Scan(n, test, i, j + 1);
    if test(Pos(i, j)) {
      assert next == scanned + [Pos(i, j)];
      assert next[..|next| - 1] == scanned;
    } else {
      assert next == scanned;
    }
  }

  /** One of the four loop nests of `find_potential_win_spots`. */
  method ScanSection(b: Board, opponent: Color, s: Section) returns (spots: seq<Pos>)
    ensures spots == Spots(b, s, SectionWindows(b, opponent, s))
  {
    spots := [];
    for i := 0 to OuterCount(s, |b|)
      invariant spots == Spots(b, s, Scan(InnerCount(|b|), ThreatTest(b, opponent, s), i, 0))
    {
      spots := ScanSectionLine(b, opponent, s, i, spots);
    }
  }

  /** The inner loop of a section: the spots of the windows visited with outer index `i`. */
  method ScanSectionLine(b: Board, opponent: Color, s: Section, i: nat, spots: seq<Pos>) returns (next: seq<Pos>)
    requires spots == Spots(b, s, Scan(InnerCount(|b|), ThreatTest(b, opponent, s), i, 0))
    ensures next == Spots(b, s, Scan(InnerCount(|b|), ThreatTest(b, opponent, s), i + 1, 0))
  {
    var n := |b|;
    var d := SectionDir(s);
    ghost var test := ThreatTest(b, opponent, s);
    next := spots;
    for j := 0 to InnerCount(n)
      invariant next == Spots(b, s, Scan(InnerCount(n), test, i, j))
    {
      var q := StartOf(s, Pos(i, j));
      var line := Window(b, q, d);
      SpotsStep(b, s, InnerCount(n), test, i, j);
      assert test(Pos(i, j)) == IsValidContinuousSequence(line, opponent);
      if IsValidContinuousSequence(line, opponent) {
        var emptySpot := FirstEmpty(line);
        next := next + [Along(q, d, emptySpot)];
      }
    }
    assert Scan(InnerCount(n), test, i + 1, 0) == Scan(InnerCount(n), test, i, InnerCount(n));
  }

  /** The loop indices that visit the window starting at `q` in section `s`. */
  function SectionIndex(s: Section, q: Pos): Pos {
    match s
    case Rows => q
    case Columns => Pos(q.col, q.row)
    case Diagonals => q
    case AntiDiagonals => Pos(q.row - 4, q.col)
  }

  /** A section's loops visit exactly the windows of its direction that fit on the board. */
  lemma SectionVisits(s: Section, n: nat, ij: Pos, q: Pos)
    ensures 0 <= ij.row < OuterCount(s, n) && 0 <= ij.col < InnerCount(n)
        ==> FitsWindow(n, StartOf(s, ij), SectionDir(s))
    ensures FitsWindow(n, q, SectionDir(s)) ==>
        StartOf(s, SectionIndex(s, q)) == q
        && 0 <= SectionIndex(s, q).row < OuterCount(s, n) && 0 <= SectionIndex(s, q).col < InnerCount(n)
  {
    if FitsWindow(n, q, SectionDir(s)) {
      assert InBounds(Along(q, SectionDir(s), 0).row, Along(q, SectionDir(s), 0).col, n, n);
      assert InBounds(Along(q, SectionDir(s), 4).row, Along(q, SectionDir(s), 4).col, n, n);
    }
  }

  /** A window of direction `d` that fits on the board and holds four stones of `opponent` and one gap. */
  predicate ThreatWindow(b: Board, q: Pos, d: Dir, opponent: Color) {
    FitsWindow(|b|, q, d) && IsValidContinuousSequence(Window(b, q, d), opponent)
  }

  /** `p` is the gap of such a window in one of the four scanned directions. */
  ghost predicate IsWinSpot(b: Board, p: Pos, opponent: Color) {
    SectionSpot(b, p, opponent, Rows) || SectionSpot(b, p, opponent, Columns)
    || SectionSpot(b, p, opponent, Diagonals) || SectionSpot(b, p, opponent, AntiDiagonals)
  }

  /** `p` is the gap of a threatening window of the direction of section `s`. */
  ghost predicate SectionSpot(b: Board, p: Pos, opponent: Color, s: Section) {
    exists q :: ThreatWindow(b, q, SectionDir(s), opponent)
      && p == Along(q, SectionDir(s), FirstEmpty(Window(b, q, SectionDir(s))))
  }

  /** The spot of a window the section keeps is the gap of a threatening window. */
  lemma KeptWindowIsThreat(b: Board, opponent: Color, s: Section, ij: Pos)
    requires ij in SectionWindows(b, opponent, s)
    ensures SectionSpot(b, SpotOf(b, s, ij), opponent, s)
  {
    var n := |b|;
    var d := SectionDir(s);
    ScanMembers(InnerCount(n), ThreatTest(b, opponent, s), OuterCount(s, n), 0);
    SectionVisits(s, n, ij, StartOf(s, ij));
    var q := StartOf(s, ij);
    assert ThreatWindow(b, q, d, opponent);
  }

  /** The window of every threat is kept by the section of its direction. */
  lemma ThreatWindowIsKept(b: Board, opponent: Color, s: Section, q: Pos)
    requires ThreatWindow(b, q, SectionDir(s), opponent)
    ensures SectionIndex(s, q) in SectionWindows(b, opponent, s)
    ensures SpotOf(b, s, SectionIndex(s, q)) == Along(q, SectionDir(s), FirstEmpty(Window(b, q, SectionDir(s))))
  {
    var n := |b|;
    ScanMembers(InnerCount(n), ThreatTest(b, opponent, s), OuterCount(s, n), 0);
    SectionVisits(s, n, SectionIndex(s, q), q);
  }

  lemma SectionSpotsSound(b: Board, opponent: Color, s: Section)
    ensures forall p :: p in Spots(b, s, SectionWindows(b, opponent, s)) ==> SectionSpot(b, p, opponent, s)
  {
    var ijs := SectionWindows(b, opponent, s);
    var spots := Spots(b, s, ijs);
    SpotsAt(b, s, ijs);
    forall p | p in spots ensures SectionSpot(b, p, opponent, s) {
      var k :| 0 <= k < |spots| && spots[k] == p;
      KeptWindowIsThreat(b, opponent, s, ijs[k]);
    }
  }

  /** The gap of a threatening window is among the spots its section reports. */
  lemma ThreatSpotListed(b: Board, opponent: Color, s: Section, q: Pos)
    requires ThreatWindow(b, q, SectionDir(s), opponent)
    ensures Along(q, SectionDir(s), FirstEmpty(Window(b, q, SectionDir(s)))) in Spots(b, s, SectionWindows(b, opponent, s))
  {
    ThreatWindowIsKept(b, opponent, s, q);
    SpotListed(b, s, SectionWindows(b, opponent, s), SectionIndex(s, q));
  }

  /** Every visited window contributes its spot to the list. */
  lemma SpotListed(b: Board, s: Section, ijs: seq<Pos>, ij: Pos)
    requires ij in ijs
    ensures SpotOf(b, s, ij) in Spots(b, s, ijs)
  {
    var k :| 0 <= k < |ijs| && ijs[k] == ij;
    SpotsAt(b, s, ijs);
    assert Spots(b, s, ijs)[k] == SpotOf(b, s, ij);
  }

  lemma SectionSpotsComplete(b: Board, opponent: Color, s: Section)
    ensures forall p :: SectionSpot(b, p, opponent, s) ==> p in Spots(b, s, SectionWindows(b, opponent, s))
  {
    var d := SectionDir(s);
    forall p | SectionSpot(b, p, opponent, s) ensures p in Spots(b, s, SectionWindows(b, opponent, s)) {
      var q :| ThreatWindow(b, q, d, opponent) && p == Along(q, d, FirstEmpty(Window(b, q, d)));
      ThreatSpotListed(b, opponent, s, q);
    }
  }

  /**
   * `find_potential_win_spots`: the gaps of the threatening windows of the
   * rows, then the columns, then both diagonal directions. The list holds
   * every such gap and nothing else.
   */
  method FindPotentialWinSpots(b: Board, opponent: Color) returns (potentialWinSpots: seq<Pos>)
    ensures forall p :: p in potentialWinSpots ==> IsWinSpot(b, p, opponent)
    ensures forall p :: IsWinSpot(b, p, opponent) ==> p in potentialWinSpots
  {
    var rows := ScanSection(b, opponent, Rows);
    var columns := ScanSection(b, opponent, Columns);
    var diagonals := ScanSection(b, opponent, Diagonals);
    var antiDiagonals := ScanSection(b, opponent, AntiDiagonals);
    potentialWinSpots := rows + columns + diagonals + antiDiagonals;
    SectionSpotsSound(b, opponent, Rows);
    SectionSpotsSound(b, opponent, Columns);
    SectionSpotsSound(b, opponent, Diagonals);
    SectionSpotsSound(b, opponent, AntiDiagonals);
    SectionSpotsComplete(b, opponent, Rows);
    SectionSpotsComplete(b, opponent, Columns);
    SectionSpotsComplete(b, opponent, Diagonals);
    SectionSpotsComplete(b, opponent, AntiDiagonals);
  }

  /**
   * Every reported spot is an empty cell on the board, and a stone of
   * `opponent` there completes five in a row.
   */
  lemma WinSpotCompletesFive(b: Board, p: Pos, opponent: Color)
    requires IsSquare(b) && IsWinSpot(b, p, opponent)
    ensures IsEmptyAt(b, p)
    ensures exists q, d :: IsUnitDir(d) && FiveAt(Place(b, p, Stone(opponent)), q, d, Stone(opponent))
  {
    var s: Section :| SectionSpot(b, p, opponent, s);
    assert SectionSpot(b, p, opponent, s);
    var d := SectionDir(s);
    var q :| ThreatWindow(b, q, d, opponent) && p == Along(q, d, FirstEmpty(Window(b, q, d)));
    var line := Window(b, q, d);
    GapCompletesFive(line, opponent);
    var e := FirstEmpty(line);
    assert InBounds(Along(q, d, e).row, Along(q, d, e).col, |b|, |b|);
    assert IsEmptyAt(b, p);
    var placed := Place(b, p, Stone(opponent));
    forall k | 0 <= k < 5 ensures Matches(placed, Along(q, d, k), Stone(opponent)) {
      assert InBounds(Along(q, d, k).row, Along(q, d, k).col, |b|, |b|);
      if k != e {
        assert line[k] == Stone(opponent);
        assert Along(q, d, k) != p;
      }
    }
    assert FiveAt(placed, q, d, Stone(opponent));
  }

  /* ---------------------------------------------------------------------- */
  /* The game object                                                        */
  /* ---------------------------------------------------------------------- */

  class Gomoku {
    var collectData: bool
    var missedOpportunitiesBlack: nat
    var missedOpportunitiesWhite: nat
    var blocksByBlack: nat
    var blocksByWhite: nat
    var stepsByBlack: nat
    var stepsByWhite: nat
    var winner: Option<Color>
    var board: Board
    var currentPlayer: Color
    var gameOver: bool

    /**
     * The board is 15 × 15, each player's step counter is the number of its
     * stones on the board, and the turn alternates starting with black.
     */
    predicate Valid()
      reads this
    {
      |board| == BoardSize && IsSquare(board)
      && stepsByBlack == CountCells(board, Stone(Black))
      && stepsByWhite == CountCells(board, Stone(White))
      && stepsByWhite <= stepsByBlack <= stepsByWhite + 1
      && (currentPlayer == Black <==> stepsByBlack == stepsByWhite)
    }

    constructor (collectData: bool)
      ensures Valid()
      ensures this.collectData == collectData && board == EmptyBoard(BoardSize)
      ensures currentPlayer == Black && !gameOver && winner == None
      ensures missedOpportunitiesBlack == missedOpportunitiesWhite == blocksByBlack == blocksByWhite == 0
      ensures stepsByBlack == stepsByWhite == 0
    {
      this.collectData := collectData;
      missedOpportunitiesBlack := 0;
      missedOpportunitiesWhite := 0;
      blocksByBlack := 0;
      blocksByWhite := 0;
      stepsByBlack := 0;
      stepsByWhite := 0;
      winner := None;
      board := EmptyBoard(BoardSize);
      currentPlayer := Black;
      gameOver := false;
      new;
      CountCellsNone(board, Stone(Black));
      CountCellsNone(board, Stone(White));
    }

    /** `get_valid_moves`: every empty cell, once, in row-major order. */
    method GetValidMoves() returns (moves: seq<Pos>)
      requires Valid()
      ensures forall p :: p in moves ==> IsEmptyAt(board, p)
      ensures forall p :: IsEmptyAt(board, p) ==> p in moves
      ensures StrictlyOrdered(moves)
    {
      moves := [];
      for r := 0 to BoardSize
        invariant moves == Scan(BoardSize, EmptyTest(board), r, 0)
      {
        moves := AppendEmptyInRow(board, r, moves);
      }
      EmptyCellsSpec(board);
    }

    /** The inner `for c` of the `get_valid_moves` comprehension: the empty cells of row `r`, left to right. */
    static method AppendEmptyInRow(b: Board, r: nat, moves: seq<Pos>) returns (next: seq<Pos>)
      requires |b| == BoardSize && IsSquare(b) && r < BoardSize
      requires moves == Scan(BoardSize, EmptyTest(b), r, 0)
      ensures next == Scan(BoardSize, EmptyTest(b), r + 1, 0)
    {
      ghost var test := EmptyTest(b);
      next := moves;
      for c := 0 to BoardSize
        invariant next == Scan(BoardSize, test, r, c)
      {
        assert test(Pos(r, c)) == (b[r][c] == Empty);
        if b[r][c] == Empty {
          next := next + [Pos(r, c)];
        }
      }
      assert Scan(BoardSize, test, r + 1, 0) == Scan(BoardSize, test, r, BoardSize);
    }

    /**
     * `check_win`: whether four or more equal stones line up with the cell
     * along one of the four directions, counting at most four on each side;
     * the winner is recorded when statistics are collected.
     */
    method CheckWin(row: int, col: int) returns (won: bool)
      requires Valid() && InBounds(row, col, BoardSize, BoardSize) && board[row][col] != Empty
      modifies this`winner
      ensures won <==> WinThrough(board, Pos(row, col), board[row][col])
      ensures winner == (if won && collectData then Some(board[row][col].color) else old(winner))
    {
      var directions := [Dir(1, 0), Dir(0, 1), Dir(1, 1), Dir(1, -1)];
      var p := Pos(row, col);
      var player := board[row][col];
      for t := 0 to |directions|
        invariant forall s :: 0 <= s < t ==> LineCount(board, p, directions[s], player) < 5
        invariant winner == old(winner)
      {
        var count := CountThrough(board, p, directions[t], player);
        if count >= 5 {
          if collectData {
            winner := Some(player.color);
          }
          assert IsLineDir(directions[t]);
          return true;
        }
      }
      forall d | IsLineDir(d) ensures LineCount(board, p, d, player) < 5 {
        assert d == directions[0] || d == directions[1] || d == directions[2] || d == directions[3];
      }
      return false;
    }


    /** The placement half of `make_move`: the stone goes down, its colour's counter rises and the turn passes. */
    method PlaceStone(row: int, col: int)
      requires Valid() && InBounds(row, col, BoardSize, BoardSize) && board[row][col] == Empty
      modifies this`board, this`stepsByBlack, this`stepsByWhite, this`currentPlayer
      ensures Valid()
      ensures board == Place(old(board), Pos(row, col), Stone(old(currentPlayer)))
      ensures currentPlayer == Opponent(old(currentPlayer))
      ensures stepsByBlack == old(stepsByBlack) + (if old(currentPlayer) == Black then 1 else 0)
      ensures stepsByWhite == old(stepsByWhite) + (if old(currentPlayer) == White then 1 else 0)
    {
      var p := Pos(row, col);
      var before := board;
      CountAfterPlace(before, p, Stone(currentPlayer), Stone(Black));
      CountAfterPlace(before, p, Stone(currentPlayer), Stone(White));
      PlaceKeepsSquare(before, p, Stone(currentPlayer));
      if currentPlayer == Black {
        board := board[row := board[row][col := Stone(Black)]];
        stepsByBlack := stepsByBlack + 1;
        currentPlayer := White;
      } else {
        board := board[row := board[row][col := Stone(White)]];
        stepsByWhite := stepsByWhite + 1;
        currentPlayer := Black;
      }
      assert board == Place(before, p, board[row][col]);
    }

    /**
     * The ending half of `make_move`: a five through the new stone ends the
     * game (and records the winner when data is collected), and so does a
     * board with no valid move left.
     */
    method SettleGame(row: int, col: int)
      requires Valid() && InBounds(row, col, BoardSize, BoardSize) && board[row][col] != Empty
      modifies this`winner, this`gameOver
      ensures gameOver == (old(gameOver) || WinThrough(board, Pos(row, col), board[row][col]) || IsFull(board))
      ensures winner == (if collectData && WinThrough(board, Pos(row, col), board[row][col])
                         then Some(board[row][col].color) else old(winner))
    {
      var won := CheckWin(row, col);
      if won {
        gameOver := true;
      } else {
        var validMoves := GetValidMoves();
        if |validMoves| == 0 {
          gameOver := true;
        }
        NoMovesIffFull(board, validMoves);
      }
    }
    /**
     * `make_move`: on an occupied cell nothing changes; otherwise the current
     * player's stone goes there, that player's step counter goes up, the turn
     * passes, and the game ends when the move wins or fills the board.
     */
    method MakeMove(row: int, col: int)
      requires Valid() && InBounds(row, col, BoardSize, BoardSize)
      modifies this
      ensures Valid()
      ensures collectData == old(collectData)
      ensures missedOpportunitiesBlack == old(missedOpportunitiesBlack)
      ensures missedOpportunitiesWhite == old(missedOpportunitiesWhite)
      ensures blocksByBlack == old(blocksByBlack) && blocksByWhite == old(blocksByWhite)
      ensures old(board[row][col]) != Empty ==>
        board == old(board) && currentPlayer == old(currentPlayer) && gameOver == old(gameOver)
        && winner == old(winner) && stepsByBlack == old(stepsByBlack) && stepsByWhite == old(stepsByWhite)
      ensures old(board[row][col]) == Empty ==>
        board == Place(old(board), Pos(row, col), Stone(old(currentPlayer)))
        && currentPlayer == Opponent(old(currentPlayer))
        && stepsByBlack == old(stepsByBlack) + (if old(currentPlayer) == Black then 1 else 0)
        && stepsByWhite == old(stepsByWhite) + (if old(currentPlayer) == White then 1 else 0)
        && gameOver == (old(gameOver) || WinThrough(board, Pos(row, col), Stone(old(currentPlayer)))
                        || IsFull(board))
        && winner == (if collectData && WinThrough(board, Pos(row, col), Stone(old(currentPlayer)))
                      then Some(old(currentPlayer)) else old(winner))
    {
      if board[row][col] != Empty {
        return;
      }
      PlaceStone(row, col);
      SettleGame(row, col);
    }

    /**
     * `track_opportunities`: with the opponent's potential win spots in hand,
     * a move onto one of them counts as a block for `player`, a move elsewhere
     * while some exist counts as a missed opportunity.
     */
    method TrackOpportunities(player: Color, row: int, col: int)
      modifies this`missedOpportunitiesBlack, this`missedOpportunitiesWhite, this`blocksByBlack, this`blocksByWhite
      ensures var blocked := IsWinSpot(board, Pos(row, col), Opponent(player));
        var threatened := exists q :: IsWinSpot(board, q, Opponent(player));
        var missed := if !blocked && threatened then 1 else 0;
        var blocks := if blocked then 1 else 0;
        if player == Black then
          missedOpportunitiesBlack == old(missedOpportunitiesBlack) + missed
          && blocksByBlack == old(blocksByBlack) + blocks
          && missedOpportunitiesWhite == old(missedOpportunitiesWhite) && blocksByWhite == old(blocksByWhite)
        else
          missedOpportunitiesWhite == old(missedOpportunitiesWhite) + missed
          && blocksByWhite == old(blocksByWhite) + blocks
          && missedOpportunitiesBlack == old(missedOpportunitiesBlack) && blocksByBlack == old(blocksByBlack)
    {
      var opponent := if player == Black then White else Black;
      var missedOpportunitiesList := FindPotentialWinSpots(board, opponent);
      ThreatIffSpots(board, opponent, missedOpportunitiesList);
      if player == Black {
        if Pos(row, col) !in missedOpportunitiesList && missedOpportunitiesList != [] {
          missedOpportunitiesBlack := missedOpportunitiesBlack + 1;
        } else if Pos(row, col) in missedOpportunitiesList {
          blocksByBlack := blocksByBlack + 1;
        }
      } else {
        if Pos(row, col) !in missedOpportunitiesList && missedOpportunitiesList != [] {
          missedOpportunitiesWhite := missedOpportunitiesWhite + 1;
        } else if Pos(row, col) in missedOpportunitiesList {
          blocksByWhite := blocksByWhite + 1;
        }
      }
    }
  }

  /** The list of valid moves is empty exactly when the board is full. */
  lemma NoMovesIffFull(b: Board, moves: seq<Pos>)
    requires forall p :: p in moves ==> IsEmptyAt(b, p)
    requires forall p :: IsEmptyAt(b, p) ==> p in moves
    ensures moves == [] <==> IsFull(b)
  {
    if moves != [] {
      assert moves[0] in moves;
    }
    if !IsFull(b) {
      var i, j :| 0 <= i < |b| && 0 <= j < |b[i]| && b[i][j] == Empty;
      assert IsEmptyAt(b, Pos(i, j));
    }
  }

  lemma ThreatIffSpots(b: Board, opponent: Color, spots: seq<Pos>)
    requires forall p :: p in spots ==> IsWinSpot(b, p, opponent)
    requires forall p :: IsWinSpot(b, p, opponent) ==> p in spots
    ensures spots != [] <==> exists q :: IsWinSpot(b, q, opponent)
  {
    if spots != [] {
      assert spots[0] in spots;
    }
  }
}
