/**
 * Board evaluation of src/Agents/AgentsUtils.py: the run score `calc`, the
 * left-to-right line scanner `evaluate_line`, the sum over rows, columns and
 * long diagonals `evaluate_color`, the signed `evaluation_state` and its noisy
 * variant `evaluation_function`.
 */
module LineEvaluation {
  import opened BoardModel

  /** The score of a run of 0..5 stones before any penalty. */
  const SequenceScore: seq<int> := [0, 1, 5, 1000, 10000, 100000]

  /**
   * `calc`, transliterated: the score of a run of `sequence` stones with
   * `block` blocked ends. The source multiplies by the float constants 0.25,
   * 0.01, 0.5 and 0.1 and truncates with `int`; here the products are exact
   * reals and, the product being non-negative, truncation is `Floor`.
   */
  function CalcProducts(sequence: nat, block: int, isCurrent: bool, hasGap: bool): int {
    if block == 2 && sequence < 5 then 0
    else if sequence >= 5 then (if hasGap then SequenceScore[4] else SequenceScore[5])
    else
      var base := SequenceScore[sequence] as real;
      var afterFour := if block == 1 && sequence == 4 then base * 0.25 else base;
      var afterBlock :=
        if block == 1 then (if sequence == 3 then afterFour * 0.01 else afterFour * 0.5)
        else afterFour;
      var afterGap := if hasGap && sequence == 4 then afterBlock * 0.5 else afterBlock;
      var scaled := if !isCurrent && (sequence == 3 || sequence == 4) then afterGap * 0.1 else afterGap;
      scaled.Floor
  }

  /**
   * The integer table that `calc` reduces to, written out case by case; the
   * scanner uses it. A block count other than 1 or 2 scores like 0.
   */
  function Calc(sequence: nat, block: int, isCurrent: bool, hasGap: bool): (v: int)
    ensures 0 <= v <= 100000
  {
    if sequence >= 5 then (if hasGap then 10000 else 100000)
    else if block == 2 || sequence == 0 then 0
    else if block == 1 then
      if sequence == 1 then 0
      else if sequence == 2 then 2
      else if sequence == 3 then (if isCurrent then 10 else 1)
      else if isCurrent then (if hasGap then 625 else 1250)
      else (if hasGap then 62 else 125)
    else
      if sequence == 1 then 1
      else if sequence == 2 then 5
      else if sequence == 3 then (if isCurrent then 1000 else 100)
      else if isCurrent then (if hasGap then 5000 else 10000)
      else (if hasGap then 500 else 1000)
  }

  /** The float products of `calc`, truncated, give exactly the table. */
  lemma ProductsMatchTable(sequence: nat, block: int, isCurrent: bool, hasGap: bool)
    ensures CalcProducts(sequence, block, isCurrent, hasGap) == Calc(sequence, block, isCurrent, hasGap)
  {
    if sequence < 5 && block != 2 {
      assert SequenceScore[sequence] == [0, 1, 5, 1000, 10000][sequence];
    }
  }

  /** The acting colour's run never scores less than the same run of the other colour. */
  lemma CalcCurrentDominates(sequence: nat, block: int, hasGap: bool)
    ensures Calc(sequence, block, false, hasGap) <= Calc(sequence, block, true, hasGap)
  {
  }

  /** Crediting a gap never raises a run's score. */
  lemma CalcGapNeverRaises(sequence: nat, block: int, isCurrent: bool)
    ensures Calc(sequence, block, isCurrent, true) <= Calc(sequence, block, isCurrent, false)
  {
  }

  /** Among the block counts the scanner produces (0, 1, 2), more blocked ends never score more. */
  lemma CalcBlockingNeverRaises(sequence: nat, fewer: int, more: int, isCurrent: bool, hasGap: bool)
    requires 0 <= fewer <= more <= 2
    ensures Calc(sequence, more, isCurrent, hasGap) <= Calc(sequence, fewer, isCurrent, hasGap)
  {
  }

  /* ---------------------------------------------------------------------- */
  /* evaluate_line                                                          */
  /* ---------------------------------------------------------------------- */

  /** The scanner's variables: `evaluation`, `consec`, `block_count` and `empty`. */
  datatype ScanState = ScanState(evaluation: int, consec: nat, blockCount: int, empty: bool)

  const InitialScan: ScanState := ScanState(0, 0, 2, false)

  /** One iteration of the scan loop at index `i`. */
  function ScanStep(line: seq<Cell>, color: Color, current: bool, i: nat, st: ScanState): ScanState
    requires i < |line|
  {
    var value := line[i];
    if value == Stone(color) then st.(consec := st.consec + 1)
    else if value == Empty && st.consec > 0 then
      if !st.empty && i < |line| - 1 && line[i + 1] == Stone(color) then st.(empty := true)
      else ScanState(st.evaluation + Calc(st.consec, st.blockCount - 1, current, st.empty), 0, 1, false)
    else if value == Empty then st.(blockCount := 1)
    else if st.consec > 0 then
      st.(evaluation := st.evaluation + Calc(st.consec, st.blockCount, current, false),
          consec := 0, blockCount := 2)
    else st.(blockCount := 2)
  }

  /**
   * The scanner's state after the first `k` cells. The running evaluation
   * never decreases below zero and the block count is always 1 or 2.
   */
  function ScanPrefix(line: seq<Cell>, color: Color, current: bool, k: nat): (st: ScanState)
    requires k <= |line|
    ensures st.evaluation >= 0 && (st.blockCount == 1 || st.blockCount == 2)
  {
    if k == 0 then InitialScan
    else ScanStep(line, color, current, k - 1, ScanPrefix(line, color, current, k - 1))
  }

  /** The value `evaluate_line` returns: the scan, plus the run still open at the end. */
  function LineScore(line: seq<Cell>, color: Color, current: bool): (score: int)
    ensures score >= 0
  {
    var st := ScanPrefix(line, color, current, |line|);
    if st.consec > 0 then st.evaluation + Calc(st.consec, st.blockCount, current, false)
    else st.evaluation
  }

  method EvaluateLine(line: seq<Cell>, color: Color, current: bool) returns (evaluation: int)
    ensures evaluation == LineScore(line, color, current)
    ensures evaluation >= 0
  {
    evaluation := 0;
    var size := |line|;
    var consec: nat := 0;
    var blockCount := 2;
    var empty := false;
    for i := 0 to size
      invariant ScanState(evaluation, consec, blockCount, empty) == ScanPrefix(line, color, current, i)
    {
      var value := line[i];
      if value == Stone(color) {
        consec := consec + 1;
      } else if value == Empty && consec > 0 {
        if !empty && i < size - 1 && line[i + 1] == Stone(color) {
          empty := true;
        } else {
          evaluation := evaluation + Calc(consec, blockCount - 1, current, empty);
          consec := 0;
          blockCount := 1;
          empty := false;
        }
      } else if value == Empty {
        blockCount := 1;
      } else if consec > 0 {
        evaluation := evaluation + Calc(consec, blockCount, current, false);
        consec := 0;
        blockCount := 2;
      } else {
        blockCount := 2;
      }
    }
    if consec > 0 {
      evaluation := evaluation + Calc(consec, blockCount, current, false);
    }
  }

  predicate NoStoneOf(line: seq<Cell>, color: Color) {
    forall i :: 0 <= i < |line| ==> line[i] != Stone(color)
  }

  /** A line holding no stone of `color` scores 0. */
  lemma {:induction false} LineScoreWithoutColor(line: seq<Cell>, color: Color, current: bool)
    requires NoStoneOf(line, color)
    ensures LineScore(line, color, current) == 0
  {
    ScanWithoutColor(line, color, current, |line|);
  }

  lemma {:induction false} ScanWithoutColor(line: seq<Cell>, color: Color, current: bool, k: nat)
    requires k <= |line| && NoStoneOf(line, color)
    ensures ScanPrefix(line, color, current, k).evaluation == 0
    ensures ScanPrefix(line, color, current, k).consec == 0
  {
    if k > 0 {
      ScanWithoutColor(line, color, current, k - 1);
    }
  }

  /** A line made only of `color` stones, five or more of them, scores 100000. */
  lemma {:induction false} LineScoreSolid(line: seq<Cell>, color: Color, current: bool)
    requires |line| >= 5
    requires forall i :: 0 <= i < |line| ==> line[i] == Stone(color)
    ensures LineScore(line, color, current) == 100000
  {
    ScanSolid(line, color, current, |line|);
  }

  lemma {:induction false} ScanSolid(line: seq<Cell>, color: Color, current: bool, k: nat)
    requires k <= |line|
    requires forall i :: 0 <= i < |line| ==> line[i] == Stone(color)
    ensures ScanPrefix(line, color, current, k) == ScanState(0, k, 2, false)
  {
    if k > 0 {
      ScanSolid(line, color, current, k - 1);
    }
  }

  /**
   * While a run is open, a gap can be credited only when the flag is down, and
   * crediting raises it: a second empty cell inside the same run closes the run.
   */
  lemma AtMostOneGapPerRun(line: seq<Cell>, color: Color, current: bool, i: nat)
    requires i < |line| && line[i] == Empty
    requires ScanPrefix(line, color, current, i).consec > 0
    requires ScanPrefix(line, color, current, i).empty
    ensures ScanPrefix(line, color, current, i + 1).consec == 0
    ensures !ScanPrefix(line, color, current, i + 1).empty
  {
  }

  /** Concrete scores of a four: open at both ends, open at one end, and with a gap. */
  lemma LineScoreFours()
    ensures LineScore([Empty, Stone(Black), Stone(Black), Stone(Black), Stone(Black), Empty], Black, true) == 10000
    ensures LineScore([Stone(White), Stone(Black), Stone(Black), Stone(Black), Stone(Black), Empty], Black, true) == 1250
    ensures LineScore([Stone(White), Stone(Black), Stone(Black), Stone(Black), Stone(Black), Empty], Black, false) == 125
    ensures LineScore([Empty, Stone(Black), Stone(Black), Empty, Stone(Black), Stone(Black), Empty], Black, true) == 5000
  {
    var B := Stone(Black);
    var open := [Empty, B, B, B, B, Empty];
    assert ScanPrefix(open, Black, true, 1) == ScanState(0, 0, 1, false);
    assert ScanPrefix(open, Black, true, 2) == ScanState(0, 1, 1, false);
    assert ScanPrefix(open, Black, true, 3) == ScanState(0, 2, 1, false);
    assert ScanPrefix(open, Black, true, 4) == ScanState(0, 3, 1, false);
    assert ScanPrefix(open, Black, true, 5) == ScanState(0, 4, 1, false);
    assert ScanPrefix(open, Black, true, 6) == ScanState(10000, 0, 1, false);
    var half := [Stone(White), B, B, B, B, Empty];
    HalfOpenFour(half, true);
    HalfOpenFour(half, false);
    var gapped := [Empty, B, B, Empty, B, B, Empty];
    assert ScanPrefix(gapped, Black, true, 1) == ScanState(0, 0, 1, false);
    assert ScanPrefix(gapped, Black, true, 2) == ScanState(0, 1, 1, false);
    assert ScanPrefix(gapped, Black, true, 3) == ScanState(0, 2, 1, false);
    assert ScanPrefix(gapped, Black, true, 4) == ScanState(0, 2, 1, true);
    assert ScanPrefix(gapped, Black, true, 5) == ScanState(0, 3, 1, true);
    assert ScanPrefix(gapped, Black, true, 6) == ScanState(0, 4, 1, true);
    assert ScanPrefix(gapped, Black, true, 7) == ScanState(5000, 0, 1, false);
  }

  lemma HalfOpenFour(half: seq<Cell>, current: bool)
    requires half == [Stone(White), Stone(Black), Stone(Black), Stone(Black), Stone(Black), Empty]
    ensures LineScore(half, Black, current) == if current then 1250 else 125
  {
    assert ScanPrefix(half, Black, current, 1) == ScanState(0, 0, 2, false);
    assert ScanPrefix(half, Black, current, 2) == ScanState(0, 1, 2, false);
    assert ScanPrefix(half, Black, current, 3) == ScanState(0, 2, 2, false);
    assert ScanPrefix(half, Black, current, 4) == ScanState(0, 3, 2, false);
    assert ScanPrefix(half, Black, current, 5) == ScanState(0, 4, 2, false);
    assert ScanPrefix(half, Black, current, 6) == ScanState(Calc(4, 1, current, false), 0, 1, false);
  }

  /**
   * The gap flag is not lowered when a run ends at an opponent stone, so a
   * later open four with no gap of its own is scored as gapped: 5000 instead
   * of the 10000 it scores alone.
   */
  lemma GapFlagCarriesOver()
    ensures LineScore([Stone(Black), Empty, Stone(Black), Stone(White),
                       Empty, Stone(Black), Stone(Black), Stone(Black), Stone(Black), Empty], Black, true) == 5000
  {
    var B := Stone(Black);
    var line := [B, Empty, B, Stone(White), Empty, B, B, B, B, Empty];
    assert ScanPrefix(line, Black, true, 1) == ScanState(0, 1, 2, false);
    assert ScanPrefix(line, Black, true, 2) == ScanState(0, 1, 2, true);
    assert ScanPrefix(line, Black, true, 3) == ScanState(0, 2, 2, true);
    assert ScanPrefix(line, Black, true, 4) == ScanState(0, 0, 2, true);
    assert ScanPrefix(line, Black, true, 5) == ScanState(0, 0, 1, true);
    assert ScanPrefix(line, Black, true, 6) == ScanState(0, 1, 1, true);
    assert ScanPrefix(line, Black, true, 7) == ScanState(0, 2, 1, true);
    assert ScanPrefix(line, Black, true, 8) == ScanState(0, 3, 1, true);
    assert ScanPrefix(line, Black, true, 9) == ScanState(0, 4, 1, true);
    assert ScanPrefix(line, Black, true, 10) == ScanState(5000, 0, 1, false);
  }

  /* ---------------------------------------------------------------------- */
  /* evaluate_color and evaluation_state                                    */
  /* ---------------------------------------------------------------------- */

  function Row(b: Board, i: nat): (line: seq<Cell>)
    requires IsSquare(b) && i < |b|
    ensures |line| == |b|
  {
    seq(|b|, j requires 0 <= j < |b| => b[i][j])
  }

  function Col(b: Board, j: nat): (line: seq<Cell>)
    requires IsSquare(b) && j < |b|
    ensures |line| == |b|
  {
    seq(|b|, i requires 0 <= i < |b| => b[i][j])
  }

  /** The row where diagonal `k` starts: 0 on and above the main diagonal, `-k` below it. */
  function DiagRow(k: int): nat {
    if k >= 0 then 0 else -k
  }

  /** The column where diagonal `k` starts: `k` on and above the main diagonal, 0 below it. */
  function DiagCol(k: int): nat {
    if k >= 0 then k else 0
  }

  /** numpy's `diag(board, k)`: the cells (i, i + k) that lie on the board. */
  function Diag(b: Board, k: int): (line: seq<Cell>)
    requires IsSquare(b) && -|b| < k < |b|
    ensures |line| == |b| - DiagRow(k) - DiagCol(k)
  {
    seq(|b| - DiagRow(k) - DiagCol(k), i requires 0 <= i < |b| - DiagRow(k) - DiagCol(k) => b[DiagRow(k) + i][DiagCol(k) + i])
  }

  /** Cell `i` of diagonal `k` is (i, i + k) for k >= 0 and (i - k, i) below the main diagonal. */
  lemma DiagAt(b: Board, k: int)
    requires IsSquare(b) && -|b| < k < |b|
    ensures k >= 0 ==> forall i :: 0 <= i < |b| - k ==> Diag(b, k)[i] == b[i][i + k]
    ensures k < 0 ==> forall i :: 0 <= i < |b| + k ==> Diag(b, k)[i] == b[i - k][i]
  {
  }

  /**
   * The anti-diagonal scored at offset `k`: cell `i` of it is cell `i` of diagonal
   * `k` with the column read from the right-hand edge.
   */
  function AntiDiag(b: Board, k: int): (line: seq<Cell>)
    requires IsSquare(b) && -|b| < k < |b|
    ensures |line| == |b| - DiagRow(k) - DiagCol(k)
  {
    seq(|b| - DiagRow(k) - DiagCol(k), i requires 0 <= i < |b| - DiagRow(k) - DiagCol(k) => b[DiagRow(k) + i][|b| - 1 - (DiagCol(k) + i)])
  }

  /** numpy's `diag(fliplr(board), k)`: the anti-diagonal is diagonal `k` of the board mirrored left to right. */
  lemma AntiDiagMirrors(b: Board, k: int)
    requires IsSquare(b) && -|b| < k < |b|
    ensures IsSquare(FlipLR(b))
    ensures AntiDiag(b, k) == Diag(FlipLR(b), k)
  {
    FlipLRAt(b);
    DiagOfMirror(b, FlipLR(b), k);
  }

  lemma DiagOfMirror(b: Board, f: Board, k: int)
    requires IsSquare(b) && IsSquare(f) && |f| == |b| && -|b| < k < |b|
    requires forall r, c :: 0 <= r < |b| && 0 <= c < |b[r]| ==> f[r][c] == b[r][|b[r]| - 1 - c]
    ensures AntiDiag(b, k) == Diag(f, k)
  {
    var mirrored := Diag(f, k);
    forall i | 0 <= i < |mirrored| ensures AntiDiag(b, k)[i] == mirrored[i] {
      assert mirrored[i] == f[DiagRow(k) + i][DiagCol(k) + i];
    }
  }

  /** The first diagonal offset scored: diagonals shorter than five cells are skipped. */
  function FirstOffset(n: nat): int {
    5 - n
  }

  /** The scores `score` gives row `i` and column `i` for every `i` below `count`. */
  function RowColScores(b: Board, score: seq<Cell> -> int, count: nat): int
    requires IsSquare(b) && count <= |b|
  {
    if count == 0 then 0
    else RowColScores(b, score, count - 1) + score(Row(b, count - 1)) + score(Col(b, count - 1))
  }

  /** `evaluate_line` for one colour and acting flag, as a function of the line alone. */
  function LineScorer(color: Color, current: bool): seq<Cell> -> int {
    line => LineScore(line, color, current)
  }

  /**
   * The scores `score` gives the diagonal and the anti-diagonal of every offset
   * from `5 - n` up to `k` (exclusive); nothing when that range is empty.
   */
  function DiagonalScores(b: Board, score: seq<Cell> -> int, k: int): int
    requires IsSquare(b) && (k <= FirstOffset(|b|) || k <= |b| - 4)
    decreases k - FirstOffset(|b|)
  {
    if k <= FirstOffset(|b|) then 0
    else DiagonalScores(b, score, k - 1) + score(Diag(b, k - 1)) + score(AntiDiag(b, k - 1))
  }

  /** What `evaluate_color` returns: every row, column, diagonal and anti-diagonal of five or more cells. */
  function ColorScore(b: Board, color: Color, current: bool): int
    requires IsSquare(b)
  {
    RowColScores(b, LineScorer(color, current), |b|) + DiagonalScores(b, LineScorer(color, current), |b| - 4)
  }

  /** Moving the diagonal loop one offset on adds the scores of that diagonal and of its mirror image. */
  lemma DiagonalScoresStep(b: Board, score: seq<Cell> -> int, k: int)
    requires IsSquare(b) && FirstOffset(|b|) < k <= |b| - 4
    ensures DiagonalScores(b, score, k) == DiagonalScores(b, score, k - 1) + score(Diag(b, k - 1)) + score(AntiDiag(b, k - 1))
  {
  }

  /** The first loop of `evaluate_color`: every row and every column. */
  method ScoreRowsAndCols(b: Board, color: Color, current: bool, ghost score: seq<Cell> -> int) returns (evaluation: int)
    requires IsSquare(b)
    requires forall line {:trigger LineScore(line, color, current)} :: score(line) == LineScore(line, color, current)
    ensures evaluation == RowColScores(b, score, |b|)
  {
    evaluation := 0;
    for i := 0 to |b|
      invariant evaluation == RowColScores(b, score, i)
    {
      var rowScore := ScoreLine(Row(b, i), color, current, score);
      evaluation := evaluation + rowScore;
      var colScore := ScoreLine(Col(b, i), color, current, score);
      evaluation := evaluation + colScore;
    }
  }

  /**
   * The second loop of `evaluate_color`: the diagonals and anti-diagonals of
   * five or more cells. `score` stands for `evaluate_line` of this colour and flag.
   */
  method ScoreDiagonals(b: Board, color: Color, current: bool, ghost score: seq<Cell> -> int) returns (evaluation: int)
    requires IsSquare(b)
    requires forall line {:trigger LineScore(line, color, current)} :: score(line) == LineScore(line, color, current)
    ensures evaluation == DiagonalScores(b, score, |b| - 4)
  {
    evaluation := 0;
    var k := FirstOffset(|b|);
    while k < |b| - 4
      invariant FirstOffset(|b|) <= k && (k == FirstOffset(|b|) || k <= |b| - 4)
      invariant evaluation == DiagonalScores(b, score, k)
    {
      evaluation, k := ScoreDiagonalPair(b, color, current, score, evaluation, k);
    }
  }

  /** One pass of the diagonal loop: adds the scores of diagonal `k` of the board and of its mirror image. */
  method ScoreDiagonalPair(b: Board, color: Color, current: bool, ghost score: seq<Cell> -> int, evaluation: int, k: int)
    returns (nextEvaluation: int, next: int)
    requires IsSquare(b) && FirstOffset(|b|) <= k < |b| - 4
    requires forall line {:trigger LineScore(line, color, current)} :: score(line) == LineScore(line, color, current)
    requires evaluation == DiagonalScores(b, score, k)
    ensures next == k + 1
    ensures nextEvaluation == DiagonalScores(b, score, next)
  {
    next := k + 1;
    assert next - 1 == k;
    var diagScore := ScoreLine(Diag(b, k), color, current, score);
    var antiScore := ScoreLine(AntiDiag(b, k), color, current, score);
    DiagonalScoresStep(b, score, next);
    nextEvaluation := evaluation + diagScore + antiScore;
  }

  /** `evaluate_line` on one line, its result named through `score`. */
  method ScoreLine(line: seq<Cell>, color: Color, current: bool, ghost score: seq<Cell> -> int) returns (lineScore: int)
    requires forall l {:trigger LineScore(l, color, current)} :: score(l) == LineScore(l, color, current)
    ensures lineScore == score(line)
  {
    lineScore := EvaluateLine(line, color, current);
  }

  method EvaluateColor(b: Board, color: Color, currentColor: Color) returns (evaluation: int)
    requires IsSquare(b)
    ensures evaluation == ColorScore(b, color, color == currentColor)
    ensures evaluation >= 0
  {
    var current := color == currentColor;
    var rowsAndCols := ScoreRowsAndCols(b, color, current, LineScorer(color, current));
    var diagonals := ScoreDiagonals(b, color, current, LineScorer(color, current));
    evaluation := rowsAndCols + diagonals;
    ColorScoreNonNegative(b, color, current);
  }

  lemma {:induction false} RowColScoresNonNegative(b: Board, score: seq<Cell> -> int, count: nat)
    requires IsSquare(b) && count <= |b|
    requires forall line :: score(line) >= 0
    ensures RowColScores(b, score, count) >= 0
  {
    if count > 0 {
      RowColScoresNonNegative(b, score, count - 1);
    }
  }

  lemma {:induction false} DiagonalScoresNonNegative(b: Board, score: seq<Cell> -> int, k: int)
    requires IsSquare(b) && k <= |b| - 4
    requires forall line :: score(line) >= 0
    ensures DiagonalScores(b, score, k) >= 0
    decreases k - FirstOffset(|b|)
  {
    if k > FirstOffset(|b|) {
      DiagonalScoresNonNegative(b, score, k - 1);
    }
  }

  /** `evaluate_color` never returns a negative score. */
  lemma ColorScoreNonNegative(b: Board, color: Color, current: bool)
    requires IsSquare(b)
    ensures ColorScore(b, color, current) >= 0
  {
    RowColScoresNonNegative(b, LineScorer(color, current), |b|);
    DiagonalScoresNonNegative(b, LineScorer(color, current), |b| - 4);
  }

  /** No stone of `color` anywhere on the board. */
  predicate Absent(b: Board, color: Color) {
    forall i, j :: 0 <= i < |b| && 0 <= j < |b[i]| ==> b[i][j] != Stone(color)
  }

  lemma DiagWithout(b: Board, k: int, color: Color)
    requires IsSquare(b) && -|b| < k < |b| && Absent(b, color)
    ensures NoStoneOf(Diag(b, k), color)
  {
    DiagAt(b, k);
  }

  lemma AntiDiagWithout(b: Board, k: int, color: Color)
    requires IsSquare(b) && -|b| < k < |b| && Absent(b, color)
    ensures NoStoneOf(AntiDiag(b, k), color)
  {
  }

  lemma {:induction false} RowColScoresAbsent(b: Board, score: seq<Cell> -> int, color: Color, count: nat)
    requires IsSquare(b) && count <= |b| && Absent(b, color)
    requires forall line :: NoStoneOf(line, color) ==> score(line) == 0
    ensures RowColScores(b, score, count) == 0
  {
    if count > 0 {
      RowColScoresAbsent(b, score, color, count - 1);
      assert NoStoneOf(Row(b, count - 1), color);
      assert NoStoneOf(Col(b, count - 1), color);
    }
  }

  lemma {:induction false} DiagonalScoresAbsent(b: Board, score: seq<Cell> -> int, color: Color, k: int)
    requires IsSquare(b) && k <= |b| - 4 && Absent(b, color)
    requires forall line :: NoStoneOf(line, color) ==> score(line) == 0
    ensures DiagonalScores(b, score, k) == 0
    decreases k - FirstOffset(|b|)
  {
    if k > FirstOffset(|b|) {
      DiagonalScoresAbsent(b, score, color, k - 1);
      DiagonalPairAbsent(b, score, color, k - 1);
    }
  }

  lemma DiagonalPairAbsent(b: Board, score: seq<Cell> -> int, color: Color, k: int)
    requires IsSquare(b) && -|b| < k < |b| && Absent(b, color)
    requires forall line :: NoStoneOf(line, color) ==> score(line) == 0
    ensures score(Diag(b, k)) == 0 && score(AntiDiag(b, k)) == 0
  {
    DiagWithout(b, k, color);
    AntiDiagWithout(b, k, color);
  }

  /** A colour with no stone on the board scores 0. */
  lemma ColorScoreAbsent(b: Board, color: Color, current: bool)
    requires IsSquare(b) && Absent(b, color)
    ensures ColorScore(b, color, current) == 0
  {
    forall line | NoStoneOf(line, color) ensures LineScorer(color, current)(line) == 0 {
      LineScoreWithoutColor(line, color, current);
    }
    RowColScoresAbsent(b, LineScorer(color, current), color, |b|);
    DiagonalScoresAbsent(b, LineScorer(color, current), color, |b| - 4);
  }

  /** `evaluation_state`: black's score minus white's, seen from `currentColor`. */
  function EvaluationState(b: Board, currentColor: Color): int
    requires IsSquare(b)
  {
    var blackTotal := ColorScore(b, Black, Black == currentColor) - ColorScore(b, White, White == currentColor);
    if currentColor == Black then blackTotal else -1 * blackTotal
  }

  /** The position is 0 on an empty board and never negative for a side whose opponent has no stone. */
  lemma EvaluationStateSigns(b: Board, currentColor: Color)
    requires IsSquare(b)
    ensures Absent(b, Black) && Absent(b, White) ==> EvaluationState(b, currentColor) == 0
    ensures Absent(b, Opponent(currentColor)) ==> EvaluationState(b, currentColor) >= 0
    ensures Absent(b, currentColor) ==> EvaluationState(b, currentColor) <= 0
  {
    ColorScoreNonNegative(b, Black, Black == currentColor);
    ColorScoreNonNegative(b, White, White == currentColor);
    if Absent(b, Black) {
      ColorScoreAbsent(b, Black, Black == currentColor);
    }
    if Absent(b, White) {
      ColorScoreAbsent(b, White, White == currentColor);
    }
  }

  /* ---------------------------------------------------------------------- */
  /* Random jitter                                                          */
  /* ---------------------------------------------------------------------- */

  /** Python's `int` on a float: truncation toward zero. */
  function Trunc(x: real): int {
    if x >= 0.0 then x.Floor else -((-x).Floor)
  }

  /**
   * A draw of `random.uniform(0.2 * score, -0.2 * score)`: a real between the
   * two bounds, in whichever order they come.
   */
  predicate IsNoise(delta: real, score: int) {
    if score >= 0 then -0.2 * score as real <= delta <= 0.2 * score as real
    else 0.2 * score as real <= delta <= -0.2 * score as real
  }

  /**
   * `add_random_noise`: the score plus the drawn jitter, truncated toward zero.
   * With a draw in range the score moves by at most a fifth of itself.
   */
  function AddRandomNoise(score: int, delta: real): (r: int)
    ensures IsNoise(delta, score) && score >= 0 ==> 0 <= r && 5 * r <= 6 * score && 4 * score < 5 * r + 5
    ensures IsNoise(delta, score) && score <= 0 ==> r <= 0 && 6 * score <= 5 * r && 5 * r - 5 < 4 * score
  {
    Trunc(score as real + delta)
  }

  /** `evaluation_function`: the evaluation with the jitter `delta` applied. */
  function EvaluationFunction(b: Board, currentColor: Color, delta: real): int
    requires IsSquare(b)
  {
    AddRandomNoise(EvaluationState(b, currentColor), delta)
  }
}
