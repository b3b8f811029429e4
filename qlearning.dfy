/**
 * The Q-learning agent: boards are keyed by their smallest serialisation
 * among the eight rotations and reflections, moves are chosen greedily from
 * the stored values, and the table is updated by the temporal-difference
 * rule. The reward helpers and the win test of the agent are modelled too.
 */
module QLearning {
  import opened Outcomes
  import opened BoardModel
  import opened LineEvaluation
  import opened FiveScan

  /* ---------------------------------------------------------------------- */
  /* Canonical form under rotation and reflection                           */
  /* ---------------------------------------------------------------------- */

  /** `np.rot90`: a quarter turn counter-clockwise. */
  function Rotate90(b: Board): (r: Board)
    requires IsSquare(b)
    ensures |r| == |b| && IsSquare(r)
  {
    var n := |b|;
    seq(n, i requires 0 <= i < n => seq(n, j requires 0 <= j < n => b[j][n - 1 - i]))
  }

  lemma RotateAt(b: Board)
    requires IsSquare(b)
    ensures forall i, j :: 0 <= i < |b| && 0 <= j < |b| ==> Rotate90(b)[i][j] == b[j][|b| - 1 - i]
  {
  }

  /** `np.fliplr`: every row reversed. */
  function ReflectHorizontal(b: Board): (r: Board)
    requires IsSquare(b)
    ensures |r| == |b| && IsSquare(r)
  {
    FlipLR(b)
  }

  lemma ReflectAt(b: Board)
    requires IsSquare(b)
    ensures forall i, j :: 0 <= i < |b| && 0 <= j < |b| ==> ReflectHorizontal(b)[i][j] == b[i][|b| - 1 - j]
  {
    FlipLRAt(b);
  }

  /** Two square boards of one size that agree cell by cell are equal. */
  lemma SameBoard(x: Board, y: Board)
    requires IsSquare(x) && IsSquare(y) && |x| == |y|
    requires forall i, j :: 0 <= i < |x| && 0 <= j < |x| ==> x[i][j] == y[i][j]
    ensures x == y
  {
    forall i | 0 <= i < |x| ensures x[i] == y[i] {
      assert |x[i]| == |y[i]|;
    }
  }

  /** Four quarter turns are the identity. */
  lemma RotateFour(b: Board)
    requires IsSquare(b)
    ensures Rotate90(Rotate90(Rotate90(Rotate90(b)))) == b
  {
    var r1 := Rotate90(b);
    var r2 := Rotate90(r1);
    var r3 := Rotate90(r2);
    var r4 := Rotate90(r3);
    RotateAt(b);
    RotateAt(r1);
    RotateAt(r2);
    RotateAt(r3);
    SameBoard(r4, b);
  }

  /** Reflecting twice is the identity. */
  lemma ReflectTwice(b: Board)
    requires IsSquare(b)
    ensures ReflectHorizontal(ReflectHorizontal(b)) == b
  {
    var f := ReflectHorizontal(b);
    ReflectAt(b);
    ReflectAt(f);
    SameBoard(ReflectHorizontal(f), b);
  }

  /** A turn after a reflection is a reflection after three turns. */
  lemma RotateAfterReflect(b: Board)
    requires IsSquare(b)
    ensures Rotate90(ReflectHorizontal(b)) == ReflectHorizontal(Rotate90(Rotate90(Rotate90(b))))
  {
    var f := ReflectHorizontal(b);
    var r1 := Rotate90(b);
    var r2 := Rotate90(r1);
    var r3 := Rotate90(r2);
    ReflectAt(b);
    RotateAt(f);
    RotateAt(b);
    RotateAt(r1);
    RotateAt(r2);
    ReflectAt(r3);
    SameBoard(Rotate90(f), ReflectHorizontal(r3));
  }

  /**
   * The eight boards `get_minimal_representation` collects, in its order:
   * each of the four turns, followed by its mirror image.
   */
  function Images(b: Board): seq<Board>
    requires IsSquare(b)
  {
    var r1 := Rotate90(b);
    var r2 := Rotate90(r1);
    var r3 := Rotate90(r2);
    [b, ReflectHorizontal(b), r1, ReflectHorizontal(r1), r2, ReflectHorizontal(r2), r3, ReflectHorizontal(r3)]
  }

  /** A code for each cell value; the byte layout of `tostring` is not modelled, only its order. */
  function CellCode(x: Cell): int {
    match x
    case Empty => 0
    case Stone(Black) => 1
    case Stone(White) => 2
  }

  function RowCodes(row: seq<Cell>): seq<int> {
    if row == [] then [] else [CellCode(row[0])] + RowCodes(row[1..])
  }

  /** `tostring`: the cells in row-major order. */
  function Serialise(b: Board): seq<int> {
    if b == [] then [] else RowCodes(b[0]) + Serialise(b[1..])
  }

  /** Byte-string order: lexicographic, a proper prefix first. */
  predicate LexLeq(a: seq<int>, b: seq<int>) {
    a == [] || (b != [] && (a[0] < b[0] || (a[0] == b[0] && LexLeq(a[1..], b[1..]))))
  }

  lemma {:induction false} LexTotal(a: seq<int>, b: seq<int>)
    ensures LexLeq(a, b) || LexLeq(b, a)
  {
    if a != [] && b != [] && a[0] == b[0] {
      LexTotal(a[1..], b[1..]);
    }
  }

  lemma {:induction false} LexAntisymmetric(a: seq<int>, b: seq<int>)
    requires LexLeq(a, b) && LexLeq(b, a)
    ensures a == b
  {
    if a != [] {
      LexAntisymmetric(a[1..], b[1..]);
      assert a == [a[0]] + a[1..] && b == [b[0]] + b[1..];
    }
  }

  lemma {:induction false} LexTransitive(a: seq<int>, b: seq<int>, c: seq<int>)
    requires LexLeq(a, b) && LexLeq(b, c)
    ensures LexLeq(a, c)
  {
    if a != [] && a[0] == b[0] && b[0] == c[0] {
      LexTransitive(a[1..], b[1..], c[1..]);
    }
  }

  /** Python's `min` over a non-empty list of byte strings. */
  function MinKey(keys: seq<seq<int>>): seq<int>
    requires |keys| > 0
  {
    if |keys| == 1 then keys[0]
    else
      var rest := MinKey(keys[1..]);
      if LexLeq(keys[0], rest) then keys[0] else rest
  }

  /** The minimum is one of the keys and no key is smaller. */
  lemma {:induction false} MinKeyIsMin(keys: seq<seq<int>>)
    requires |keys| > 0
    ensures MinKey(keys) in keys
    ensures forall k :: k in keys ==> LexLeq(MinKey(keys), k)
  {
    LexTotal(keys[0], keys[0]);
    if |keys| > 1 {
      var rest := MinKey(keys[1..]);
      MinKeyIsMin(keys[1..]);
      LexTotal(keys[0], rest);
      assert forall k :: k in keys ==> k == keys[0] || k in keys[1..];
      if LexLeq(keys[0], rest) {
        forall k | k in keys[1..] ensures LexLeq(keys[0], k) {
          LexTransitive(keys[0], rest, k);
        }
      }
    }
  }

  /** The minimum depends only on which keys are present. */
  lemma MinKeySameKeys(s: seq<seq<int>>, t: seq<seq<int>>)
    requires |s| > 0 && |t| > 0
    requires forall k :: k in s ==> k in t
    requires forall k :: k in t ==> k in s
    ensures MinKey(s) == MinKey(t)
  {
    MinKeyIsMin(s);
    MinKeyIsMin(t);
    LexAntisymmetric(MinKey(s), MinKey(t));
  }

  /** The serialisations of the eight images, in the order they are collected. */
  function Keys(b: Board): seq<seq<int>>
    requires IsSquare(b)
  {
    var r1 := Rotate90(b);
    var r2 := Rotate90(r1);
    var r3 := Rotate90(r2);
    [Serialise(b), Serialise(ReflectHorizontal(b)), Serialise(r1), Serialise(ReflectHorizontal(r1)),
     Serialise(r2), Serialise(ReflectHorizontal(r2)), Serialise(r3), Serialise(ReflectHorizontal(r3))]
  }

  /**
   * The loop of `get_minimal_representation`: for each of `turns` quarter
   * turns, the board and its mirror image, then the board turned once more.
   */
  function Transformations(b: Board, turns: nat): (r: seq<Board>)
    requires IsSquare(b)
    ensures |r| == 2 * turns
    decreases turns
  {
    if turns == 0 then [] else [b, ReflectHorizontal(b)] + Transformations(Rotate90(b), turns - 1)
  }

  /** `[board.tostring() for board in transformations]`. */
  function SerialiseAll(bs: seq<Board>): (r: seq<seq<int>>)
    ensures |r| == |bs|
  {
    if bs == [] then [] else [Serialise(bs[0])] + SerialiseAll(bs[1..])
  }

  lemma {:induction false} SerialiseAllAt(bs: seq<Board>)
    ensures forall i :: 0 <= i < |bs| ==> SerialiseAll(bs)[i] == Serialise(bs[i])
  {
    if bs != [] {
      SerialiseAllAt(bs[1..]);
    }
  }

  lemma LastTurn(b: Board)
    requires IsSquare(b)
    ensures Transformations(b, 1) == [b, ReflectHorizontal(b)]
  {
    assert Transformations(Rotate90(b), 0) == [];
  }

  lemma LastTwoTurns(b: Board)
    requires IsSquare(b)
    ensures Transformations(b, 2) == [b, ReflectHorizontal(b), Rotate90(b), ReflectHorizontal(Rotate90(b))]
  {
    LastTurn(Rotate90(b));
  }

  lemma LastThreeTurns(b: Board)
    requires IsSquare(b)
    ensures var r1 := Rotate90(b); var r2 := Rotate90(r1);
      Transformations(b, 3) == [b, ReflectHorizontal(b), r1, ReflectHorizontal(r1), r2, ReflectHorizontal(r2)]
  {
    var r1 := Rotate90(b);
    var r2 := Rotate90(r1);
    LastTwoTurns(r1);
    assert Transformations(b, 3) == [b, ReflectHorizontal(b)] + Transformations(r1, 2);
    PairThenFour(b, ReflectHorizontal(b), r1, ReflectHorizontal(r1), r2, ReflectHorizontal(r2));
  }

  /** Joining a pair and four more elements; stated for any element type so that no board reasoning enters it. */
  lemma PairThenFour<T>(a: T, b: T, c: T, d: T, e: T, f: T)
    ensures [a, b] + [c, d, e, f] == [a, b, c, d, e, f]
  {
  }

  /** The eight images are the first turn's pair followed by the other three turns' pairs. */
  lemma ImagesSplit(b: Board)
    requires IsSquare(b)
    ensures var r1 := Rotate90(b); var r2 := Rotate90(r1); var r3 := Rotate90(r2);
      Images(b) == [b, ReflectHorizontal(b)] + [r1, ReflectHorizontal(r1), r2, ReflectHorizontal(r2), r3, ReflectHorizontal(r3)]
  {
  }

  /** The loop collects the eight images in their order. */
  lemma TransformationsAreImages(b: Board)
    requires IsSquare(b)
    ensures Transformations(b, 4) == Images(b)
  {
    LastThreeTurns(Rotate90(b));
    ImagesSplit(b);
  }

  /** Key `k` is the serialisation of image `k`. */
  lemma KeysAt(b: Board)
    requires IsSquare(b)
    ensures |Keys(b)| == |Images(b)| == 8
    ensures forall k :: 0 <= k < 8 ==> Keys(b)[k] == Serialise(Images(b)[k])
  {
  }

  /** The serialisations of what the loop collects are the keys. */
  lemma CollectedKeys(b: Board)
    requires IsSquare(b)
    ensures SerialiseAll(Transformations(b, 4)) == Keys(b)
  {
    TransformationsAreImages(b);
    SerialiseAllAt(Images(b));
    KeysAt(b);
  }

  /** `get_minimal_representation`: the smallest serialisation among the collected images. */
  function MinimalRepresentation(b: Board): seq<int>
    requires IsSquare(b)
  {
    MinKey(SerialiseAll(Transformations(b, 4)))
  }

  /**
   * `get_state_key`. Python's `hash` is seeded per process and only ever
   * compared for equality, so the key is the minimal representation itself.
   */
  function StateKey(b: Board): seq<int>
    requires IsSquare(b)
  {
    MinimalRepresentation(b)
  }

  /** The minimal representation is the serialisation of one of the images, and no image serialises smaller. */
  lemma MinimalIsSmallestImage(b: Board)
    requires IsSquare(b)
    ensures exists k :: 0 <= k < 8 && MinimalRepresentation(b) == Serialise(Images(b)[k])
    ensures forall k :: 0 <= k < 8 ==> LexLeq(MinimalRepresentation(b), Serialise(Images(b)[k]))
  {
    CollectedKeys(b);
    var keys := Keys(b);
    MinKeyIsMin(keys);
    assert |keys| == 8 && forall k :: 0 <= k < 8 ==> keys[k] == Serialise(Images(b)[k]);
    assert forall k :: 0 <= k < 8 ==> keys[k] in keys;
    var k :| 0 <= k < 8 && keys[k] == MinimalRepresentation(b);
  }

  /** A quarter turn of the board does not change its key. */
  lemma InvariantUnderRotation(b: Board)
    requires IsSquare(b)
    ensures MinimalRepresentation(Rotate90(b)) == MinimalRepresentation(b)
  {
    var r1 := Rotate90(b);
    var r2 := Rotate90(r1);
    var r3 := Rotate90(r2);
    RotateFour(b);
    CollectedKeys(b);
    CollectedKeys(r1);
    MinKeySameKeys(Keys(b), Keys(r1));
  }

  /** The mirror image of the board has the same key. */
  lemma InvariantUnderReflection(b: Board)
    requires IsSquare(b)
    ensures MinimalRepresentation(ReflectHorizontal(b)) == MinimalRepresentation(b)
  {
    var r1 := Rotate90(b);
    var r2 := Rotate90(r1);
    var r3 := Rotate90(r2);
    var f := ReflectHorizontal(b);
    var f1 := Rotate90(f);
    var f2 := Rotate90(f1);
    var f3 := Rotate90(f2);
    ReflectTwice(b);
    RotateAfterReflect(b);
    assert f1 == ReflectHorizontal(r3);
    ReflectTwice(r3);
    RotateAfterReflect(r3);
    RotateFour(r2);
    assert f2 == ReflectHorizontal(r2);
    ReflectTwice(r2);
    RotateAfterReflect(r2);
    RotateFour(r1);
    assert f3 == ReflectHorizontal(r1);
    ReflectTwice(r1);
    CollectedKeys(b);
    CollectedKeys(f);
    MinKeySameKeys(Keys(b), Keys(f));
  }

  /** Two quarter turns keep the key. */
  lemma InvariantUnderTwoTurns(b: Board)
    requires IsSquare(b)
    ensures MinimalRepresentation(Rotate90(Rotate90(b))) == MinimalRepresentation(b)
  {
    InvariantUnderRotation(Rotate90(b));
    InvariantUnderRotation(b);
  }

  /** Three quarter turns keep the key. */
  lemma InvariantUnderThreeTurns(b: Board)
    requires IsSquare(b)
    ensures MinimalRepresentation(Rotate90(Rotate90(Rotate90(b)))) == MinimalRepresentation(b)
  {
    InvariantUnderRotation(Rotate90(Rotate90(b)));
    InvariantUnderTwoTurns(b);
  }

  /** The mirror image of a turned board keeps the key. */
  lemma InvariantUnderTurnsThenReflection(b: Board)
    requires IsSquare(b)
    ensures MinimalRepresentation(ReflectHorizontal(Rotate90(b))) == MinimalRepresentation(b)
    ensures MinimalRepresentation(ReflectHorizontal(Rotate90(Rotate90(b)))) == MinimalRepresentation(b)
    ensures MinimalRepresentation(ReflectHorizontal(Rotate90(Rotate90(Rotate90(b))))) == MinimalRepresentation(b)
  {
    InvariantUnderReflection(Rotate90(b));
    InvariantUnderRotation(b);
    InvariantUnderReflection(Rotate90(Rotate90(b)));
    InvariantUnderTwoTurns(b);
    InvariantUnderReflection(Rotate90(Rotate90(Rotate90(b))));
    InvariantUnderThreeTurns(b);
  }

  /**
   * Every one of the eight images of a board (the four turns and their
   * mirror images) has the board's key.
   */
  lemma DihedralInvariance(b: Board)
    requires IsSquare(b)
    ensures var r1 := Rotate90(b); var r2 := Rotate90(r1); var r3 := Rotate90(r2);
      && MinimalRepresentation(r1) == MinimalRepresentation(b)
      && MinimalRepresentation(r2) == MinimalRepresentation(b)
      && MinimalRepresentation(r3) == MinimalRepresentation(b)
      && MinimalRepresentation(ReflectHorizontal(b)) == MinimalRepresentation(b)
      && MinimalRepresentation(ReflectHorizontal(r1)) == MinimalRepresentation(b)
      && MinimalRepresentation(ReflectHorizontal(r2)) == MinimalRepresentation(b)
      && MinimalRepresentation(ReflectHorizontal(r3)) == MinimalRepresentation(b)
  {
    InvariantUnderRotation(b);
    InvariantUnderTwoTurns(b);
    InvariantUnderThreeTurns(b);
    InvariantUnderReflection(b);
    InvariantUnderTurnsThenReflection(b);
  }

  /* ---------------------------------------------------------------------- */
  /* Win test and rewards                                                   */
  /* ---------------------------------------------------------------------- */

  /** `check_win`: five consecutive stones of `player` in a row, column or diagonal. */
  method CheckWin(b: Board, player: Color) returns (won: bool)
    requires IsSquare(b)
    ensures won <==> HasFive(b, Stone(player))
  {
    won := ScanForFive(b, Stone(player));
  }

  /** `count_sequence`: the run of `player` stones from the start cell along `direction`. */
  method CountSequence(b: Board, startRow: int, startCol: int, direction: Dir, player: Color) returns (length: nat)
    requires IsUnitDir(direction)
    ensures length == Ray(b, Pos(startRow, startCol), direction, Stone(player))
  {
    length := 0;
    var p := Pos(startRow, startCol);
    while OnBoard(b, p) && b[p.row][p.col] == Stone(player)
      invariant length + Ray(b, p, direction, Stone(player)) == Ray(b, Pos(startRow, startCol), direction, Stone(player))
      decreases Ray(b, p, direction, Stone(player))
    {
      length := length + 1;
      p := Next(p, direction);
    }
  }

  /** The directions the reward scans look along, in the source's order. */
  const Directions: seq<Dir> := [Dir(1, 0), Dir(0, 1), Dir(1, 1), Dir(1, -1)]

  /** What `evaluate_sequences` adds for a run of the given length. */
  function SequencePoints(length: nat): int {
    if length >= 5 then 100 else if length == 4 then 10 else if length == 3 then 5 else if length == 2 then 1 else 0
  }

  /** What `evaluate_threats` adds for a run of the given length (nothing for five or more). */
  function ThreatPoints(length: nat): int {
    if length == 4 then -20 else if length == 3 then -10 else if length == 2 then -5 else 0
  }

  /** The points of the runs of `t` from `p` along the first `k` directions. */
  function CellPoints(b: Board, p: Pos, t: Cell, points: nat -> int, k: nat): int
    requires k <= 4
  {
    if k == 0 then 0 else CellPoints(b, p, t, points, k - 1) + points(Ray(b, p, Directions[k - 1], t))
  }

  /** The points of every cell visited before `(r, c)` in row-major order. */
  function BoardPoints(b: Board, t: Cell, points: nat -> int, r: nat, c: nat): int
    decreases r, c
  {
    if c == 0 then (if r == 0 then 0 else BoardPoints(b, t, points, r - 1, |b|))
    else BoardPoints(b, t, points, r, c - 1) + CellPoints(b, Pos(r, c - 1), t, points, 4)
  }

  /** The total of `evaluate_sequences` for `player`. */
  function SequenceTotal(b: Board, player: Color): int {
    BoardPoints(b, Stone(player), SequencePoints, |b|, 0)
  }

  /** The total of `evaluate_threats` for `player`. */
  function ThreatTotal(b: Board, player: Color): int {
    BoardPoints(b, Stone(player), ThreatPoints, |b|, 0)
  }

  /** `evaluate_sequences`: every cell, every direction, points for runs of two to five. */
  method EvaluateSequences(b: Board, player: Color) returns (reward: int)
    requires IsSquare(b)
    ensures reward == SequenceTotal(b, player)
  {
    reward := 0;
    for row := 0 to |b|
      invariant reward == BoardPoints(b, Stone(player), SequencePoints, row, 0)
    {
      for col := 0 to |b[row]|
        invariant reward == BoardPoints(b, Stone(player), SequencePoints, row, col)
      {
        for k := 0 to |Directions|
          invariant reward == BoardPoints(b, Stone(player), SequencePoints, row, col)
                              + CellPoints(b, Pos(row, col), Stone(player), SequencePoints, k)
        {
          var sequenceLength := CountSequence(b, row, col, Directions[k], player);
          if sequenceLength >= 5 {
            reward := reward + 100;
          } else if sequenceLength == 4 {
            reward := reward + 10;
          } else if sequenceLength == 3 {
            reward := reward + 5;
          } else if sequenceLength == 2 {
            reward := reward + 1;
          }
        }
      }
    }
  }

  /** `evaluate_threats`: every cell, every direction, penalties for runs of two to four. */
  method EvaluateThreats(b: Board, player: Color) returns (reward: int)
    requires IsSquare(b)
    ensures reward == ThreatTotal(b, player)
  {
    reward := 0;
    for row := 0 to |b|
      invariant reward == BoardPoints(b, Stone(player), ThreatPoints, row, 0)
    {
      for col := 0 to |b[row]|
        invariant reward == BoardPoints(b, Stone(player), ThreatPoints, row, col)
      {
        for k := 0 to |Directions|
          invariant reward == BoardPoints(b, Stone(player), ThreatPoints, row, col)
                              + CellPoints(b, Pos(row, col), Stone(player), ThreatPoints, k)
        {
          var sequenceLength := CountSequence(b, row, col, Directions[k], player);
          if sequenceLength == 4 {
            reward := reward - 20;
          } else if sequenceLength == 3 {
            reward := reward - 10;
          } else if sequenceLength == 2 {
            reward := reward - 5;
          }
        }
      }
    }
  }

  lemma {:induction false} CellPointsSign(b: Board, p: Pos, t: Cell, points: nat -> int, k: nat)
    requires k <= 4
    ensures (forall x: nat :: points(x) >= 0) ==> CellPoints(b, p, t, points, k) >= 0
    ensures (forall x: nat :: points(x) <= 0) ==> CellPoints(b, p, t, points, k) <= 0
  {
    if k > 0 {
      CellPointsSign(b, p, t, points, k - 1);
    }
  }

  lemma {:induction false} BoardPointsSign(b: Board, t: Cell, points: nat -> int, r: nat, c: nat)
    ensures (forall x: nat :: points(x) >= 0) ==> BoardPoints(b, t, points, r, c) >= 0
    ensures (forall x: nat :: points(x) <= 0) ==> BoardPoints(b, t, points, r, c) <= 0
    decreases r, c
  {
    if c == 0 {
      if r > 0 {
        BoardPointsSign(b, t, points, r - 1, |b|);
      }
    } else {
      BoardPointsSign(b, t, points, r, c - 1);
      CellPointsSign(b, Pos(r, c - 1), t, points, 4);
    }
  }

  /** Runs only ever earn sequence points and only ever cost threat points. */
  lemma RewardSigns(b: Board, player: Color)
    ensures SequenceTotal(b, player) >= 0
    ensures ThreatTotal(b, player) <= 0
  {
    BoardPointsSign(b, Stone(player), SequencePoints, |b|, 0);
    BoardPointsSign(b, Stone(player), ThreatPoints, |b|, 0);
  }

  lemma {:induction false} CellPointsWithout(b: Board, p: Pos, t: Cell, points: nat -> int, k: nat)
    requires k <= 4 && points(0) == 0 && !Matches(b, p, t)
    ensures CellPoints(b, p, t, points, k) == 0
  {
    if k > 0 {
      CellPointsWithout(b, p, t, points, k - 1);
    }
  }

  lemma {:induction false} BoardPointsWithout(b: Board, t: Cell, points: nat -> int, r: nat, c: nat)
    requires points(0) == 0
    requires forall i, j :: 0 <= i < |b| && 0 <= j < |b[i]| ==> b[i][j] != t
    ensures BoardPoints(b, t, points, r, c) == 0
    decreases r, c
  {
    if c == 0 {
      if r > 0 {
        BoardPointsWithout(b, t, points, r - 1, |b|);
      }
    } else {
      BoardPointsWithout(b, t, points, r, c - 1);
      CellPointsWithout(b, Pos(r, c - 1), t, points, 4);
    }
  }

  /** A colour with no stone on the board earns no points and poses no threat. */
  lemma NoStonesNoReward(b: Board, player: Color)
    requires forall i, j :: 0 <= i < |b| && 0 <= j < |b[i]| ==> b[i][j] != Stone(player)
    ensures SequenceTotal(b, player) == 0 && ThreatTotal(b, player) == 0
  {
    BoardPointsWithout(b, Stone(player), SequencePoints, |b|, 0);
    BoardPointsWithout(b, Stone(player), ThreatPoints, |b|, 0);
  }

  /**
   * `calculate_smarter_reward` as written: 1000 for a win of `player`, -1000
   * for a win of the opponent, otherwise the sequence points minus the value
   * of `evaluate_threats` for the opponent.
   */
  method CalculateSmarterReward(b: Board, player: Color) returns (reward: int)
    requires IsSquare(b)
    ensures HasFive(b, Stone(player)) ==> reward == 1000
    ensures !HasFive(b, Stone(player)) && HasFive(b, Stone(Opponent(player))) ==> reward == -1000
    ensures !HasFive(b, Stone(player)) && !HasFive(b, Stone(Opponent(player))) ==>
      reward == SequenceTotal(b, player) - ThreatTotal(b, Opponent(player))
  {
    var opponent := if player == Black then White else Black;
    reward := 0;
    var won := CheckWin(b, player);
    if won {
      return 1000;
    }
    var lost := CheckWin(b, opponent);
    if lost {
      return -1000;
    }
    var sequences := EvaluateSequences(b, player);
    reward := reward + sequences;
    var threats := EvaluateThreats(b, opponent);
    reward := reward - threats;
  }

  /** `evaluate_threats` is never positive, so subtracting it never lowers the reward. */
  lemma ThreatsRaiseReward(b: Board, player: Color)
    ensures SequenceTotal(b, player) - ThreatTotal(b, Opponent(player)) >= SequenceTotal(b, player)
  {
    RewardSigns(b, Opponent(player));
  }

  /** A board of fewer than five rows holds no five. */
  lemma NoFiveOnSmallBoard(b: Board, t: Cell)
    requires IsSquare(b) && |b| < 5
    ensures !HasFive(b, t)
  {
    forall r, c, d | IsLineDir(d) ensures !FiveAt(b, Pos(r, c), d, t) {
      FiveNeedsRoom(b, Pos(r, c), d, t);
    }
  }

  /** Two white stones side by side on a 2 × 2 board, and nothing else. */
  const WhitePair: Board := [[Stone(White), Stone(White)], [Empty, Empty]]

  /**
   * White's corner stone (0, 0) is worth -5 threat points: the run of two
   * along its row scores -5, and its other three directions see a run of one.
   */
  lemma WhitePairCorner()
    ensures CellPoints(WhitePair, Pos(0, 0), Stone(White), ThreatPoints, 4) == -5
  {
    var b, w, p := WhitePair, Stone(White), Pos(0, 0);
    assert !Matches(b, Pos(0, 2), w) && !Matches(b, Pos(1, 0), w);
    assert !Matches(b, Pos(1, 1), w) && !Matches(b, Pos(1, -1), w);
    assert Ray(b, Pos(0, 1), Dir(0, 1), w) == 1;
    assert Ray(b, p, Dir(1, 0), w) == 1;
    assert Ray(b, p, Dir(0, 1), w) == 2;
    assert Ray(b, p, Dir(1, 1), w) == 1;
    assert Ray(b, p, Dir(1, -1), w) == 1;
    assert CellPoints(b, p, w, ThreatPoints, 1) == 0;
    assert CellPoints(b, p, w, ThreatPoints, 2) == -5;
    assert CellPoints(b, p, w, ThreatPoints, 3) == -5;
  }

  /** White's second stone (0, 1) adds nothing: every direction from it sees a run of one. */
  lemma WhitePairSecond()
    ensures CellPoints(WhitePair, Pos(0, 1), Stone(White), ThreatPoints, 4) == 0
  {
    var w := Stone(White);
    assert Ray(WhitePair, Pos(0, 1), Dir(1, 0), w) == 1;
    assert Ray(WhitePair, Pos(0, 1), Dir(0, 1), w) == 1;
    assert Ray(WhitePair, Pos(0, 1), Dir(1, 1), w) == 1;
    assert Ray(WhitePair, Pos(0, 1), Dir(1, -1), w) == 1;
  }

  /** The threat value of White on that board is -5, from the pair alone. */
  lemma WhitePairThreat()
    ensures ThreatTotal(WhitePair, White) == -5
  {
    var w := Stone(White);
    WhitePairCorner();
    WhitePairSecond();
    CellPointsWithout(WhitePair, Pos(1, 0), w, ThreatPoints, 4);
    CellPointsWithout(WhitePair, Pos(1, 1), w, ThreatPoints, 4);
    assert BoardPoints(WhitePair, w, ThreatPoints, 1, 0) == -5;
  }

  /**
   * On that board Black has nothing and White threatens a two, yet the
   * reward Black receives is 5: the penalty is subtracted after already
   * being negative.
   */
  lemma WhitePairRewardsBlack()
    ensures IsSquare(WhitePair) && !HasFive(WhitePair, Stone(Black)) && !HasFive(WhitePair, Stone(White))
    ensures SequenceTotal(WhitePair, Black) - ThreatTotal(WhitePair, White) == 5
  {
    NoFiveOnSmallBoard(WhitePair, Stone(Black));
    NoFiveOnSmallBoard(WhitePair, Stone(White));
    NoStonesNoReward(WhitePair, Black);
    WhitePairThreat();
  }

  /**
   * The reward with the opponent's threats counted as penalties, as the
   * helper's own description intends: the threat value is added, not
   * subtracted.
   */
  method CalculateIntendedReward(b: Board, player: Color) returns (reward: int)
    requires IsSquare(b)
    ensures HasFive(b, Stone(player)) ==> reward == 1000
    ensures !HasFive(b, Stone(player)) && HasFive(b, Stone(Opponent(player))) ==> reward == -1000
    ensures !HasFive(b, Stone(player)) && !HasFive(b, Stone(Opponent(player))) ==>
      reward == SequenceTotal(b, player) + ThreatTotal(b, Opponent(player))
      && reward <= SequenceTotal(b, player)
  {
    var opponent := Opponent(player);
    var won := CheckWin(b, player);
    if won {
      return 1000;
    }
    var lost := CheckWin(b, opponent);
    if lost {
      return -1000;
    }
    var sequences := EvaluateSequences(b, player);
    var threats := EvaluateThreats(b, opponent);
    RewardSigns(b, opponent);
    reward := sequences + threats;
  }

  /* ---------------------------------------------------------------------- */
  /* The Q-table and the agent                                              */
  /* ---------------------------------------------------------------------- */

  /** The value of a state key; the hash of the minimal serialisation is kept as the serialisation itself. */
  type Key = seq<int>

  /** The stored values of one state, per move. */
  type QRow = map<Pos, real>

  type QTable = map<Key, QRow>

  /** The agent is built outside learning mode, so exploration is switched off. */
  const LearningMode := false

  /** `row.get(move, default)`. */
  function Stored(row: QRow, move: Pos, default: real): real {
    if move in row then row[move] else default
  }

  /** The table with an empty row added for `key` when it has none. */
  function WithRow(table: QTable, key: Key): (r: QTable)
    ensures r.Keys == table.Keys + {key}
    ensures forall k :: k in table ==> r[k] == table[k]
    ensures key !in table ==> r[key] == map[]
  {
    if key in table then table else table[key := map[]]
  }

  /** `max(row.values(), default=default)`. */
  ghost predicate IsMaxValue(row: QRow, default: real, v: real) {
    (row == map[] ==> v == default) &&
    (row != map[] ==> (exists m :: m in row && row[m] == v) && forall m :: m in row ==> row[m] <= v)
  }

  /** The maximum is determined by the row. */
  lemma MaxValueUnique(row: QRow, default: real, v: real, w: real)
    requires IsMaxValue(row, default, v) && IsMaxValue(row, default, w)
    ensures v == w
  {
    if row != map[] {
      var m :| m in row && row[m] == v;
      var m' :| m' in row && row[m'] == w;
      assert row[m] <= w && row[m'] <= v;
    }
  }

  /** The largest value stored in a row, or `default` for an empty row. */
  method MaxStored(row: QRow, default: real) returns (v: real)
    ensures IsMaxValue(row, default, v)
  {
    if row == map[] {
      return default;
    }
    var m :| m in row;
    v := row[m];
    var todo := row.Keys - {m};
    while todo != {}
      invariant todo <= row.Keys
      invariant exists m :: m in row && row[m] == v
      invariant forall m :: m in row && m !in todo ==> row[m] <= v
      decreases todo
    {
      var k :| k in todo;
      if row[k] > v {
        v := row[k];
      }
      todo := todo - {k};
    }
  }

  /** The Q-value update rule: `current` moved by `alpha` towards `reward + gamma * future`. */
  function TdValue(current: real, reward: real, future: real, alpha: real, gamma: real): real {
    current + alpha * (reward + gamma * future - current)
  }

  /** The table with the value of action `a` in state `s` updated by the rule. */
  function TdStep(t: QTable, s: Key, a: Pos, reward: real, alpha: real, gamma: real, init: real, future: real): QTable
    requires s in t
  {
    t[s := t[s][a := TdValue(Stored(t[s], a, init), reward, future, alpha, gamma)]]
  }

  /**
   * The temporal-difference update of `update_q_table`: both keys get a row,
   * and the value of the last action in the last state moves by `alpha`
   * towards the reward plus the discounted best value of the new state.
   */
  ghost predicate TdUpdated(before: QTable, after: QTable, s: Key, a: Pos, next: Key,
                            reward: real, alpha: real, gamma: real, init: real)
  {
    var t := WithRow(WithRow(before, s), next);
    exists future :: IsMaxValue(t[next], init, future) && after == TdStep(t, s, a, reward, alpha, gamma, init, future)
  }

  /** The update writes one value and adds at most two rows; every other stored value stays. */
  lemma TdUpdateWritesOneValue(before: QTable, after: QTable, s: Key, a: Pos, next: Key,
                               reward: real, alpha: real, gamma: real, init: real)
    requires TdUpdated(before, after, s, a, next, reward, alpha, gamma, init)
    ensures after.Keys == before.Keys + {s, next}
    ensures a in after[s]
    ensures forall k, m :: k in before && m in before[k] && (k != s || m != a) ==>
      m in after[k] && after[k][m] == before[k][m]
  {
  }

  /** The new value of the last action, given the reward and the best value of the new state. */
  lemma TdUpdateValue(before: QTable, after: QTable, s: Key, a: Pos, next: Key,
                      reward: real, alpha: real, gamma: real, init: real, future: real)
    requires TdUpdated(before, after, s, a, next, reward, alpha, gamma, init)
    requires IsMaxValue(WithRow(WithRow(before, s), next)[next], init, future)
    ensures after[s][a] == TdValue(if s in before then Stored(before[s], a, init) else init, reward, future, alpha, gamma)
  {
    var t := WithRow(WithRow(before, s), next);
    var f :| IsMaxValue(t[next], init, f) && after == TdStep(t, s, a, reward, alpha, gamma, init, f);
    MaxValueUnique(t[next], init, f, future);
  }

  /** The move `QLearningAgent.make_move` answers on a board holding exactly one stone. */
  function OpeningMove(board: Board): Result<Pos>
    requires |EmptyCells(board)| == |board| * |board| - 1
  {
    if |board| <= 4 || |board[4]| <= 4 then Raised(IndexError("list index out of range"))
    else if board[4][4] == Empty then Ok(Pos(4, 4))
    else Ok(EmptyCells(board)[0])
  }

  /** On a board of at least five rows the opening answer is an empty cell. */
  lemma OpeningMoveIsEmpty(board: Board)
    requires IsSquare(board) && |EmptyCells(board)| == |board| * |board| - 1
    ensures |board| > 4 <==> OpeningMove(board).Ok?
    ensures OpeningMove(board).Ok? ==> IsEmptyAt(board, OpeningMove(board).value)
  {
    EmptyCellsSpec(board);
    if |board| > 4 && board[4][4] != Empty {
      assert EmptyCells(board)[0] in EmptyCells(board);
    }
  }

  /** The moves whose value in `row` is the largest: `max(move_q_values.values(), default=...)`. */
  method MaxOverMoves(row: QRow, moves: seq<Pos>, default: real) returns (maxQ: real)
    ensures moves == [] ==> maxQ == default
    ensures moves != [] ==> exists i :: 0 <= i < |moves| && Stored(row, moves[i], default) == maxQ
    ensures forall i :: 0 <= i < |moves| ==> Stored(row, moves[i], default) <= maxQ
  {
    if moves == [] {
      return default;
    }
    maxQ := Stored(row, moves[0], default);
    for i := 1 to |moves|
      invariant exists j :: 0 <= j < i && Stored(row, moves[j], default) == maxQ
      invariant forall j :: 0 <= j < i ==> Stored(row, moves[j], default) <= maxQ
    {
      if Stored(row, moves[i], default) > maxQ {
        maxQ := Stored(row, moves[i], default);
      }
    }
  }

  /** `best_moves`: the moves whose value equals `maxQ`, in their order. */
  method BestMoves(row: QRow, moves: seq<Pos>, default: real, maxQ: real) returns (best: seq<Pos>)
    ensures forall m :: m in best ==> m in moves && Stored(row, m, default) == maxQ
    ensures forall i :: 0 <= i < |moves| && Stored(row, moves[i], default) == maxQ ==> moves[i] in best
  {
    best := [];
    for i := 0 to |moves|
      invariant forall m :: m in best ==> m in moves && Stored(row, m, default) == maxQ
      invariant forall j :: 0 <= j < i && Stored(row, moves[j], default) == maxQ ==> moves[j] in best
    {
      if Stored(row, moves[i], default) == maxQ {
        best := best + [moves[i]];
      }
    }
  }

  /**
   * The greedy choice of `make_move`: among `moves`, one of largest stored
   * value, the tie broken by the oracle `pick`; `None` when there is no move.
   */
  method ChooseGreedy(row: QRow, moves: seq<Pos>, default: real, pick: nat) returns (choice: Option<Pos>)
    ensures choice.None? <==> moves == []
    ensures choice.Some? ==> choice.value in moves
    ensures choice.Some? ==> forall m :: m in moves ==> Stored(row, m, default) <= Stored(row, choice.value, default)
  {
    var maxQ := MaxOverMoves(row, moves, default);
    var bestMoves := BestMoves(row, moves, default, maxQ);
    if bestMoves == [] {
      return None;
    }
    assert bestMoves[0] in bestMoves;
    return Some(bestMoves[pick % |bestMoves|]);
  }

  /** The row stored for `key`, or the empty row `make_move` would add. */
  function RowOf(table: QTable, key: Key): QRow {
    if key in table then table[key] else map[]
  }

  class QLearningAgent {
    var alpha: real
    var gamma: real
    var epsilon: real
    var initialQValue: real
    var qTable: QTable
    var lastState: Option<Key>
    var lastAction: Option<Pos>
    var gameCounter: nat
    var currentPlayer: Color

    /** `__init__`; `stored` is the table `load_q_table` read, or the empty table when there is none. */
    constructor (currentPlayer: Color, alpha: real, gamma: real, epsilon: real, initialQValue: real, stored: QTable)
      ensures this.currentPlayer == currentPlayer && this.alpha == alpha && this.gamma == gamma
      ensures this.epsilon == (if LearningMode then epsilon else 0.0)
      ensures this.initialQValue == initialQValue && qTable == stored
      ensures lastState == None && lastAction == None && gameCounter == 0
    {
      this.alpha := alpha;
      this.gamma := gamma;
      this.epsilon := if LearningMode then epsilon else 0.0;
      this.initialQValue := initialQValue;
      qTable := stored;
      lastState := None;
      lastAction := None;
      gameCounter := 0;
      this.currentPlayer := currentPlayer;
    }

    /** The table part of `update_q_table`: add the missing rows, then apply the update rule. */
    method ApplyUpdate(s: Key, a: Pos, next: Key, reward: real)
      modifies this`qTable
      ensures TdUpdated(old(qTable), qTable, s, a, next, reward, alpha, gamma, initialQValue)
    {
      if s !in qTable {
        qTable := qTable[s := map[]];
      }
      if next !in qTable {
        qTable := qTable[next := map[]];
      }
      assert qTable == WithRow(WithRow(old(qTable), s), next);
      var maxFutureQ := MaxStored(qTable[next], initialQValue);
      qTable := TdStep(qTable, s, a, reward, alpha, gamma, initialQValue, maxFutureQ);
    }

    /**
     * `update_q_table`: without a remembered state and action nothing
     * changes; otherwise the temporal-difference update with the evaluation
     * of `board` for `player` as reward, after which the memory is cleared
     * and one more update is counted. `delta` is the evaluation's jitter.
     */
    method UpdateQTable(board: Board, player: Color, delta: real)
      requires IsSquare(board)
      modifies this`qTable, this`lastState, this`lastAction, this`gameCounter
      ensures old(lastState).None? || old(lastAction).None? ==>
        qTable == old(qTable) && lastState == old(lastState) && lastAction == old(lastAction) &&
        gameCounter == old(gameCounter)
      ensures old(lastState).Some? && old(lastAction).Some? ==>
        TdUpdated(old(qTable), qTable, old(lastState).value, old(lastAction).value, StateKey(board),
                  EvaluationFunction(board, player, delta) as real, alpha, gamma, initialQValue) &&
        lastState == None && lastAction == None && gameCounter == old(gameCounter) + 1
    {
      var stateKey := StateKey(board);
      if lastState.None? || lastAction.None? {
        return;
      }
      var smarterReward := EvaluationFunction(board, player, delta);
      ApplyUpdate(lastState.value, lastAction.value, stateKey, smarterReward as real);
      lastState := None;
      lastAction := None;
      gameCounter := gameCounter + 1;
    }

    /**
     * The greedy part of `make_move`, once the row of the state exists: a
     * move of largest stored value among the empty cells, remembered and at
     * once updated against the same board; `IndexError` when none is left.
     */
    method Exploit(board: Board, stateKey: Key, pick: nat, delta: real) returns (r: Result<Pos>)
      requires IsSquare(board) && stateKey == StateKey(board) && stateKey in qTable
      modifies this`qTable, this`lastState, this`lastAction, this`gameCounter
      ensures r.Ok? <==> !IsFull(board)
      ensures r.Raised? ==>
        qTable == old(qTable) && lastState == old(lastState) &&
        lastAction == old(lastAction) && gameCounter == old(gameCounter)
      ensures r.Ok? ==>
        IsEmptyAt(board, r.value) &&
        forall q :: IsEmptyAt(board, q) ==>
          Stored(old(qTable)[stateKey], q, initialQValue) <= Stored(old(qTable)[stateKey], r.value, initialQValue)
      ensures r.Ok? ==>
        TdUpdated(old(qTable), qTable, stateKey, r.value, stateKey,
                  EvaluationFunction(board, currentPlayer, delta) as real, alpha, gamma, initialQValue) &&
        lastState == None && lastAction == None && gameCounter == old(gameCounter) + 1
    {
      var validMoves := EmptyCells(board);
      var choice := ChooseGreedy(qTable[stateKey], validMoves, initialQValue, pick);
      EmptyCellsSpec(board);
      NoEmptyCellsIffFull(board);
      if choice.None? {
        return Raised(IndexError("Cannot choose from an empty sequence"));
      }
      var move := choice.value;
      lastState := Some(stateKey);
      lastAction := Some(move);
      UpdateQTable(board, currentPlayer, delta);
      return Ok(move);
    }

    /**
     * `make_move`. The row of the state is added when missing; with exactly
     * one stone on the board the fixed opening answer, otherwise the greedy
     * choice among the ties by the oracle `pick`, remembered and updated.
     */
    method MakeMove(board: Board, pick: nat, delta: real) returns (r: Result<Pos>)
      requires IsSquare(board)
      modifies this`qTable, this`lastState, this`lastAction, this`gameCounter
      ensures var opening := |EmptyCells(board)| == |board| * |board| - 1;
        opening ==> r == OpeningMove(board)
      ensures r.Raised? ==>
        qTable == WithRow(old(qTable), StateKey(board)) && lastState == old(lastState) &&
        lastAction == old(lastAction) && gameCounter == old(gameCounter)
      ensures |EmptyCells(board)| != |board| * |board| - 1 ==> (r.Ok? <==> !IsFull(board))
      ensures |EmptyCells(board)| != |board| * |board| - 1 && r.Ok? ==>
        IsEmptyAt(board, r.value) &&
        (forall q :: IsEmptyAt(board, q) ==>
          Stored(RowOf(old(qTable), StateKey(board)), q, initialQValue) <=
          Stored(RowOf(old(qTable), StateKey(board)), r.value, initialQValue))
      ensures |EmptyCells(board)| != |board| * |board| - 1 && r.Ok? ==>
        TdUpdated(WithRow(old(qTable), StateKey(board)), qTable, StateKey(board), r.value, StateKey(board),
                  EvaluationFunction(board, currentPlayer, delta) as real, alpha, gamma, initialQValue) &&
        lastState == None && lastAction == None && gameCounter == old(gameCounter) + 1
      ensures |EmptyCells(board)| == |board| * |board| - 1 && r.Ok? ==>
        qTable == WithRow(old(qTable), StateKey(board)) && lastState == old(lastState) &&
        lastAction == old(lastAction) && gameCounter == old(gameCounter)
    {
      var stateKey := StateKey(board);
      if stateKey !in qTable {
        qTable := qTable[stateKey := map[]];
      }
      var validMoves := EmptyCells(board);
      if |validMoves| == |board| * |board| - 1 {
        return OpeningMove(board);
      }
      assert qTable[stateKey] == RowOf(old(qTable), stateKey);
      r := Exploit(board, stateKey, pick, delta);
    }
  }
}
