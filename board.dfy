/**
 * The board shared by the game and by every agent: a square grid whose cells
 * are empty or hold a black or a white stone, together with the line
 * vocabulary (runs, five-in-a-row windows) that the win checks are proved
 * against.
 */
module BoardModel {

  /** The two stone colours, spelled "black" and "white" in the source. */
  datatype Color = Black | White

  /** A cell: `None` in the source is `Empty`. */
  datatype Cell = Empty | Stone(color: Color)

  /** A (row, column) pair; it may lie off the board, as the sentinel (-1, -1) does. */
  datatype Pos = Pos(row: int, col: int)

  /** A step (dr, dc) along a line of the board. */
  datatype Dir = Dir(dr: int, dc: int)

  type Board = seq<seq<Cell>>

  function Opponent(c: Color): (o: Color)
    ensures o != c
  {
    if c == Black then White else Black
  }

  predicate IsSquare(b: Board) {
    forall i :: 0 <= i < |b| ==> |b[i]| == |b|
  }

  function EmptyBoard(n: nat): (b: Board)
    ensures |b| == n && IsSquare(b)
    ensures forall i, j :: 0 <= i < n && 0 <= j < n ==> b[i][j] == Empty
  {
    seq(n, _ => seq(n, _ => Empty))
  }

  /** `in_bounds` of the source. */
  predicate InBounds(r: int, c: int, maxR: int, maxC: int) {
    0 <= r < maxR && 0 <= c < maxC
  }

  predicate OnBoard(b: Board, p: Pos) {
    0 <= p.row < |b| && 0 <= p.col < |b[p.row]|
  }

  predicate Matches(b: Board, p: Pos, t: Cell) {
    OnBoard(b, p) && b[p.row][p.col] == t
  }

  predicate IsEmptyAt(b: Board, p: Pos) {
    Matches(b, p, Empty)
  }

  predicate IsOccupied(b: Board, p: Pos) {
    OnBoard(b, p) && b[p.row][p.col] != Empty
  }

  /** The board with cell `p` set to `t`; a position off the board leaves it as it is. */
  function Place(b: Board, p: Pos, t: Cell): (r: Board)
    ensures |r| == |b| && forall i :: 0 <= i < |b| ==> |r[i]| == |b[i]|
    ensures OnBoard(b, p) ==> r[p.row][p.col] == t
    ensures forall q :: OnBoard(b, q) && q != p ==> r[q.row][q.col] == b[q.row][q.col]
  {
    if OnBoard(b, p) then b[p.row := b[p.row][p.col := t]] else b
  }

  lemma PlaceKeepsSquare(b: Board, p: Pos, t: Cell)
    requires IsSquare(b)
    ensures IsSquare(Place(b, p, t)) && |Place(b, p, t)| == |b|
  {
  }

  function Reverse(row: seq<Cell>): (r: seq<Cell>)
    ensures |r| == |row|
  {
    if row == [] then [] else Reverse(row[1..]) + [row[0]]
  }

  lemma {:induction false} ReverseAt(row: seq<Cell>)
    ensures forall c :: 0 <= c < |row| ==> Reverse(row)[c] == row[|row| - 1 - c]
  {
    if row != [] {
      ReverseAt(row[1..]);
    }
  }

  /** The board mirrored left to right (numpy's `fliplr`): every row reversed. */
  function FlipLR(b: Board): (f: Board)
    ensures |f| == |b| && forall r :: 0 <= r < |b| ==> |f[r]| == |b[r]|
  {
    if b == [] then [] else [Reverse(b[0])] + FlipLR(b[1..])
  }

  lemma {:induction false} FlipLRAt(b: Board)
    ensures forall r, c :: 0 <= r < |b| && 0 <= c < |b[r]| ==> FlipLR(b)[r][c] == b[r][|b[r]| - 1 - c]
  {
    if b != [] {
      FlipLRAt(b[1..]);
      ReverseAt(b[0]);
      forall r, c | 0 <= r < |b| && 0 <= c < |b[r]| ensures FlipLR(b)[r][c] == b[r][|b[r]| - 1 - c] {
        if r > 0 {
          assert FlipLR(b)[r] == FlipLR(b[1..])[r - 1];
        }
      }
    }
  }

  /* ---------------------------------------------------------------------- */
  /* Counting cells                                                         */
  /* ---------------------------------------------------------------------- */

  function CountInRow(row: seq<Cell>, t: Cell): nat {
    if row == [] then 0 else (if row[0] == t then 1 else 0) + CountInRow(row[1..], t)
  }

  function CountCells(b: Board, t: Cell): nat {
    if b == [] then 0 else CountInRow(b[0], t) + CountCells(b[1..], t)
  }

  function Indicator(x: Cell, t: Cell): int {
    if x == t then 1 else 0
  }

  lemma {:induction false} CountInRowNone(row: seq<Cell>, t: Cell)
    requires forall j :: 0 <= j < |row| ==> row[j] != t
    ensures CountInRow(row, t) == 0
    decreases |row|
  {
    if row != [] {
      CountInRowNone(row[1..], t);
    }
  }

  /** A value that appears in no cell is counted zero times. */
  lemma {:induction false} CountCellsNone(b: Board, t: Cell)
    requires forall i, j :: 0 <= i < |b| && 0 <= j < |b[i]| ==> b[i][j] != t
    ensures CountCells(b, t) == 0
    decreases |b|
  {
    if b != [] {
      CountInRowNone(b[0], t);
      CountCellsNone(b[1..], t);
    }
  }

  lemma {:induction false} CountInRowUpdate(row: seq<Cell>, j: nat, x: Cell, t: Cell)
    requires j < |row|
    ensures CountInRow(row[j := x], t) == CountInRow(row, t) - Indicator(row[j], t) + Indicator(x, t)
    decreases j
  {
    if j > 0 {
      assert row[j := x][1..] == row[1..][j - 1 := x];
      CountInRowUpdate(row[1..], j - 1, x, t);
    } else {
      assert row[j := x][1..] == row[1..];
    }
  }

  /** Setting one cell changes the count of `t` by exactly what that cell contributed. */
  lemma {:induction false} CountAfterPlace(b: Board, p: Pos, x: Cell, t: Cell)
    requires OnBoard(b, p)
    ensures CountCells(Place(b, p, x), t)
         == CountCells(b, t) - Indicator(b[p.row][p.col], t) + Indicator(x, t)
    decreases p.row
  {
    var r := Place(b, p, x);
    if p.row == 0 {
      assert r[1..] == b[1..];
      CountInRowUpdate(b[0], p.col, x, t);
    } else {
      var q := Pos(p.row - 1, p.col);
      assert Place(b[1..], q, x) == r[1..];
      CountAfterPlace(b[1..], q, x, t);
    }
  }

  /* ---------------------------------------------------------------------- */
  /* Row-major scans of the cells that satisfy a test                       */
  /* ---------------------------------------------------------------------- */

  /** `p` comes before `q` in row-major order. */
  predicate Before(p: Pos, q: Pos) {
    p.row < q.row || (p.row == q.row && p.col < q.col)
  }

  predicate StrictlyOrdered(s: seq<Pos>) {
    forall i, j :: 0 <= i < j < |s| ==> Before(s[i], s[j])
  }

  lemma OrderedIsDistinct(s: seq<Pos>)
    requires StrictlyOrdered(s)
    ensures forall i, j :: 0 <= i < j < |s| ==> s[i] != s[j]
  {
  }

  /**
   * The positions (i, j), j < n, accepted by `keep`, in row-major order: every
   * row above `r`, then row `r` up to column `c` (exclusive).
   */
  function Scan(n: nat, keep: Pos -> bool, r: nat, c: nat): seq<Pos>
    decreases r, c
  {
    if c == 0 then (if r == 0 then [] else Scan(n, keep, r - 1, n))
    else Scan(n, keep, r, c - 1) + (if keep(Pos(r, c - 1)) then [Pos(r, c - 1)] else [])
  }

  predicate ScannedBy(n: nat, r: nat, c: nat, p: Pos) {
    0 <= p.col < n && 0 <= p.row && (p.row < r || (p.row == r && p.col < c))
  }

  lemma {:induction false} ScanMembers(n: nat, keep: Pos -> bool, r: nat, c: nat)
    requires c <= n
    ensures forall p :: p in Scan(n, keep, r, c) <==> keep(p) && ScannedBy(n, r, c, p)
    decreases r, c
  {
    if c == 0 {
      if r > 0 {
        ScanMembers(n, keep, r - 1, n);
      }
    } else {
      ScanMembers(n, keep, r, c - 1);
    }
  }

  lemma {:induction false} ScanOrdered(n: nat, keep: Pos -> bool, r: nat, c: nat)
    requires c <= n
    ensures StrictlyOrdered(Scan(n, keep, r, c))
    decreases r, c
  {
    if c == 0 {
      if r > 0 {
        ScanOrdered(n, keep, r - 1, n);
      }
    } else {
      var prefix := Scan(n, keep, r, c - 1);
      ScanOrdered(n, keep, r, c - 1);
      ScanMembers(n, keep, r, c - 1);
      forall i | 0 <= i < |prefix| ensures Before(prefix[i], Pos(r, c - 1)) {
        assert prefix[i] in prefix;
      }
    }
  }

  /** All cells of an n×n grid accepted by `keep`, in row-major order. */
  function AllCells(n: nat, keep: Pos -> bool): seq<Pos> {
    Scan(n, keep, n, 0)
  }

  lemma AllCellsSpec(n: nat, keep: Pos -> bool)
    ensures forall p :: p in AllCells(n, keep) <==> keep(p) && InBounds(p.row, p.col, n, n)
    ensures StrictlyOrdered(AllCells(n, keep))
  {
    ScanMembers(n, keep, n, 0);
    ScanOrdered(n, keep, n, 0);
  }

  /** Two filters that agree on the scanned cells keep the same cells. */
  lemma {:induction false} ScanAgrees(n: nat, keep: Pos -> bool, keep': Pos -> bool, r: nat, c: nat)
    requires c <= n
    requires forall p :: ScannedBy(n, r, c, p) ==> keep(p) == keep'(p)
    ensures Scan(n, keep, r, c) == Scan(n, keep', r, c)
    decreases r, c
  {
    if c == 0 {
      if r > 0 {
        ScanAgrees(n, keep, keep', r - 1, n);
      }
    } else {
      ScanAgrees(n, keep, keep', r, c - 1);
      assert ScannedBy(n, r, c, Pos(r, c - 1));
    }
  }

  lemma AllCellsAgree(n: nat, keep: Pos -> bool, keep': Pos -> bool)
    requires forall p: Pos :: InBounds(p.row, p.col, n, n) ==> keep(p) == keep'(p)
    ensures AllCells(n, keep) == AllCells(n, keep')
  {
    ScanAgrees(n, keep, keep', n, 0);
  }

  function EmptyTest(b: Board): Pos -> bool {
    p => IsEmptyAt(b, p)
  }

  /** The empty cells of the board in row-major order (the source's list of valid moves). */
  function EmptyCells(b: Board): seq<Pos> {
    AllCells(|b|, EmptyTest(b))
  }

  /** The empty cells are listed exactly once each, in row-major order. */
  lemma EmptyCellsSpec(b: Board)
    requires IsSquare(b)
    ensures forall p :: p in EmptyCells(b) <==> IsEmptyAt(b, p)
    ensures StrictlyOrdered(EmptyCells(b))
  {
    AllCellsSpec(|b|, EmptyTest(b));
  }

  /** No cell of the board is empty. */
  predicate IsFull(b: Board) {
    forall i, j :: 0 <= i < |b| && 0 <= j < |b[i]| ==> b[i][j] != Empty
  }

  /** The list of empty cells is empty exactly when the board is full. */
  lemma NoEmptyCellsIffFull(b: Board)
    requires IsSquare(b)
    ensures EmptyCells(b) == [] <==> IsFull(b)
  {
    EmptyCellsSpec(b);
    if EmptyCells(b) != [] {
      assert EmptyCells(b)[0] in EmptyCells(b);
    }
    if !IsFull(b) {
      var i, j :| 0 <= i < |b| && 0 <= j < |b[i]| && b[i][j] == Empty;
      assert Pos(i, j) in EmptyCells(b);
    }
  }

  /** A board with no empty cell has no empty cells to list, and conversely. */
  lemma {:induction false} NoEmptyCellIffCountZero(b: Board)
    requires IsSquare(b)
    ensures EmptyCells(b) == [] <==> CountCells(b, Empty) == 0
  {
    EmptyCellsSpec(b);
    if EmptyCells(b) != [] {
      var p := EmptyCells(b)[0];
      assert p in EmptyCells(b);
      CountAfterPlace(b, p, Stone(Black), Empty);
    }
    if CountCells(b, Empty) > 0 {
      var p := SomeCellWith(b, Empty);
      assert p in EmptyCells(b);
    }
  }

  lemma {:induction false} SomeCellWith(b: Board, t: Cell) returns (p: Pos)
    requires CountCells(b, t) > 0
    ensures Matches(b, p, t)
    decreases |b|
  {
    if CountInRow(b[0], t) > 0 {
      var j := SomeInRow(b[0], t);
      p := Pos(0, j);
    } else {
      var q := SomeCellWith(b[1..], t);
      p := Pos(q.row + 1, q.col);
    }
  }

  lemma {:induction false} SomeInRow(row: seq<Cell>, t: Cell) returns (j: nat)
    requires CountInRow(row, t) > 0
    ensures j < |row| && row[j] == t
    decreases |row|
  {
    if row[0] == t {
      j := 0;
    } else {
      var k := SomeInRow(row[1..], t);
      j := k + 1;
    }
  }

  /* ---------------------------------------------------------------------- */
  /* Lines, runs and five-in-a-row                                          */
  /* ---------------------------------------------------------------------- */

  /** A step to one of the eight neighbours. */
  predicate IsUnitDir(d: Dir) {
    -1 <= d.dr <= 1 && -1 <= d.dc <= 1 && (d.dr != 0 || d.dc != 0)
  }

  /** The four line directions the win checks look along. */
  predicate IsLineDir(d: Dir) {
    d == Dir(1, 0) || d == Dir(0, 1) || d == Dir(1, 1) || d == Dir(1, -1)
  }

  function Neg(d: Dir): Dir {
    Dir(-d.dr, -d.dc)
  }

  function Next(p: Pos, d: Dir): Pos {
    Pos(p.row + d.dr, p.col + d.dc)
  }

  function Shift(x: int, dx: int, i: int): int {
    if dx > 0 then x + i else if dx < 0 then x - i else x
  }

  /** The cell `i` steps from `p` along the unit direction `d`. */
  function Along(p: Pos, d: Dir, i: int): Pos {
    Pos(Shift(p.row, d.dr, i), Shift(p.col, d.dc, i))
  }

  /** The source's `row + dr * i` arithmetic is a walk along `d` (or against it). */
  lemma ScaledStep(p: Pos, d: Dir, i: int)
    requires IsUnitDir(d)
    ensures Pos(p.row + d.dr * i, p.col + d.dc * i) == Along(p, d, i)
    ensures Pos(p.row - d.dr * i, p.col - d.dc * i) == Along(p, Neg(d), i)
  {
    assert d.dr == -1 || d.dr == 0 || d.dr == 1;
    assert d.dc == -1 || d.dc == 0 || d.dc == 1;
  }

  function RayMeasure(b: Board, p: Pos, d: Dir): nat {
    if !OnBoard(b, p) then 0
    else if d.dr > 0 then |b| - p.row
    else if d.dr < 0 then p.row + 1
    else if d.dc > 0 then |b[p.row]| - p.col
    else p.col + 1
  }

  /** The number of consecutive cells equal to `t` from `p` on, stepping by `d`. */
  function Ray(b: Board, p: Pos, d: Dir, t: Cell): nat
    requires IsUnitDir(d)
    decreases RayMeasure(b, p, d)
  {
    if Matches(b, p, t) then 1 + Ray(b, Next(p, d), d, t) else 0
  }

  lemma {:induction false} RayCovers(b: Board, p: Pos, d: Dir, t: Cell, i: int)
    requires IsUnitDir(d) && 0 <= i < Ray(b, p, d, t)
    ensures Matches(b, Along(p, d, i), t)
    decreases i
  {
    if i > 0 {
      RayCovers(b, Next(p, d), d, t, i - 1);
      assert Along(Next(p, d), d, i - 1) == Along(p, d, i);
    }
  }

  lemma {:induction false} RayStops(b: Board, p: Pos, d: Dir, t: Cell)
    requires IsUnitDir(d)
    ensures !Matches(b, Along(p, d, Ray(b, p, d, t)), t)
    decreases RayMeasure(b, p, d)
  {
    if Matches(b, p, t) {
      RayStops(b, Next(p, d), d, t);
      assert Along(Next(p, d), d, Ray(b, Next(p, d), d, t)) == Along(p, d, Ray(b, p, d, t));
    }
  }

  lemma {:induction false} RayFrom(b: Board, p: Pos, d: Dir, t: Cell, k: nat)
    requires IsUnitDir(d)
    requires forall i :: 0 <= i < k ==> Matches(b, Along(p, d, i), t)
    ensures Ray(b, p, d, t) >= k
    decreases k
  {
    if k > 0 {
      assert Along(p, d, 0) == p;
      forall i | 0 <= i < k - 1 ensures Matches(b, Along(Next(p, d), d, i), t) {
        assert Along(Next(p, d), d, i) == Along(p, d, i + 1);
      }
      RayFrom(b, Next(p, d), d, t, k - 1);
    }
  }

  /** A run is exactly `k` long when its first `k` cells match and the next does not. */
  lemma RayExact(b: Board, p: Pos, d: Dir, t: Cell, k: nat)
    requires IsUnitDir(d)
    requires forall i :: 0 <= i < k ==> Matches(b, Along(p, d, i), t)
    requires !Matches(b, Along(p, d, k), t)
    ensures Ray(b, p, d, t) == k
  {
    RayFrom(b, p, d, t, k);
    if Ray(b, p, d, t) > k {
      RayCovers(b, p, d, t, k);
    }
  }

  /** Five cells equal to `t` starting at `p` along `d`. */
  predicate FiveAt(b: Board, p: Pos, d: Dir, t: Cell) {
    forall i :: 0 <= i < 5 ==> Matches(b, Along(p, d, i), t)
  }

  /** Somewhere on the board five consecutive cells along a line equal `t`. */
  ghost predicate HasFive(b: Board, t: Cell) {
    exists r, c, d :: IsLineDir(d) && FiveAt(b, Pos(r, c), d, t)
  }

  lemma FiveIffRay(b: Board, p: Pos, d: Dir, t: Cell)
    requires IsUnitDir(d)
    ensures FiveAt(b, p, d, t) <==> Ray(b, p, d, t) >= 5
  {
    if FiveAt(b, p, d, t) {
      RayFrom(b, p, d, t, 5);
    }
    if Ray(b, p, d, t) >= 5 {
      forall i | 0 <= i < 5 ensures Matches(b, Along(p, d, i), t) {
        RayCovers(b, p, d, t, i);
      }
    }
  }

  function Cap4(x: nat): nat {
    if x < 4 then x else 4
  }

  /**
   * The count of the placed-stone win checks: the cell itself plus at most four
   * equal cells on each side of it along `d`.
   */
  function LineCount(b: Board, p: Pos, d: Dir, t: Cell): nat
    requires IsUnitDir(d)
  {
    1 + Cap4(Ray(b, Next(p, d), d, t)) + Cap4(Ray(b, Next(p, Neg(d)), Neg(d), t))
  }

  ghost predicate WinThrough(b: Board, p: Pos, t: Cell) {
    exists d :: IsLineDir(d) && LineCount(b, p, d, t) >= 5
  }

  /** The window of five along `d` that starts `s` cells behind `p`. */
  predicate FiveThrough(b: Board, p: Pos, d: Dir, t: Cell, s: int) {
    0 <= s < 5 && FiveAt(b, Along(p, Neg(d), s), d, t)
  }

  /**
   * A walk that matched steps 1 .. k-1 from `p` and stopped at step `k`, on a
   * mismatch or because `k` reached 5, has seen the run beside `p` capped at four.
   */
  lemma SideWalk(b: Board, p: Pos, d: Dir, t: Cell, k: nat)
    requires IsUnitDir(d) && 1 <= k <= 5
    requires forall i :: 1 <= i < k ==> Matches(b, Along(p, d, i), t)
    requires k < 5 ==> !Matches(b, Along(p, d, k), t)
    ensures Cap4(Ray(b, Next(p, d), d, t)) == k - 1
  {
    forall i | 0 <= i < k - 1 ensures Matches(b, Along(Next(p, d), d, i), t) {
      assert Along(Next(p, d), d, i) == Along(p, d, i + 1);
    }
    if k < 5 {
      assert Along(Next(p, d), d, k - 1) == Along(p, d, k);
      RayExact(b, Next(p, d), d, t, k - 1);
    } else {
      RayFrom(b, Next(p, d), d, t, 4);
    }
  }

  lemma AlongAdd(p: Pos, d: Dir, a: int, k: int)
    ensures Along(Along(p, d, a), d, k) == Along(p, d, a + k)
  {
  }

  lemma AlongNeg(p: Pos, d: Dir, a: int)
    ensures Along(p, Neg(d), a) == Along(p, d, -a)
  {
  }

  lemma NextIsAlong(p: Pos, d: Dir)
    requires IsUnitDir(d)
    ensures Next(p, d) == Along(p, d, 1) && Next(p, Neg(d)) == Along(p, d, -1)
  {
  }

  lemma {:induction false} LineCountToWindow(b: Board, p: Pos, d: Dir, t: Cell)
    requires IsUnitDir(d) && Matches(b, p, t)
    requires LineCount(b, p, d, t) >= 5
    ensures FiveThrough(b, p, d, t, Cap4(Ray(b, Next(p, Neg(d)), Neg(d), t)))
  {
    var fwd, back := Next(p, d), Next(p, Neg(d));
    var g: int := Cap4(Ray(b, back, Neg(d), t));
    NextIsAlong(p, d);
    var q := Along(p, Neg(d), g);
    AlongNeg(p, d, g);
    forall i | 0 <= i < 5 ensures Matches(b, Along(q, d, i), t) {
      AlongAdd(p, d, -g, i);
      if i < g {
        AlongNeg(back, d, g - i - 1);
        AlongAdd(p, d, -1, -(g - i - 1));
        RayCovers(b, back, Neg(d), t, g - i - 1);
      } else if i == g {
        assert Along(p, d, 0) == p;
      } else {
        AlongAdd(p, d, 1, i - g - 1);
        RayCovers(b, fwd, d, t, i - g - 1);
      }
    }
  }

  lemma {:induction false} WindowToLineCount(b: Board, p: Pos, d: Dir, t: Cell, s: int)
    requires IsUnitDir(d)
    requires FiveThrough(b, p, d, t, s)
    ensures LineCount(b, p, d, t) >= 5
  {
    var fwd, back := Next(p, d), Next(p, Neg(d));
    NextIsAlong(p, d);
    var q := Along(p, Neg(d), s);
    AlongNeg(p, d, s);
    forall j | 0 <= j < 4 - s ensures Matches(b, Along(fwd, d, j), t) {
      AlongAdd(p, d, 1, j);
      AlongAdd(p, d, -s, s + 1 + j);
    }
    RayFrom(b, fwd, d, t, 4 - s);
    forall j | 0 <= j < s ensures Matches(b, Along(back, Neg(d), j), t) {
      AlongNeg(back, d, j);
      AlongAdd(p, d, -1, -j);
      AlongAdd(p, d, -s, s - 1 - j);
    }
    RayFrom(b, back, Neg(d), t, s);
  }

  /**
   * Counting up to four equal cells on each side reaches five exactly when some
   * window of five along that line passes through the cell.
   */
  lemma LineCountIffWindow(b: Board, p: Pos, d: Dir, t: Cell)
    requires IsUnitDir(d) && Matches(b, p, t)
    ensures LineCount(b, p, d, t) >= 5 <==> exists s :: FiveThrough(b, p, d, t, s)
  {
    if LineCount(b, p, d, t) >= 5 {
      LineCountToWindow(b, p, d, t);
    }
    if s :| FiveThrough(b, p, d, t, s) {
      WindowToLineCount(b, p, d, t, s);
    }
  }

  /**
   * The placed-stone check fires exactly when a five-in-a-row window along one
   * of the four lines passes through the placed cell; a fired check therefore
   * shows a five somewhere on the board.
   */
  lemma WinThroughIffWindow(b: Board, p: Pos, t: Cell)
    requires Matches(b, p, t)
    ensures WinThrough(b, p, t) <==> exists d, s :: IsLineDir(d) && FiveThrough(b, p, d, t, s)
    ensures WinThrough(b, p, t) ==> HasFive(b, t)
  {
    forall d | IsLineDir(d) {
      LineCountIffWindow(b, p, d, t);
    }
    if WinThrough(b, p, t) {
      var d, s :| IsLineDir(d) && FiveThrough(b, p, d, t, s);
      var q := Along(p, Neg(d), s);
      assert FiveAt(b, Pos(q.row, q.col), d, t);
    }
  }
}
