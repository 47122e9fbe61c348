/** Squares, boards and the copy-and-set step of a move on the 3×3 grid. */
module Squares {

  /** `None` stands for the source's `null` position and its `false` winner. */
  datatype Option<T> = None | Some(value: T)

  /** One square: the source's `null` is `Empty`, the strings "X" and "O" are the marks. */
  datatype Cell = Empty | X | O

  /** The side length of the grid. */
  const SIZE: nat := 3

  /** A row or column index on the grid. */
  type Index = i: int | 0 <= i < 3

  /** A board snapshot, indexed `squares[row][col]`. */
  type Board = seq<seq<Cell>>

  /** Every board the game builds has three rows of three squares. */
  predicate IsBoard(b: Board) {
    |b| == SIZE && forall r :: 0 <= r < |b| ==> |b[r]| == SIZE
  }

  /** The board the game starts from: three rows of `null`. */
  function EmptyBoard(): (b: Board)
    ensures IsBoard(b)
    ensures forall r: Index, c: Index :: b[r][c] == Empty
  {
    [[Empty, Empty, Empty], [Empty, Empty, Empty], [Empty, Empty, Empty]]
  }

  /** The mark of the player to move: X when `xIsNext`, O otherwise. */
  function Mark(xIsNext: bool): (m: Cell)
    ensures m != Empty
    ensures m == X <==> xIsNext
  {
    if xIsNext then X else O
  }

  /** A copy of `b` in which the square at row `y`, column `x` holds `m`. */
  function Placed(b: Board, y: Index, x: Index, m: Cell): (r: Board)
    requires IsBoard(b)
    ensures IsBoard(r)
    ensures r[y][x] == m
    ensures forall i: Index, j: Index :: (i != y || j != x) ==> r[i][j] == b[i][j]
  {
    b[y := b[y][x := m]]
  }

  /** The number of squares of `row` that hold `m`. */
  function CountIn(row: seq<Cell>, m: Cell): (n: nat)
    ensures n <= |row|
  {
    if row == [] then 0 else (if row[0] == m then 1 else 0) + CountIn(row[1..], m)
  }

  /** The number of squares of the board that hold `m`. */
  function Count(b: Board, m: Cell): nat
    requires IsBoard(b)
  {
    CountIn(b[0], m) + CountIn(b[1], m) + CountIn(b[2], m)
  }

  /** Overwriting one square changes the count of `m` by what left and what arrived. */
  lemma {:induction false} CountInUpdate(row: seq<Cell>, i: nat, v: Cell, m: Cell)
    requires i < |row|
    ensures CountIn(row[i := v], m)
            == CountIn(row, m) - (if row[i] == m then 1 else 0) + (if v == m then 1 else 0)
  {
    if i == 0 {
      assert row[i := v][1..] == row[1..];
    } else {
      CountInUpdate(row[1..], i - 1, v, m);
      assert row[i := v][1..] == row[1..][i - 1 := v];
    }
  }

  /** No square holds both marks, so a row has at most as many marks as squares. */
  lemma {:induction false} MarksInRow(row: seq<Cell>)
    ensures CountIn(row, X) + CountIn(row, O) <= |row|
  {
    if row != [] {
      MarksInRow(row[1..]);
    }
  }

  /** A board holds at most nine marks. */
  lemma MarksOnBoard(b: Board)
    requires IsBoard(b)
    ensures Count(b, X) + Count(b, O) <= SIZE * SIZE
  {
    MarksInRow(b[0]);
    MarksInRow(b[1]);
    MarksInRow(b[2]);
  }

  /** Placing `m` on an empty square adds one `m` and leaves every other count alone. */
  lemma PlacedCount(b: Board, y: Index, x: Index, m: Cell, n: Cell)
    requires IsBoard(b) && b[y][x] == Empty && m != Empty && n != Empty
    ensures Count(Placed(b, y, x, m), n) == Count(b, n) + (if n == m then 1 else 0)
  {
    CountInUpdate(b[y], x, m, n);
  }
}
