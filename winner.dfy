/** The win evaluator: the fixed table of lines, the first completed line, the winner and the highlight. */
module Winner {
  import opened Squares

  /** A square's coordinates, `[row, col]` in the source. */
  datatype Pos = Pos(row: Index, col: Index)

  /** Three squares that win when they hold the same mark. */
  datatype Line = Line(a: Pos, b: Pos, c: Pos)

  /** The lines in the order they are scanned: rows top to bottom, columns left to right, then the two diagonals. */
  const LINES: seq<Line> := [
    Line(Pos(0, 0), Pos(0, 1), Pos(0, 2)),
    Line(Pos(1, 0), Pos(1, 1), Pos(1, 2)),
    Line(Pos(2, 0), Pos(2, 1), Pos(2, 2)),
    Line(Pos(0, 0), Pos(1, 0), Pos(2, 0)),
    Line(Pos(0, 1), Pos(1, 1), Pos(2, 1)),
    Line(Pos(0, 2), Pos(1, 2), Pos(2, 2)),
    Line(Pos(0, 0), Pos(1, 1), Pos(2, 2)),
    Line(Pos(0, 2), Pos(1, 1), Pos(2, 0))
  ]

  /**
   * Three squares in a straight line across the grid, listed from the top (from the left for
   * a row): each step goes one right, one down, one down-right or one down-left.
   */
  predicate Straight(l: Line) {
    var dr, dc := l.b.row - l.a.row, l.b.col - l.a.col;
    && (dr, dc) in {(0, 1), (1, 0), (1, 1), (1, -1)}
    && l.c.row - l.b.row == dr && l.c.col - l.b.col == dc
  }

  /** The table holds exactly the straight lines of the grid: the three rows, three columns and two diagonals. */
  lemma LinesAreStraight(l: Line)
    ensures l in LINES <==> Straight(l)
  {
    if Straight(l) {
      var a := l.a;
      if l.a.row == l.b.row {
        assert a.col == 0;
        assert a.row == 0 || a.row == 1 || a.row == 2;
      } else if l.a.col == l.b.col {
        assert a.row == 0;
        assert a.col == 0 || a.col == 1 || a.col == 2;
      } else if l.b.col > l.a.col {
        assert a == Pos(0, 0);
      } else {
        assert a == Pos(0, 2);
      }
    }
  }

  function At(b: Board, p: Pos): Cell
    requires IsBoard(b)
  {
    b[p.row][p.col]
  }

  /** The first square of `l` holds a mark (is truthy) and the other two hold the same one. */
  predicate Completes(b: Board, l: Line)
    requires IsBoard(b)
  {
    At(b, l.a) != Empty && At(b, l.a) == At(b, l.b) && At(b, l.a) == At(b, l.c)
  }

  /** Line `k` of the table is completed and no line before it is. */
  predicate IsFirstCompleted(b: Board, k: int)
    requires IsBoard(b)
  {
    0 <= k < |LINES| && Completes(b, LINES[k])
    && forall j :: 0 <= j < k ==> !Completes(b, LINES[j])
  }

  /** Some line of the table is completed. */
  predicate HasCompletedLine(b: Board)
    requires IsBoard(b)
  {
    exists k :: 0 <= k < |LINES| && Completes(b, LINES[k])
  }

  /** The index of the first completed line at or after `from`, if there is one. */
  function FirstCompletedFrom(b: Board, from: nat): (k: Option<nat>)
    requires IsBoard(b) && from <= |LINES|
    ensures k.Some? ==> from <= k.value < |LINES| && Completes(b, LINES[k.value])
    ensures k.Some? ==> forall j :: from <= j < k.value ==> !Completes(b, LINES[j])
    ensures k.None? ==> forall j :: from <= j < |LINES| ==> !Completes(b, LINES[j])
    decreases |LINES| - from
  {
    if from == |LINES| then None
    else if Completes(b, LINES[from]) then Some(from)
    else FirstCompletedFrom(b, from + 1)
  }

  /** What `calculateWinnerPos` returns: the first completed line in table order, or none. */
  function WinnerPos(b: Board): (r: Option<Line>)
    requires IsBoard(b)
    ensures r.None? <==> !HasCompletedLine(b)
    ensures r.Some? ==> exists k :: IsFirstCompleted(b, k) && LINES[k] == r.value
  {
    match FirstCompletedFrom(b, 0)
    case None => None
    case Some(k) => assert IsFirstCompleted(b, k); Some(LINES[k])
  }

  /** The scan of `calculateWinnerPos`: walk the table and return the first completed line. */
  method CalculateWinnerPos(squares: Board) returns (r: Option<Line>)
    requires IsBoard(squares)
    ensures r == WinnerPos(squares)
  {
    for i := 0 to |LINES|
      invariant forall j :: 0 <= j < i ==> !Completes(squares, LINES[j])
    {
      var line := LINES[i];
      var a, b, c := line.a, line.b, line.c;
      if squares[a.row][a.col] != Empty
         && squares[a.row][a.col] == squares[b.row][b.col]
         && squares[a.row][a.col] == squares[c.row][c.col]
      {
        return Some(line);
      }
    }
    return None;
  }

  /** The winning mark: the mark on the first square of the first completed line. */
  function CalculateWinner(squares: Board): (w: Option<Cell>)
    requires IsBoard(squares)
    ensures w.None? <==> !HasCompletedLine(squares)
    ensures w.Some? ==> w.value != Empty
    ensures w.Some? ==> exists k :: IsFirstCompleted(squares, k)
                                    && At(squares, LINES[k].a) == w.value
                                    && At(squares, LINES[k].b) == w.value
                                    && At(squares, LINES[k].c) == w.value
  {
    match WinnerPos(squares)
    case None => None
    case Some(l) => Some(At(squares, l.a))
  }

  /** Row `r`, column `c` is one of the three squares of `l`. */
  predicate Covers(l: Line, r: int, c: int) {
    (l.a.row == r && l.a.col == c) || (l.b.row == r && l.b.col == c) || (l.c.row == r && l.c.col == c)
  }

  /** A square is highlighted exactly when it lies on the first completed line. */
  function IsWinningSquare(squares: Board, rowIndex: int, colIndex: int): (h: bool)
    requires IsBoard(squares)
    ensures h <==> exists k :: IsFirstCompleted(squares, k) && Covers(LINES[k], rowIndex, colIndex)
  {
    match WinnerPos(squares)
    case None => false
    case Some(l) => Covers(l, rowIndex, colIndex)
  }

  /** At most one index is the first completed line, so the evaluator's answer is determined. */
  lemma FirstCompletedUnique(b: Board, i: int, j: int)
    requires IsBoard(b) && IsFirstCompleted(b, i) && IsFirstCompleted(b, j)
    ensures i == j
  {
  }

  /** A highlighted square is on the grid and holds the winning mark. */
  lemma WinningSquareHoldsWinner(squares: Board, rowIndex: int, colIndex: int)
    requires IsBoard(squares) && IsWinningSquare(squares, rowIndex, colIndex)
    ensures 0 <= rowIndex < SIZE && 0 <= colIndex < SIZE
    ensures CalculateWinner(squares).Some?
    ensures squares[rowIndex][colIndex] == CalculateWinner(squares).value
  {
  }

  /** Some square is highlighted exactly when there is a winner. */
  lemma HighlightIffWinner(squares: Board)
    requires IsBoard(squares)
    ensures (exists r: Index, c: Index :: IsWinningSquare(squares, r, c)) <==> CalculateWinner(squares).Some?
  {
    if CalculateWinner(squares).Some? {
      var l := WinnerPos(squares).value;
      assert IsWinningSquare(squares, l.a.row, l.a.col);
    }
  }

  /** The starting board has no winner and nothing to highlight. */
  lemma EmptyBoardHasNoWinner()
    ensures WinnerPos(EmptyBoard()) == None
    ensures CalculateWinner(EmptyBoard()) == None
    ensures forall r: Index, c: Index :: !IsWinningSquare(EmptyBoard(), r, c)
  {
  }

  /** The board whose only marks are `m` on the three squares of `l`. */
  function LineBoard(l: Line, m: Cell): (b: Board)
    ensures IsBoard(b)
  {
    seq(SIZE, r => seq(SIZE, c => if Covers(l, r, c) then m else Empty))
  }

  /** Each line, filled with one mark on an otherwise empty board, is reported as the winning line with that mark. */
  lemma LoneLineWins(k: nat, m: Cell)
    requires k < |LINES| && m != Empty
    ensures WinnerPos(LineBoard(LINES[k], m)) == Some(LINES[k])
    ensures CalculateWinner(LineBoard(LINES[k], m)) == Some(m)
  {
    var b := LineBoard(LINES[k], m);
    assert Completes(b, LINES[k]);
    forall j | 0 <= j < k
      ensures !Completes(b, LINES[j])
    {
      assert k in {1, 2, 3, 4, 5, 6, 7};
    }
    assert IsFirstCompleted(b, k);
  }
}
