/** The game state: the history of snapshots, the viewed move and whose turn it is. */
module Game {
  import opened Squares
  import opened Winner

  /** A click on row `y`, column `x` is accepted: the board has no winner and the square is empty. */
  predicate Accepts(squares: Board, y: Index, x: Index)
    requires IsBoard(squares)
  {
    CalculateWinner(squares).None? && squares[y][x] == Empty
  }

  /**
   * The board's click handler: refuse a click on a won board or an occupied square,
   * otherwise copy the board and set the clicked square to the mover's mark. `Some`
   * carries the board handed on to the game; `squares` itself is a value and stays as it was.
   */
  method HandleClick(squares: Board, xIsNext: bool, y: Index, x: Index) returns (next: Option<Board>)
    requires IsBoard(squares)
    ensures next.None? <==> CalculateWinner(squares).Some? || squares[y][x] != Empty
    ensures next.Some? ==> next.value == Placed(squares, y, x, Mark(xIsNext))
  {
    if CalculateWinner(squares).Some? || squares[y][x] != Empty {
      return None;
    }
    var nextSquares := squares[y := squares[y][x := Mark(xIsNext)]];
    return Some(nextSquares);
  }

  /** Every snapshot is a 3×3 board. */
  predicate AllBoards(history: seq<Board>) {
    forall i :: 0 <= i < |history| ==> IsBoard(history[i])
  }

  /** Snapshot `i` holds exactly `i` marks, X having placed the odd-numbered ones. */
  predicate Alternating(history: seq<Board>)
    requires AllBoards(history)
  {
    forall i :: 0 <= i < |history| ==> Count(history[i], X) == (i + 1) / 2 && Count(history[i], O) == i / 2
  }

  /** Alternating snapshots cannot outnumber the nine squares plus the start. */
  lemma {:induction false} AlternatingHistoryIsShort(history: seq<Board>)
    requires AllBoards(history) && Alternating(history)
    ensures |history| <= SIZE * SIZE + 1
  {
    if |history| > 0 {
      var last := |history| - 1;
      MarksOnBoard(history[last]);
      assert Count(history[last], X) + Count(history[last], O) == last;
    }
  }

  /**
   * An accepted move from snapshot `move`, by the player the parity of `move` names,
   * keeps the history alternating after the later snapshots are discarded.
   */
  lemma AcceptedMoveAlternates(history: seq<Board>, move: nat, y: Index, x: Index)
    requires AllBoards(history) && Alternating(history) && move < |history|
    requires Accepts(history[move], y, x)
    ensures var next := history[..move + 1] + [Placed(history[move], y, x, Mark(move % 2 == 0))];
            AllBoards(next) && Alternating(next)
  {
    var squares := history[move];
    var next := history[..move + 1] + [Placed(squares, y, x, Mark(move % 2 == 0))];
    PlacedCount(squares, y, x, Mark(move % 2 == 0), X);
    PlacedCount(squares, y, x, Mark(move % 2 == 0), O);
    forall i | 0 <= i < |next|
      ensures IsBoard(next[i]) && Count(next[i], X) == (i + 1) / 2 && Count(next[i], O) == i / 2
    {
      if i <= move {
        assert next[i] == history[i];
      }
    }
  }

  class GameState {
    var history: seq<Board>
    var currentMove: nat
    var xIsNext: bool

    /** The history is never empty, the viewed move is in it, and the turn follows its parity. */
    ghost predicate Valid()
      reads this
    {
      && |history| >= 1
      && currentMove < |history|
      && AllBoards(history)
      && (xIsNext <==> currentMove % 2 == 0)
    }

    /** The snapshot on display. */
    function CurrentSquares(): (b: Board)
      reads this
      requires Valid()
      ensures IsBoard(b)
    {
      history[currentMove]
    }

    /** The game starts on one empty board at move 0 with X to move. */
    constructor ()
      ensures Valid() && Alternating(history)
      ensures history == [EmptyBoard()] && currentMove == 0 && xIsNext
    {
      history := [EmptyBoard()];
      currentMove := 0;
      xIsNext := true;
      assert Count(EmptyBoard(), X) == 0 && Count(EmptyBoard(), O) == 0;
    }

    /** Keep the history up to the viewed move, append the new board, view it and pass the turn. */
    method HandlePlay(nextSquares: Board)
      requires Valid() && IsBoard(nextSquares)
      modifies this
      ensures Valid()
      ensures history == old(history[..currentMove + 1]) + [nextSquares]
      ensures |history| == old(currentMove) + 2
      ensures currentMove == |history| - 1
      ensures xIsNext == !old(xIsNext)
    {
      var nextHistory := history[..currentMove + 1] + [nextSquares];
      history := nextHistory;
      currentMove := |nextHistory| - 1;
      xIsNext := !xIsNext;
    }

    /** View move `nextMove` and set the turn from its parity; the history is left alone. */
    method JumpTo(nextMove: nat)
      requires Valid() && nextMove < |history|
      modifies this`currentMove, this`xIsNext
      ensures Valid()
      ensures history == old(history)
      ensures currentMove == nextMove
      ensures xIsNext == (nextMove % 2 == 0)
    {
      currentMove := nextMove;
      xIsNext := nextMove % 2 == 0;
    }

    /**
     * A click on row `y`, column `x` of the viewed board: refused clicks change nothing;
     * an accepted one discards the later snapshots, appends the board with the mover's
     * mark placed, views it and passes the turn.
     */
    method Play(y: Index, x: Index)
      requires Valid()
      modifies this
      ensures Valid()
      ensures old(Accepts(history[currentMove], y, x)) ==>
                && history == old(history[..currentMove + 1] + [Placed(history[currentMove], y, x, Mark(xIsNext))])
                && currentMove == old(currentMove) + 1
                && xIsNext == !old(xIsNext)
      ensures !old(Accepts(history[currentMove], y, x)) ==>
                history == old(history) && currentMove == old(currentMove) && xIsNext == old(xIsNext)
      ensures Alternating(old(history)) ==> Alternating(history)
    {
      var squares := history[currentMove];
      var next := HandleClick(squares, xIsNext, y, x);
      if next.Some? {
        if Alternating(history) {
          AcceptedMoveAlternates(history, currentMove, y, x);
        }
        HandlePlay(next.value);
      }
    }
  }
}
