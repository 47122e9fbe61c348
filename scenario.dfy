/** A complete game played through the state machine: X wins on the top row, then play branches from move 2. */
module Scenario {
  import opened Squares
  import opened Winner
  import opened Game
  import opened Display

  const B1: Board := Placed(EmptyBoard(), 0, 0, X)
  const B2: Board := Placed(B1, 1, 1, O)
  const B3: Board := Placed(B2, 0, 1, X)
  const B4: Board := Placed(B3, 2, 2, O)
  const B5: Board := Placed(B4, 0, 2, X)
  const BRANCH: Board := Placed(B2, 2, 0, X)

  /** None of the boards before X's last move has a winner; the last one is won on the top row. */
  lemma ScenarioBoards()
    ensures CalculateWinner(EmptyBoard()).None?
    ensures Accepts(EmptyBoard(), 0, 0)
    ensures Accepts(B1, 1, 1)
    ensures Accepts(B2, 0, 1)
    ensures Accepts(B3, 2, 2)
    ensures Accepts(B4, 0, 2)
    ensures Accepts(B2, 2, 0)
    ensures WinnerPos(B5) == Some(LINES[0]) && CalculateWinner(B5) == Some(X)
    ensures StatusText(B5, false) == "Winner is: X"
  {
    EmptyBoardHasNoWinner();
    assert FirstCompletedFrom(B1, 0).None?;
    assert FirstCompletedFrom(B2, 0).None?;
    assert FirstCompletedFrom(B3, 0).None?;
    assert FirstCompletedFrom(B4, 0).None?;
    assert IsFirstCompleted(B5, 0);
  }

  /** X at (0,0), then O at (1,1), played from the start. */
  method OpeningMoves(g: GameState)
    requires g.Valid() && g.history == [EmptyBoard()] && g.currentMove == 0 && g.xIsNext
    modifies g
    ensures g.Valid() && g.history == [EmptyBoard(), B1, B2] && g.currentMove == 2 && g.xIsNext
  {
    ScenarioBoards();
    g.Play(0, 0);
    assert g.history == [EmptyBoard(), B1] && g.currentMove == 1 && !g.xIsNext;
    g.Play(1, 1);
  }

  /** X at (0,1), then O at (2,2). */
  method MiddleMoves(g: GameState)
    requires g.Valid() && g.history == [EmptyBoard(), B1, B2] && g.currentMove == 2 && g.xIsNext
    modifies g
    ensures g.Valid() && g.history == [EmptyBoard(), B1, B2, B3, B4] && g.currentMove == 4 && g.xIsNext
  {
    ScenarioBoards();
    g.Play(0, 1);
    assert g.history == [EmptyBoard(), B1, B2, B3] && g.currentMove == 3 && !g.xIsNext;
    g.Play(2, 2);
  }

  /** X completes the top row at (0,2). */
  method WinningMove(g: GameState)
    requires g.Valid() && g.history == [EmptyBoard(), B1, B2, B3, B4] && g.currentMove == 4 && g.xIsNext
    modifies g
    ensures g.Valid() && g.history == [EmptyBoard(), B1, B2, B3, B4, B5] && g.currentMove == 5 && !g.xIsNext
  {
    ScenarioBoards();
    g.Play(0, 2);
  }

  /** Jumping back to move 2 of the top-row game and playing (2,0) discards moves 3 to 5. */
  method BranchFromMoveTwo(g: GameState)
    requires g.Valid() && g.history == [EmptyBoard(), B1, B2, B3, B4, B5]
    modifies g
    ensures g.Valid() && g.history == [EmptyBoard(), B1, B2, BRANCH] && g.currentMove == 3
  {
    ScenarioBoards();
    g.JumpTo(2);
    assert g.history[..3] == [EmptyBoard(), B1, B2];
    g.Play(2, 0);
  }

  /**
   * X plays (0,0), (0,1), (0,2) and O plays (1,1), (2,2): X wins on the top row and the
   * status says so; jumping back to move 2 and playing (2,0) leaves four snapshots.
   */
  method TopRowThenBranch() returns (status: string, line: Option<Line>, branchedLength: nat)
    ensures status == "Winner is: X"
    ensures line == Some(LINES[0])
    ensures branchedLength == 4
  {
    ScenarioBoards();
    var g := new GameState();
    OpeningMoves(g);
    MiddleMoves(g);
    WinningMove(g);
    assert g.CurrentSquares() == B5;
    line := CalculateWinnerPos(g.CurrentSquares());
    status := StatusText(g.CurrentSquares(), g.xIsNext);
    BranchFromMoveTwo(g);
    branchedLength := |g.history|;
  }
}
