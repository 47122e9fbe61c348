# Tic-tac-toe rules engine

A Dafny model of the rules inside the React tic-tac-toe game in `src/App.js`. It has two parts.

The **win evaluator** checks a fixed table of eight lines: three rows, three columns and two diagonals. It scans them in order and reports the first line whose three squares hold the same mark. From that line it gives the winning mark and says which squares to highlight.

The **game state** holds three things:
- the history of board snapshots;
- the index of the move being viewed;
- whose turn it is.

A click on a square is ignored once the viewed board has a winner, and ignored on an occupied square. Otherwise the board is copied with the mover's mark placed on it. The later snapshots are discarded, the new board is appended, and the turn passes. Jumping to a move only changes the viewed index and sets the turn from that index's parity.

Modules:
- `Squares` (`squares.dfy`): squares, 3×3 boards, the copy-and-set step of a move, and counts of marks.
- `Winner` (`winner.dfy`): the line table, the first-completed-line scan as a function and as a loop, the winner, and the highlight.
- `Game` (`game.dfy`): the board's click handler and the `GameState` class with `HandlePlay`, `JumpTo` and `Play`, the last being click handling followed by `HandlePlay`.
- `Display` (`display.dfy`): the status line and the history-entry descriptions, including decimal move numbers.
- `Scenario` (`scenario.dfy`): a full game played through `GameState`: X wins on the top row, then play branches from move 2.

JavaScript values map as follows:
- `null` squares are `Empty`, and the strings "X" and "O" are the marks `X` and `O`.
- The `null` and `false` results of `calculateWinnerPos` and `calculateWinner` are `None`.
- React state is three plain fields of a class, updated at once.

Besides the invariants the game keeps by construction (the history is never empty, the viewed index lies within it, every snapshot is 3×3, and X moves exactly on even indices), the model proves one more: snapshot `i` holds `(i + 1) / 2` X marks and `i / 2` O marks. It follows that the history never holds more than ten snapshots.

## Model

| member | source | states |
|---|---|---|
| `Squares.EmptyBoard` | src/App.js:67-69 | the starting board is 3×3 and every square is empty |
| `Squares.Mark` | src/App.js:22 | the mover's mark is never empty, and it is X exactly when `xIsNext` |
| `Squares.Placed` | src/App.js:19-22 | the copied board is 3×3, holds the mark at `(y, x)` and equals the old board on every other square |
| `Squares.PlacedCount` | src/App.js:16-22 | placing a mark on an empty square adds one of that mark and leaves the other mark's count alone |
| `Winner.LinesAreStraight` | src/App.js:146-187 | a line is in the table exactly when its three squares run straight across the grid, one step at a time to the right, down, down-right or down-left |
| `Winner.Completes` | src/App.js:191-195 | a line is completed when its first square holds a mark and the other two hold the same mark |
| `Winner.FirstCompletedFrom` | src/App.js:189-199 | the scan from `from` returns the first completed line at or after `from`, or nothing exactly when none of those lines is completed |
| `Winner.WinnerPos` | src/App.js:145-200 | returns nothing exactly when no line of the table holds three equal marks; otherwise it returns the line of the table that is completed first in table order |
| `Winner.CalculateWinnerPos` | src/App.js:189-199 | the loop over the table with its early return computes exactly `WinnerPos` |
| `Winner.FirstCompletedUnique` | src/App.js:189-197 | at most one index is the first completed line, so the result is deterministic |
| `Winner.LoneLineWins` | src/App.js:146-196 | for each of the eight lines, a board whose only marks fill that line is reported as won on that line, with that mark |
| `Winner.EmptyBoardHasNoWinner` | src/App.js:68 | the starting board has no winning line, no winner and no highlighted square |
| `Winner.CalculateWinner` | src/App.js:119-127 | the winner is absent exactly when no line is completed; otherwise it is a mark that fills all three squares of the first completed line |
| `Winner.IsWinningSquare` | src/App.js:129-143 | a square is highlighted exactly when it is one of the three squares of the first completed line |
| `Winner.WinningSquareHoldsWinner` | src/App.js:129-143 | a highlighted square is on the grid, and it holds the winning mark |
| `Winner.HighlightIffWinner` | src/App.js:129-143 | some square is highlighted exactly when the board has a winner |
| `Game.Accepts` | src/App.js:16 | a click is accepted when the board has no winner and the clicked square is empty |
| `Game.HandleClick` | src/App.js:15-24 | a click is refused exactly when the board has a winner or the square is occupied; otherwise the result is the old board with the mover's mark placed at `(y, x)` |
| `Game.AcceptedMoveAlternates` | src/App.js:73-78 | an accepted move by the player the viewed index's parity names keeps every snapshot 3×3, with snapshot `i` holding `(i + 1) / 2` X and `i / 2` O |
| `Game.AlternatingHistoryIsShort` | src/App.js:67-78 | an alternating history has at most ten snapshots |
| `Game.GameState.CurrentSquares` | src/App.js:71 | the viewed snapshot is a 3×3 board |
| `Game.GameState.constructor` | src/App.js:66-70 | the game starts with one empty board, move 0 viewed and X to move; the invariant and the alternation hold |
| `Game.GameState.HandlePlay` | src/App.js:73-78 | the new history is the old one up to the viewed move plus the new board; its length is the viewed move plus 2; the new board is viewed and the turn flips; the invariant is kept |
| `Game.GameState.JumpTo` | src/App.js:80-83 | the history is unchanged, the viewed move becomes `nextMove`, and X moves next exactly when `nextMove` is even; the invariant is kept |
| `Game.GameState.Play` | src/App.js:15-23 | a refused click changes no field; an accepted one discards the later snapshots, appends the viewed board with the mover's mark placed, advances the viewed move by one and flips the turn; the invariant and the alternation are kept |
| `Display.StatusText` | src/App.js:26-32 | the status line is one of "Winner is: X", "Winner is: O", "Next turn: X" and "Next turn: O" |
| `Display.StatusAnnounces` | src/App.js:26-32 | the status starts "Winner is: " exactly when a line is completed, and "Next turn: " exactly when none is (also on a full board); its last character names the winner, or else the player to move |
| `Display.Decimal` | src/App.js:91 | a move number is written as a non-empty string of decimal digits, with no leading zero |
| `Display.DecimalRoundTrip` | src/App.js:91 | reading back the decimal text of a number gives that number |
| `Display.DecimalInjective` | src/App.js:91-95 | different move numbers have different texts |
| `Display.MoveDescription` | src/App.js:85-98 | an entry is described as the game start ("You're at game start" or "Go to game start") exactly when it is move 0 |
| `Display.DescriptionMarksViewedEntry` | src/App.js:85-98 | an entry reads "You're at …" exactly when it is the viewed move, and "Go to …" otherwise |
| `Display.DescriptionsDistinct` | src/App.js:85-98 | while one move is viewed, no two history entries have the same description |
| `Scenario.ScenarioBoards` | src/App.js:119-127 | the boards of the top-row game have no winner and accept the next click until X's third mark; the final board is won on the top row by X and its status reads "Winner is: X" |
| `Scenario.OpeningMoves` | src/App.js:15-23 | from the start, clicks at (0,0) and (1,1) give three snapshots with X to move |
| `Scenario.MiddleMoves` | src/App.js:15-23 | clicks at (0,1) and (2,2) then give five snapshots with X to move |
| `Scenario.WinningMove` | src/App.js:15-23 | a click at (0,2) then gives six snapshots, the last one won by X on the top row |
| `Scenario.BranchFromMoveTwo` | src/App.js:80-83 | jumping to move 2 and clicking (2,0) leaves four snapshots, and the last three moves are gone |
| `Scenario.TopRowThenBranch` | src/App.js:65-83 | the whole game reports the top row as the winning line and "Winner is: X" as the status, and after the branch the history has 4 snapshots |

## Left out

- Rendering is not modelled: the `Square` component, `renderRow`, `renderAllRows`, JSX, the CSS class choice, and the list of history buttons (src/App.js:4-12, 34-62, 100-116). Only the description texts of the entries are modelled.
- React's `useState` and the `onPlay` and `onClick` callbacks are not modelled. The three state fields are plain class fields, and each operation updates them at once.
- Draw detection is not modelled, because the source has none. On a full board with no winner the status keeps naming the player to move.
- JavaScript's dynamic types and truthiness are not modelled. Marks and `null` are the `Cell` datatype, and `false`/`null` results are `Option`.
- Boards other than 3×3 are not modelled: the evaluator and the handlers require `IsBoard`, since the game only builds 3×3 boards. Click coordinates are typed `Index` (0 to 2), since clicks come only from the rendered squares. `JumpTo` requires an index within the history, since its buttons exist only for existing entries.
- `Game.GameState.HandlePlay` requires a 3×3 board. The source accepts any value, but its only caller passes a copy of the current board.
- `Winner.CalculateWinner` and `Winner.IsWinningSquare` are built on the function `WinnerPos`, not on the loop: a Dafny function cannot call a method. `Winner.CalculateWinnerPos` is proved to compute `WinnerPos`.
