/** The texts the game shows: the status line and the description of each history entry. */
module Display {
  import opened Squares
  import opened Winner

  /** The text of a mark, as the source's strings "X" and "O". */
  function MarkText(m: Cell): string
    requires m != Empty
  {
    if m == X then "X" else "O"
  }

  /** The status line: the winner once there is one, otherwise the player to move (also on a full board). */
  function StatusText(squares: Board, xIsNext: bool): (s: string)
    requires IsBoard(squares)
    ensures s == "Winner is: X" || s == "Winner is: O" || s == "Next turn: X" || s == "Next turn: O"
  {
    match CalculateWinner(squares)
    case Some(winner) => "Winner is: " + MarkText(winner)
    case None => "Next turn: " + MarkText(Mark(xIsNext))
  }

  /** The mark named by the last character of a status line. */
  function NamedMark(s: string): Cell {
    if s == [] then Empty else if s[|s| - 1] == 'X' then X else if s[|s| - 1] == 'O' then O else Empty
  }

  /**
   * The status line announces a winner exactly when a line is completed, and it names
   * the winning mark, or when there is none the mark of the player to move.
   */
  lemma StatusAnnounces(squares: Board, xIsNext: bool)
    requires IsBoard(squares)
    ensures "Winner is: " <= StatusText(squares, xIsNext) <==> HasCompletedLine(squares)
    ensures "Next turn: " <= StatusText(squares, xIsNext) <==> !HasCompletedLine(squares)
    ensures NamedMark(StatusText(squares, xIsNext))
            == if HasCompletedLine(squares) then CalculateWinner(squares).value else Mark(xIsNext)
  {
    var s := StatusText(squares, xIsNext);
    assert s[0] == if HasCompletedLine(squares) then 'W' else 'N';
  }

  /** The decimal digit `d` as a character. */
  function Digit(d: nat): char
    requires d < 10
  {
    ('0' as int + d) as char
  }

  /** `n` written in decimal without leading zeros, as JavaScript turns a number into a string. */
  function Decimal(n: nat): (s: string)
    ensures |s| >= 1
    ensures forall i :: 0 <= i < |s| ==> '0' <= s[i] <= '9'
    ensures n >= 10 ==> s[0] != '0'
  {
    if n < 10 then [Digit(n)] else Decimal(n / 10) + [Digit(n % 10)]
  }

  /** The number a string of decimal digits denotes. */
  function DecimalValue(s: string): nat
    requires forall i :: 0 <= i < |s| ==> '0' <= s[i] <= '9'
  {
    if s == [] then 0 else DecimalValue(s[..|s| - 1]) * 10 + (s[|s| - 1] as int - '0' as int)
  }

  /** Reading back the decimal text of `n` gives `n`. */
  lemma {:induction false} DecimalRoundTrip(n: nat)
    ensures DecimalValue(Decimal(n)) == n
  {
    if n >= 10 {
      var s := Decimal(n);
      assert s[..|s| - 1] == Decimal(n / 10);
      DecimalRoundTrip(n / 10);
    }
  }

  /** Different numbers have different decimal texts. */
  lemma DecimalInjective(m: nat, n: nat)
    requires Decimal(m) == Decimal(n)
    ensures m == n
  {
    DecimalRoundTrip(m);
    DecimalRoundTrip(n);
  }

  /** The description of history entry `move` while move `currentMove` is viewed. */
  function MoveDescription(move: nat, currentMove: nat): (s: string)
    ensures move == 0 <==> s == "You're at game start" || s == "Go to game start"
  {
    if move == currentMove then
      if move == 0 then "You're at game start"
      else var s := "You're at move #" + Decimal(move); assert s[10] == 'm'; s
    else if move > 0 then var s := "Go to move #" + Decimal(move); assert s[6] == 'm'; s
    else "Go to game start"
  }

  /** Exactly the viewed entry is described as where the player is. */
  lemma DescriptionMarksViewedEntry(move: nat, currentMove: nat)
    ensures "You're at " <= MoveDescription(move, currentMove) <==> move == currentMove
    ensures "Go to " <= MoveDescription(move, currentMove) <==> move != currentMove
  {
    var s := MoveDescription(move, currentMove);
    assert s[0] == if move == currentMove then 'Y' else 'G';
  }

  /** While one move is viewed, no two history entries share a description. */
  lemma DescriptionsDistinct(m: nat, n: nat, currentMove: nat)
    requires m != n
    ensures MoveDescription(m, currentMove) != MoveDescription(n, currentMove)
  {
    var s, t := MoveDescription(m, currentMove), MoveDescription(n, currentMove);
    if m == currentMove || n == currentMove {
      assert s[0] != t[0];
    } else if m > 0 && n > 0 {
      if s == t {
        assert s[|"Go to move #"|..] == Decimal(m);
        assert t[|"Go to move #"|..] == Decimal(n);
        DecimalInjective(m, n);
      }
    } else {
      assert s[6] != t[6];
    }
  }
}
