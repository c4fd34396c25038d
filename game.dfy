/**
 * The `Game` component's state and its two click handlers. The six state
 * hooks of the component are the six fields of one object; each handler is
 * one atomic transition, since every setter it calls reads the values of
 * the render it was created in.
 */
module GameEngine {
  import opened Rules
  import opened History
  import opened League
  import opened Display

  class Game {
    var playerX: string
    var playerY: string
    var gameHistory: seq<Board>
    var stepNumber: nat
    var xIsNext: bool
    var leagueTable: Table

    /**
     * The history is one the game can build, the step points into it, the
     * turn flag is the parity of the step, and every league-table entry
     * records at least one win.
     */
    ghost predicate Valid()
      reads this
    {
      && WellFormed(gameHistory)
      && stepNumber < |gameHistory|
      && xIsNext == (stepNumber % 2 == 0)
      && Positive(leagueTable)
    }

    /** The board shown: `gameHistory[stepNumber].squares`. */
    function Current(): Board
      reads this
      requires Valid()
    {
      gameHistory[stepNumber]
    }

    /** The mark the player to move places: the mark whose turn the step's parity says it is. */
    function NextMark(): (m: Mark)
      reads this
      ensures Valid() ==> m == ToMove(stepNumber)
    {
      if xIsNext then X else O
    }

    /** A click on square `i` makes a move: the current board has no winner and `i` is empty. */
    predicate CanPlay(i: Index)
      reads this
      requires Valid()
    {
      Winner(Current()).None? && Current()[i] == Empty
    }

    /** The state on page load. */
    constructor ()
      ensures Valid()
      ensures playerX == "Player X" && playerY == "Player Y"
      ensures gameHistory == [EmptyBoard] && stepNumber == 0 && xIsNext
      ensures leagueTable == map[]
    {
      playerX := "Player X";
      playerY := "Player Y";
      gameHistory := [EmptyBoard];
      stepNumber := 0;
      xIsNext := true;
      leagueTable := map[];
    }

    /**
     * `handleClick(i)`. A click on an occupied square or on a board that
     * already has a winner changes nothing. Otherwise the history after the
     * current step is dropped, the current board with square `i` taken by
     * the player to move is appended and becomes the current step, the turn
     * passes, and the league table records the new board's winner if it has
     * one.
     */
    method HandleClick(i: Index)
      requires Valid()
      modifies this
      ensures Valid()
      ensures playerX == old(playerX) && playerY == old(playerY)
      ensures !old(CanPlay(i)) ==> unchanged(this)
      ensures old(CanPlay(i)) ==>
        && gameHistory == old(gameHistory[..stepNumber + 1]) + [old(Place(Current(), i, NextMark()))]
        && stepNumber == old(stepNumber) + 1 == |gameHistory| - 1
        && xIsNext == !old(xIsNext)
        && leagueTable == old(RecordResult(leagueTable, Winner(Place(Current(), i, NextMark()))))
      ensures forall m :: m in old(leagueTable) ==> m in leagueTable && old(leagueTable)[m] <= leagueTable[m]
    {
      var history := gameHistory[..stepNumber + 1];
      var current := history[|history| - 1];
      var squares := CopyBoard(current);

      var before := CalculateWinner(squares[..]);
      if before.Some? || squares[i] != Empty {
        return;
      }
      Play(i, squares);
    }

    /**
     * The rest of `handleClick(i)` once the guard has passed: `squares`
     * is the fresh copy of the current board.
     */
    method Play(i: Index, squares: array<Cell>)
      requires Valid() && CanPlay(i)
      requires squares[..] == Current()
      modifies this, squares
      ensures Valid()
      ensures squares[..] == gameHistory[stepNumber]
      ensures playerX == old(playerX) && playerY == old(playerY)
      ensures gameHistory == old(gameHistory[..stepNumber + 1]) + [old(Place(Current(), i, NextMark()))]
      ensures stepNumber == old(stepNumber) + 1 == |gameHistory| - 1
      ensures xIsNext == !old(xIsNext)
      ensures leagueTable == old(RecordResult(leagueTable, Winner(Place(Current(), i, NextMark()))))
      ensures forall m :: m in old(leagueTable) ==> m in leagueTable && old(leagueTable)[m] <= leagueTable[m]
    {
      var history := gameHistory[..stepNumber + 1];
      squares[i] := if xIsNext then X else O;
      var next: Board := squares[..];
      assert next == Place(old(Current()), i, NextMark());

      var winner := CalculateWinner(next);
      if winner.Some? {
        RecordWinCountsOne(leagueTable, winner.value);
        leagueTable := RecordWin(leagueTable, winner.value);
      }
      RecordResultMonotone(old(leagueTable), winner);

      ghost var step := stepNumber;
      assert ToMove(step) == NextMark();
      assert history + [next] == gameHistory[..step + 1] + [Place(gameHistory[step], i, ToMove(step))];
      ExtendWellFormed(gameHistory, step, i);
      TurnAlternates(step);
      assert |history| == step + 1;
      gameHistory := history + [next];
      stepNumber := |history|;
      xIsNext := !xIsNext;
    }

    /**
     * `jumpTo(step)`: shows the board of an earlier (or later) step of the
     * history and gives the turn to the player the step's parity says;
     * nothing is dropped from the history until the next move.
     */
    method JumpTo(step: nat)
      requires Valid()
      requires step < |gameHistory|
      modifies this
      ensures Valid()
      ensures stepNumber == step && xIsNext == (step % 2 == 0)
      ensures gameHistory == old(gameHistory) && leagueTable == old(leagueTable)
      ensures playerX == old(playerX) && playerY == old(playerY)
    {
      stepNumber := step;
      xIsNext := step % 2 == 0;
    }

    /** The `onChange` of X's name input. */
    method SetPlayerX(name: string)
      requires Valid()
      modifies this
      ensures Valid()
      ensures playerX == name && playerY == old(playerY)
      ensures gameHistory == old(gameHistory) && stepNumber == old(stepNumber)
      ensures xIsNext == old(xIsNext) && leagueTable == old(leagueTable)
    {
      playerX := name;
    }

    /** The `onChange` of O's name input (the source calls that player Y). */
    method SetPlayerY(name: string)
      requires Valid()
      modifies this
      ensures Valid()
      ensures playerY == name && playerX == old(playerX)
      ensures gameHistory == old(gameHistory) && stepNumber == old(stepNumber)
      ensures xIsNext == old(xIsNext) && leagueTable == old(leagueTable)
    {
      playerY := name;
    }

    /**
     * The status line of the current render: it announces a winner exactly
     * when the board shown has one, and otherwise names the player to move.
     */
    function Status(): (s: string)
      reads this
      requires Valid()
      ensures AnnouncesWinner(s) <==> Winner(Current()).Some?
      ensures Winner(Current()).None? ==> s == "Next player: " + (if NextMark() == X then playerX else playerY)
    {
      StatusReportsWinner(Current(), xIsNext, playerX, playerY);
      StatusText(Current(), xIsNext, playerX, playerY)
    }

    /** The labels of the move list of the current render: one per board, no two alike. */
    function Moves(): (labels: seq<string>)
      reads this
      ensures |labels| == |gameHistory|
      ensures forall a, b :: 0 <= a < b < |labels| ==> labels[a] != labels[b]
    {
      MoveListDistinct(gameHistory);
      MoveList(gameHistory)
    }

    /** The rows of the league table of the current render: one per mark that has won. */
    function Rows(): (rows: seq<(string, nat)>)
      reads this
      ensures |rows| == |leagueTable.Keys|
      ensures forall m :: m in leagueTable ==> (MarkText(m), leagueTable[m]) in rows
    {
      LeagueRows(leagueTable)
    }
  }

  /** `squares.slice()`: a fresh array holding the squares of `b`. */
  method CopyBoard(b: Board) returns (squares: array<Cell>)
    ensures fresh(squares) && squares[..] == b
  {
    squares := new Cell[9](j => if 0 <= j < 9 then b[j] else Empty);
    assert squares[..] == b;
  }

  /**
   * X at 0, O at 1, X at 4, O at 2, X at 8: X completes the diagonal
   * (0, 4, 8), the status announces X, the tally is {X: 1}, and a further
   * click changes nothing.
   */
  method DiagonalWinScenario()
  {
    var g := new Game();
    g.HandleClick(0);
    g.HandleClick(1);
    g.HandleClick(4);
    g.HandleClick(2);
    assert g.Current() == [X, O, O, Empty, X, Empty, Empty, Empty, Empty];
    g.HandleClick(8);
    var won := [X, O, O, Empty, X, Empty, Empty, Empty, X];
    assert g.Current() == won;
    assert Completes(won, Lines[6], X);
    WinnerOfReachedBoard(g.gameHistory, g.stepNumber, X);
    assert Winner(won) == Some(X);
    assert g.leagueTable == map[X := 1];
    assert g.Status() == "Winner: X";
    g.HandleClick(5);
    assert |g.gameHistory| == 6 && g.leagueTable == map[X := 1];
  }

  /**
   * X at 0, O at 3, back to game start, X at 1: the move O made is
   * discarded and the history is the start board and X at square 1.
   */
  method BranchAfterJumpScenario()
  {
    var g := new Game();
    g.HandleClick(0);
    g.HandleClick(3);
    g.JumpTo(0);
    g.HandleClick(1);
    assert |g.gameHistory| == 2;
    assert g.Current() == [Empty, X, Empty, Empty, Empty, Empty, Empty, Empty, Empty];
  }

  /** A click on a square that already holds X changes nothing. */
  method OccupiedSquareScenario()
  {
    var g := new Game();
    g.HandleClick(0);
    var before := g.gameHistory;
    g.HandleClick(0);
    assert g.gameHistory == before && g.stepNumber == 1 && !g.xIsNext && g.leagueTable == map[];
  }
}
