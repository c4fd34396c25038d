/**
 * Cells, boards and win detection of the tic-tac-toe game.
 *
 * A square holds nothing (JavaScript `null`, falsy) or one of the two marks
 * 'X' and 'O' (truthy strings); a board is the 9-element `squares` array in
 * row-major order.
 */
module Rules {

  datatype Option<+T> = None | Some(value: T)

  datatype Cell = Empty | X | O

  /** A mark is a non-empty cell: what a player places and what can win. */
  type Mark = c: Cell | c != Empty witness X

  /** A valid square index, 0..8. */
  type Index = i: nat | i < 9

  type Board = b: seq<Cell> | |b| == 9 witness EmptyBoard

  /** `Array(9).fill(null)`, the board at game start. */
  const EmptyBoard: seq<Cell> := [Empty, Empty, Empty, Empty, Empty, Empty, Empty, Empty, Empty]

  /** A line is a triple of square indices. */
  type Line = (Index, Index, Index)

  /** The fixed table of the 3 rows, 3 columns and 2 diagonals, in the order they are checked. */
  const Lines: seq<Line> := [
    (0, 1, 2),
    (3, 4, 5),
    (6, 7, 8),
    (0, 3, 6),
    (1, 4, 7),
    (2, 5, 8),
    (0, 4, 8),
    (2, 4, 6)
  ]

  /** All three squares of `line` hold mark `m`. */
  predicate Completes(b: Board, line: Line, m: Mark) {
    b[line.0] == m && b[line.1] == m && b[line.2] == m
  }

  /** Some line of the table is completed by `m`. */
  predicate HasLine(b: Board, m: Mark) {
    exists j :: 0 <= j < |Lines| && Completes(b, Lines[j], m)
  }

  /**
   * The winner found by scanning the table from entry `k` on, in table
   * order: the mark of the first line whose three squares are equal and
   * non-empty, or None when no line from `k` on qualifies.
   */
  function WinnerFrom(b: Board, k: nat): Option<Mark>
    requires k <= |Lines|
    decreases |Lines| - k
  {
    if k == |Lines| then None
    else
      var line := Lines[k];
      if b[line.0] != Empty && b[line.0] == b[line.1] && b[line.0] == b[line.2] then Some(b[line.0])
      else WinnerFrom(b, k + 1)
  }

  /**
   * The scan from entry `k` finds a mark only when one of the lines it
   * scans is completed by that mark, and finds nothing exactly when none of
   * those lines is completed by either mark.
   */
  lemma {:induction false} WinnerFromSpec(b: Board, k: nat)
    requires k <= |Lines|
    ensures WinnerFrom(b, k).Some? ==> exists j :: k <= j < |Lines| && Completes(b, Lines[j], WinnerFrom(b, k).value)
    ensures WinnerFrom(b, k).None? <==> forall j, m: Mark :: k <= j < |Lines| ==> !Completes(b, Lines[j], m)
    decreases |Lines| - k
  {
    if k < |Lines| {
      WinnerFromSpec(b, k + 1);
    }
  }

  /** What `calculateWinner(squares)` returns: the first qualifying line's mark, or null. */
  function Winner(b: Board): Option<Mark> {
    WinnerFrom(b, 0)
  }

  /**
   * `calculateWinner`: a scan of the line table, in table order, with an
   * early return at the first line of three equal non-empty squares.
   * What the result means is stated by `WinnerSpec`.
   */
  method CalculateWinner(squares: Board) returns (w: Option<Mark>)
    ensures w == Winner(squares)
  {
    for i := 0 to |Lines|
      invariant WinnerFrom(squares, i) == Winner(squares)
    {
      var (a, b, c) := Lines[i];
      if squares[a] != Empty && squares[a] == squares[b] && squares[a] == squares[c] {
        return Some(squares[a]);
      }
    }
    return None;
  }

  /**
   * The result of `calculateWinner` is a mark that completes some line, and
   * it is null exactly when neither mark completes a line.
   */
  lemma WinnerSpec(b: Board)
    ensures Winner(b).Some? ==> HasLine(b, Winner(b).value)
    ensures Winner(b).None? <==> !HasLine(b, X) && !HasLine(b, O)
  {
    WinnerFromSpec(b, 0);
  }

  /**
   * When at most one mark completes a line (as on every board reached in a
   * game), the scan order does not matter: the winner is `m` exactly when
   * `m` completes a line.
   */
  lemma WinnerIsTheLineOwner(b: Board, m: Mark)
    requires !(HasLine(b, X) && HasLine(b, O))
    ensures Winner(b) == Some(m) <==> HasLine(b, m)
  {
    WinnerSpec(b);
  }

  /** The board at game start has no winner. */
  lemma EmptyBoardHasNoWinner()
    ensures Winner(EmptyBoard) == None
  {
    WinnerSpec(EmptyBoard);
  }

  /** `squares[i] = mark` on a copy of `b`: square `i` holds `m`, every other square is kept. */
  function Place(b: Board, i: Index, m: Mark): (r: Board)
    ensures r[i] == m
    ensures forall j :: 0 <= j < 9 && j != i ==> r[j] == b[j]
  {
    b[i := m]
  }

  /**
   * A line completed by `m'` after `m` is placed on a board where `m'`
   * had no line runs through the new square, so `m'` is `m`.
   */
  lemma NewLineIsTheMover(b: Board, i: Index, m: Mark, m': Mark)
    requires !HasLine(b, m')
    requires HasLine(Place(b, i, m), m')
    ensures m' == m
    ensures exists j :: (0 <= j < |Lines| && Completes(Place(b, i, m), Lines[j], m')
                         && (Lines[j].0 == i || Lines[j].1 == i || Lines[j].2 == i))
  {
    var after := Place(b, i, m);
    var j :| 0 <= j < |Lines| && Completes(after, Lines[j], m');
    assert !Completes(b, Lines[j], m');
    assert Lines[j].0 == i || Lines[j].1 == i || Lines[j].2 == i;
  }

  /** The number of empty squares in `s`. */
  function CountEmpty(s: seq<Cell>): (n: nat)
    ensures n <= |s|
  {
    if s == [] then 0
    else (if s[0] == Empty then 1 else 0) + CountEmpty(s[1..])
  }

  /** A sequence of empty squares counts them all. */
  lemma {:induction false} CountAllEmpty(s: seq<Cell>)
    requires forall k :: 0 <= k < |s| ==> s[k] == Empty
    ensures CountEmpty(s) == |s|
  {
    if s != [] {
      CountAllEmpty(s[1..]);
    }
  }

  /** Placing a mark on an empty square leaves one empty square fewer. */
  lemma {:induction false} PlaceCountsDown(s: seq<Cell>, i: nat, m: Mark)
    requires i < |s| && s[i] == Empty
    ensures CountEmpty(s[i := m]) == CountEmpty(s) - 1
  {
    if i == 0 {
      assert s[i := m][1..] == s[1..];
    } else {
      assert s[i := m][1..] == s[1..][i - 1 := m];
      PlaceCountsDown(s[1..], i - 1, m);
    }
  }
}
