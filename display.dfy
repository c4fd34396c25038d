/**
 * The values the game derives from its state on every render: the status
 * line, the labels of the move list and the rows of the league table.
 */
module Display {
  import opened Rules
  import opened League

  /** The text of a mark, as it is concatenated into strings. */
  function MarkText(m: Mark): string {
    if m == X then "X" else "O"
  }

  /** The digit character for `d`. */
  function Digit(d: nat): char
    requires d < 10
  {
    "0123456789"[d]
  }

  predicate IsDigit(c: char) {
    '0' <= c <= '9'
  }

  /** The value of a digit character. */
  function DigitValue(c: char): nat
    requires IsDigit(c)
  {
    c as int - '0' as int
  }

  /** The decimal text of `n`, as JavaScript converts a number to a string. */
  function DecimalText(n: nat): (s: string)
    ensures |s| >= 1
    ensures forall k :: 0 <= k < |s| ==> IsDigit(s[k])
  {
    if n < 10 then [Digit(n)] else DecimalText(n / 10) + [Digit(n % 10)]
  }

  /** The number a string of decimal digits denotes. */
  function DecimalValue(s: string): nat
    requires forall k :: 0 <= k < |s| ==> IsDigit(s[k])
  {
    if s == [] then 0
    else DecimalValue(s[..|s| - 1]) * 10 + DigitValue(s[|s| - 1])
  }

  /** Reading back the decimal text of a number gives the number. */
  lemma {:induction false} DecimalRoundTrip(n: nat)
    ensures DecimalValue(DecimalText(n)) == n
  {
    var s := DecimalText(n);
    if n < 10 {
      assert s[..|s| - 1] == [];
    } else {
      DecimalRoundTrip(n / 10);
      assert s[..|s| - 1] == DecimalText(n / 10);
    }
  }

  /** The label of the button that jumps to step `move`. */
  function MoveLabel(move: nat): string {
    if move == 0 then "Go to game start" else "Go to move #" + DecimalText(move)
  }

  /** Character 6 of a label tells the start label from the move labels. */
  lemma MoveLabelKind(move: nat)
    ensures |MoveLabel(move)| > 6
    ensures MoveLabel(move)[6] == (if move == 0 then 'g' else 'm')
  {
  }

  /** Different steps get different labels, so every button names one step. */
  lemma MoveLabelsDistinct(a: nat, b: nat)
    ensures MoveLabel(a) == MoveLabel(b) <==> a == b
  {
    MoveLabelKind(a);
    MoveLabelKind(b);
    if a != 0 && b != 0 && MoveLabel(a) == MoveLabel(b) {
      var p := "Go to move #";
      assert DecimalText(a) == MoveLabel(a)[|p|..];
      assert DecimalText(b) == MoveLabel(b)[|p|..];
      DecimalRoundTrip(a);
      DecimalRoundTrip(b);
    }
  }

  /** `gameHistory.map((step, move) => desc)`: one label per history entry. */
  function MoveList(history: seq<Board>): (labels: seq<string>)
    ensures |labels| == |history|
    ensures forall m :: 0 <= m < |labels| ==> labels[m] == MoveLabel(m)
  {
    seq(|history|, m requires 0 <= m => MoveLabel(m))
  }

  /** No two buttons of the move list carry the same label. */
  lemma MoveListDistinct(history: seq<Board>)
    ensures forall a, b :: 0 <= a < b < |history| ==> MoveList(history)[a] != MoveList(history)[b]
  {
    forall a, b | 0 <= a < b < |history|
      ensures MoveList(history)[a] != MoveList(history)[b]
    {
      MoveLabelsDistinct(a, b);
    }
  }

  /**
   * The status line for `board`: the winner when there is one, otherwise
   * the name of the player to move (X's name when `xIsNext`, else O's).
   * There is no draw message.
   */
  function StatusText(board: Board, xIsNext: bool, playerX: string, playerY: string): string {
    match Winner(board)
    case Some(w) => "Winner: " + MarkText(w)
    case None => "Next player: " + (if xIsNext then playerX else playerY)
  }

  /** A status line announces a winner. */
  predicate AnnouncesWinner(s: string) {
    |s| >= 8 && s[..8] == "Winner: "
  }

  /**
   * The status announces a winner exactly when the board has one, and then
   * names it; otherwise it names the player to move, whatever the names are.
   */
  lemma StatusReportsWinner(board: Board, xIsNext: bool, playerX: string, playerY: string)
    ensures AnnouncesWinner(StatusText(board, xIsNext, playerX, playerY)) <==> Winner(board).Some?
    ensures Winner(board).Some? ==> StatusText(board, xIsNext, playerX, playerY) == "Winner: " + MarkText(Winner(board).value)
    ensures Winner(board).None? ==> StatusText(board, xIsNext, playerX, playerY) == "Next player: " + (if xIsNext then playerX else playerY)
  {
    var s := StatusText(board, xIsNext, playerX, playerY);
    if Winner(board).None? {
      assert s[0] == 'N';
    }
  }

  /**
   * A full board without a line of either mark, which is a draw, still asks
   * for the next player's move.
   */
  lemma DrawIsNotReported(board: Board, xIsNext: bool, playerX: string, playerY: string)
    requires CountEmpty(board) == 0
    requires !HasLine(board, X) && !HasLine(board, O)
    ensures StatusText(board, xIsNext, playerX, playerY) == "Next player: " + (if xIsNext then playerX else playerY)
    ensures !AnnouncesWinner(StatusText(board, xIsNext, playerX, playerY))
  {
    WinnerSpec(board);
    StatusReportsWinner(board, xIsNext, playerX, playerY);
  }

  /** One row (mark text, wins) per key of the table, X's row before O's. */
  function LeagueRows(t: Table): (rows: seq<(string, nat)>)
    ensures |rows| == |t.Keys|
    ensures forall m :: m in t ==> (MarkText(m), t[m]) in rows
    ensures forall k :: 0 <= k < |rows| ==> exists m :: m in t && rows[k] == (MarkText(m), t[m])
  {
    var keys: set<Mark> := t.Keys;
    assert keys <= {X, O};
    assert keys == {X, O} || keys == {X} || keys == {O} || keys == {} by {
      assert forall m :: m in keys ==> m == X || m == O;
    }
    (if X in t then [(MarkText(X), t[X])] else [])
      + (if O in t then [(MarkText(O), t[O])] else [])
  }
}
