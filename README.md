# Tic-tac-toe game engine

A model of the game engine inside the `Game` React component of a browser
tic-tac-toe game. Two named players take turns marking a 3×3 board. After
each move the game checks the eight lines of the board for a winner. Every
board of the game is kept in a history that the player can step back
through. A league table counts the wins of each mark across the games of
one session.

The model has five modules:

- `Rules` (`rules.dfy`): cells (`Empty | X | O`), boards of nine cells, the
  table of eight lines, and win detection. `Winner` is the specification:
  it scans the lines in the source's order. `CalculateWinner` is the
  source's `for` loop with its early return, and is proved equal to it.
  `WinnerFromSpec` and `WinnerSpec` say what the result means.
- `History` (`history.dfy`): the invariant that every history built by the
  game satisfies (`WellFormed`). It starts with the empty board. Each later
  board adds one mark, X on odd entries and O on even ones, to a board
  that had no winner. From that invariant the module proves three
  properties. A history has at most ten boards. No reached board has lines
  of both marks. The winner of a reached board does not depend on the
  order in which lines are scanned.
- `League` (`league.dfy`): the league table as a `map<Mark, nat>` and its
  update on a win, including the source's truthiness test on the old count.
- `Display` (`display.dfy`): the status line, the move-list labels and the
  league-table rows, as functions of the state.
- `GameEngine` (`game.dfy`): the class `Game`. Its six fields are the
  component's six state hooks (`playerX`, `playerY`, `gameHistory`,
  `stepNumber`, `xIsNext`, `leagueTable`). `HandleClick` and `JumpTo` are
  the two click handlers, each one atomic transition. `Valid()` is the
  object invariant:
  - the history is well formed;
  - `stepNumber < |gameHistory|`;
  - `xIsNext == (stepNumber % 2 == 0)`;
  - every league-table count is at least 1.

  `HandleClick` copies the current board into a fresh array, as
  `slice()` does. It checks the guard on that copy, writes the mark into
  the array, and reads the new board back from it. The part after the
  guard is the helper method `Play`, so that each half is proved on its
  own. Three client methods (`DiagonalWinScenario`,
  `BranchAfterJumpScenario`, `OccupiedSquareScenario`) show what a caller can prove from the
  contracts alone.

In three places the code does less than a description of the game might
suggest. The model follows the code:

- The second player is called `playerY` in the source, though they play
  the mark O.
- There is no draw detection. A full board without a line still shows
  "Next player: …" (`DrawIsNotReported`).
- The source shows no winning-line computation that could be modelled.

## Model

| member | source | states |
|---|---|---|
| Rules.WinnerFrom | src/App/components/Game/index.js:29-40 | the definition of the in-order scan from entry k of the line table: the mark of the first line whose three squares are equal and non-empty, else null; what it means is stated by `WinnerFromSpec` |
| Rules.WinnerFromSpec | src/App/components/Game/index.js:17-41 | scanning the line table from entry k finds a mark only if one of the scanned lines has that mark in all three squares; it finds nothing exactly when no scanned line is completed by either mark |
| Rules.Winner | src/App/components/Game/index.js:17-41 | the definition of what `calculateWinner(squares)` returns: the scan from the first entry of the table; what it means is stated by `WinnerSpec` |
| Rules.CalculateWinner | src/App/components/Game/index.js:29-40 | the loop with its early return yields exactly the specification `Winner`: the mark of the first line, in table order, whose three squares are equal and non-empty, or null |
| Rules.WinnerSpec | src/App/components/Game/index.js:17-41 | the returned mark completes some row, column or diagonal; null is returned exactly when neither mark completes a line |
| Rules.WinnerIsTheLineOwner | src/App/components/Game/index.js:29-38 | when at most one mark has a line, the result is m exactly when m completes a line, so the scan order does not matter |
| Rules.EmptyBoardHasNoWinner | src/App/components/Game/index.js:10-12 | the all-null start board has no winner |
| Rules.Place | src/App/components/Game/index.js:52 | `squares[i] = mark` on the copy: square i holds the mark and every other square is kept |
| Rules.NewLineIsTheMover | src/App/components/Game/index.js:52-54 | a line that appears when a mark is placed runs through the new square and belongs to the mark just placed |
| Rules.CountAllEmpty | src/App/components/Game/index.js:11 | a board of null squares has all its squares empty |
| Rules.PlaceCountsDown | src/App/components/Game/index.js:46-52 | writing a mark into an empty square of the copy leaves exactly one empty square fewer |
| History.TurnAlternates | src/App/components/Game/index.js:64-65 | the turn flag computed from the parity of the step flips at every step |
| History.TruncateWellFormed | src/App/components/Game/index.js:44 | `gameHistory.slice(0, stepNumber + 1)` of a well-formed history is well formed |
| History.ExtendWellFormed | src/App/components/Game/index.js:44-63 | truncating to the current step and appending the current board with an empty square taken by the mark to move keeps the history well formed |
| History.EmptySquaresCountDown | src/App/components/Game/index.js:44-63 | board k of the history has exactly 9 - k empty squares |
| History.HistoryAtMostTen | src/App/components/Game/index.js:48-63 | the history never holds more than the start board and nine moves |
| History.AtMostOneLineOwner | src/App/components/Game/index.js:48-54 | no board of the history has lines of both marks |
| History.WinnerOfReachedBoard | src/App/components/Game/index.js:73-74 | on every board of the history the reported winner is m exactly when m completes a line |
| History.NoWinnerBeforeEnd | src/App/components/Game/index.js:48-50 | every board but the last of the history has no winner: no move is ever made on a won board |
| League.RecordWin | src/App/components/Game/index.js:56-60 | the winner's entry becomes 1 when absent or 0 (falsy), otherwise goes up by 1; the keys gain only the winner; every other entry is kept |
| League.RecordResult | src/App/components/Game/index.js:54-61 | the `if (winner)` update: a board without a winner leaves the table as it was; a winner gains an entry if it had none, with a count of at least 1, and every other entry is kept |
| League.RecordWinCountsOne | src/App/components/Game/index.js:55-60 | on a table of positive counts, a win adds exactly one to the winner's count (from 0 to 1 when absent), leaves the other counts alone and keeps the table positive |
| League.RecordResultMonotone | src/App/components/Game/index.js:54-61 | no count ever goes down and no mark ever drops out of the table |
| League.RecordResultTotal | src/App/components/Game/index.js:54-61 | the total number of wins goes up by one when the new board has a winner and is unchanged otherwise |
| Display.MarkText | src/App/components/Game/index.js:87 | the definition of the text of a mark, "X" or "O", as it is concatenated into the status |
| Display.DecimalText | src/App/components/Game/index.js:77 | the text of a step number is a non-empty string of decimal digits |
| Display.DecimalRoundTrip | src/App/components/Game/index.js:77 | reading back the decimal text of a step number gives the number |
| Display.MoveLabel | src/App/components/Game/index.js:77 | the definition of `desc`: "Go to game start" for move 0, else "Go to move #" and the decimal text of the move; what it means is stated by `MoveLabelsDistinct` |
| Display.MoveLabelKind | src/App/components/Game/index.js:77 | the start label and the move labels differ at character 6 ("g" against "m") |
| Display.MoveLabelsDistinct | src/App/components/Game/index.js:77 | two steps get the same label exactly when they are the same step |
| Display.MoveList | src/App/components/Game/index.js:76-83 | one label per history entry: "Go to game start" for entry 0, "Go to move #m" for entry m > 0 |
| Display.MoveListDistinct | src/App/components/Game/index.js:76-83 | no two buttons of the move list carry the same label |
| Display.StatusText | src/App/components/Game/index.js:85-90 | the definition of `status` for a board, the turn flag and the two names; what it means is stated by `StatusReportsWinner` |
| Display.StatusReportsWinner | src/App/components/Game/index.js:85-90 | the status starts with "Winner: " exactly when the board has a winner, and then names it; otherwise it is "Next player: " and the X player's name when `xIsNext`, else the other name |
| Display.DrawIsNotReported | src/App/components/Game/index.js:85-90 | a full board without a line, which is a draw, still yields "Next player: …" and never a winner announcement |
| Display.LeagueRows | src/App/components/Game/index.js:92-97 | one row per table entry, holding the mark's text and its count; every row comes from an entry |
| GameEngine.CopyBoard | src/App/components/Game/index.js:46 | the copy is a fresh array with the same nine squares as the current board |
| GameEngine.Game.constructor | src/App/components/Game/index.js:8-15 | the state on page load is names "Player X" and "Player Y", the history holding only the empty board, step 0, X to move and an empty league table; the invariant holds |
| GameEngine.Game.Current | src/App/components/Game/index.js:73 | the definition of the board shown, `gameHistory[stepNumber]`; the invariant keeps the index in range |
| GameEngine.Game.NextMark | src/App/components/Game/index.js:52 | the mark placed (X if `xIsNext` else O) is the mark whose turn the parity of the step says it is |
| GameEngine.Game.CanPlay | src/App/components/Game/index.js:48 | the definition of the guard's negation: the current board has no winner and square i is empty; `HandleClick` changes nothing exactly when it fails |
| GameEngine.Game.HandleClick | src/App/components/Game/index.js:43-66 | on a won board or an occupied square nothing changes; otherwise the history becomes `gameHistory[..stepNumber + 1]` plus the current board with square i set to X if `xIsNext` else O, the step goes up by one and is the last index, the turn flips, and the league table records the new board's winner; counts never decrease; the invariant is kept |
| GameEngine.Game.Play | src/App/components/Game/index.js:52-65 | the part of the click handler after the guard: writes the mark into the copy, which then holds the new current board, updates the league table, appends the board, advances the step and flips the turn, keeping the invariant |
| GameEngine.Game.JumpTo | src/App/components/Game/index.js:68-71 | sets the step to the requested one and `xIsNext` to its parity; history, league table and names are untouched; the invariant is kept |
| GameEngine.Game.SetPlayerX | src/App/components/Game/index.js:107 | replaces X's name and nothing else |
| GameEngine.Game.SetPlayerY | src/App/components/Game/index.js:115 | replaces the second player's name and nothing else |
| GameEngine.Game.Status | src/App/components/Game/index.js:73-90 | the status line of the current state announces a winner exactly when the board shown has one, and otherwise names the player whose mark is to move |
| GameEngine.Game.Moves | src/App/components/Game/index.js:76-83 | the move list of the current state has one label per board of the history, and no two labels are the same |
| GameEngine.Game.Rows | src/App/components/Game/index.js:92-97 | the league-table rows of the current state: one per mark that has won, each holding that mark's count |

## Left out

- Rendering: the JSX markup, the `Board` child component and the CSS classes are presentation and are not modelled.
- The winning-square highlight (`calculateWinningSquares`, line 123) is neither defined nor imported in the component, so its behaviour cannot be seen. The model does not include it. As written, unless a global of that name exists, rendering any board with a winner would throw a `ReferenceError` at line 123, so the "Winner: …" status that `StatusReportsWinner` describes would not reach the screen. The model describes the status the code computes, not what reaches the screen.
- React's `useState` machinery and setter batching are not modelled. Each handler is one atomic transition on the fields of `Game`, because every setter in it reads the values captured at render time.
- LeagueRows: lists X's row before O's instead of in the order the marks first won, because the insertion order of `Object.entries` is a display concern.
- Out-of-range square indices and steps are not modelled: `HandleClick` takes an `Index` (0..8) and `JumpTo` requires `step < |gameHistory|`, since the UI offers no other values.
- JavaScript numbers are modelled as unbounded naturals. Step numbers never exceed 9 (`HistoryAtMostTen`), so nothing is lost.
