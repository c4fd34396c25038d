/**
 * The game history: the list of boards from game start to the latest move on
 * the current line of play, and the invariant every history reached by the
 * game satisfies.
 */
module History {
  import opened Rules

  /** The mark whose turn it is at step `step`: X on even steps, O on odd ones. */
  function ToMove(step: nat): Mark {
    if step % 2 == 0 then X else O
  }

  /** The turn passes at every step. */
  lemma TurnAlternates(step: nat)
    ensures ((step + 1) % 2 == 0) == !(step % 2 == 0)
    ensures ToMove(step + 1) != ToMove(step)
  {
  }

  /** `after` is `before` with one empty square `i` set to `m`. */
  ghost predicate IsMove(before: Board, after: Board, m: Mark) {
    exists i: Index :: before[i] == Empty && after == Place(before, i, m)
  }

  /**
   * Board `k + 1` of `h` is board `k`, which had no winner, with one empty
   * square taken by the mark to move at step `k`.
   */
  ghost predicate MoveAt(h: seq<Board>, k: nat)
    requires k + 1 < |h|
  {
    Winner(h[k]).None? && IsMove(h[k], h[k + 1], ToMove(k))
  }

  /**
   * A history as the game builds it: it starts with the empty board, and
   * each later board is its predecessor, which had no winner, with one empty
   * square taken by the mark whose turn it was.
   */
  ghost predicate WellFormed(h: seq<Board>) {
    && |h| >= 1
    && h[0] == EmptyBoard
    && forall k: nat :: k + 1 < |h| ==> MoveAt(h, k)
  }

  /** Keeping the entries up to a step keeps a history well formed. */
  lemma TruncateWellFormed(h: seq<Board>, step: nat)
    requires WellFormed(h) && step < |h|
    ensures WellFormed(h[..step + 1])
  {
    var h' := h[..step + 1];
    forall k: nat | k + 1 < |h'| ensures MoveAt(h', k) {
      assert MoveAt(h, k);
      assert h'[k] == h[k] && h'[k + 1] == h[k + 1];
    }
  }

  /**
   * Truncating to `step` and appending the current board with an empty square
   * taken by the mark to move keeps a history well formed, provided the
   * current board has no winner.
   */
  lemma ExtendWellFormed(h: seq<Board>, step: nat, i: Index)
    requires WellFormed(h) && step < |h|
    requires Winner(h[step]).None? && h[step][i] == Empty
    ensures WellFormed(h[..step + 1] + [Place(h[step], i, ToMove(step))])
  {
    TruncateWellFormed(h, step);
    var h' := h[..step + 1] + [Place(h[step], i, ToMove(step))];
    forall k: nat | k + 1 < |h'| ensures MoveAt(h', k) {
      if k < step {
        assert MoveAt(h[..step + 1], k);
        assert h'[k] == h[..step + 1][k] && h'[k + 1] == h[..step + 1][k + 1];
      } else {
        assert IsMove(h'[step], h'[step + 1], ToMove(step));
      }
    }
  }

  /** Board `k` of a well-formed history has exactly `9 - k` empty squares. */
  lemma {:induction false} EmptySquaresCountDown(h: seq<Board>, k: nat)
    requires WellFormed(h) && k < |h|
    ensures CountEmpty(h[k]) == 9 - k
  {
    if k == 0 {
      CountAllEmpty(h[0]);
    } else {
      EmptySquaresCountDown(h, k - 1);
      assert MoveAt(h, k - 1);
      var i :| 0 <= i < 9 && h[k - 1][i] == Empty && h[k] == Place(h[k - 1], i, ToMove(k - 1));
      PlaceCountsDown(h[k - 1], i, ToMove(k - 1));
    }
  }

  /** A history never holds more than the start board and nine moves. */
  lemma HistoryAtMostTen(h: seq<Board>)
    requires WellFormed(h)
    ensures |h| <= 10
  {
    EmptySquaresCountDown(h, |h| - 1);
  }

  /**
   * No board of a well-formed history has lines of both marks: play stops
   * at the first win, and a new line always belongs to the mark just placed.
   */
  lemma AtMostOneLineOwner(h: seq<Board>, k: nat)
    requires WellFormed(h) && k < |h|
    ensures !(HasLine(h[k], X) && HasLine(h[k], O))
  {
    if k == 0 {
      EmptyBoardHasNoWinner();
      WinnerSpec(h[0]);
    } else {
      var before := h[k - 1];
      assert MoveAt(h, k - 1);
      var i :| 0 <= i < 9 && before[i] == Empty && h[k] == Place(before, i, ToMove(k - 1));
      WinnerSpec(before);
      if HasLine(h[k], X) && HasLine(h[k], O) {
        NewLineIsTheMover(before, i, ToMove(k - 1), X);
        NewLineIsTheMover(before, i, ToMove(k - 1), O);
      }
    }
  }

  /**
   * On every board of a well-formed history the winner reported is the
   * mark that completes a line, whatever the order the lines are scanned in.
   */
  lemma WinnerOfReachedBoard(h: seq<Board>, k: nat, m: Mark)
    requires WellFormed(h) && k < |h|
    ensures Winner(h[k]) == Some(m) <==> HasLine(h[k], m)
  {
    AtMostOneLineOwner(h, k);
    WinnerIsTheLineOwner(h[k], m);
  }

  /** Every board but the last of a well-formed history has no winner: play stops at a win. */
  lemma NoWinnerBeforeEnd(h: seq<Board>, k: nat)
    requires WellFormed(h) && k + 1 < |h|
    ensures Winner(h[k]).None?
  {
    assert MoveAt(h, k);
  }
}
