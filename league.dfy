/**
 * The league table: wins per mark across the games of one session. A mark
 * appears as a key only once it has won.
 */
module League {
  import opened Rules

  type Table = map<Mark, nat>

  /** Every entry of the table records at least one win. */
  ghost predicate Positive(t: Table) {
    forall m :: m in t ==> t[m] >= 1
  }

  /** The number of wins recorded for `m`, 0 when it has no entry. */
  function Wins(t: Table, m: Mark): nat {
    if m in t then t[m] else 0
  }

  /**
   * `updatedLeagueTable[winner] = updatedLeagueTable[winner] ? … + 1 : 1` on
   * a copy of the table: an absent or zero (falsy) entry becomes 1, any other
   * entry goes up by one, and every other entry is kept.
   */
  function RecordWin(t: Table, w: Mark): (r: Table)
    ensures r.Keys == t.Keys + {w}
    ensures r[w] == (if w in t && t[w] != 0 then t[w] + 1 else 1)
    ensures forall m :: m in t && m != w ==> r[m] == t[m]
  {
    t[w := if w in t && t[w] != 0 then t[w] + 1 else 1]
  }

  /**
   * The table update after a move (`if (winner) { … }`): a board without a
   * winner leaves the table as it was; a winner gains an entry if it had
   * none, and no other mark is touched.
   */
  function RecordResult(t: Table, winner: Option<Mark>): (r: Table)
    ensures winner.None? ==> r == t
    ensures winner.Some? ==> r.Keys == t.Keys + {winner.value} && r[winner.value] >= 1
    ensures forall m :: m in t && (winner.None? || m != winner.value) ==> r[m] == t[m]
  {
    match winner
    case None => t
    case Some(w) => RecordWin(t, w)
  }

  /**
   * On a table whose entries are all positive, a win adds exactly one to the
   * winner's count (starting at 1), leaves every other count alone, and
   * keeps the table positive.
   */
  lemma RecordWinCountsOne(t: Table, w: Mark)
    requires Positive(t)
    ensures Wins(RecordWin(t, w), w) == Wins(t, w) + 1
    ensures forall m :: m != w ==> Wins(RecordWin(t, w), m) == Wins(t, m)
    ensures Positive(RecordWin(t, w))
  {
  }

  /** No count ever goes down, and no mark ever drops out of the table. */
  lemma RecordResultMonotone(t: Table, winner: Option<Mark>)
    ensures forall m :: m in t ==> m in RecordResult(t, winner) && t[m] <= RecordResult(t, winner)[m]
  {
  }

  /** The total number of wins recorded. */
  function TotalWins(t: Table): nat {
    Wins(t, X) + Wins(t, O)
  }

  /** Each recorded win adds exactly one to the total, and a board without a winner adds none. */
  lemma RecordResultTotal(t: Table, winner: Option<Mark>)
    requires Positive(t)
    ensures TotalWins(RecordResult(t, winner)) == TotalWins(t) + (if winner.Some? then 1 else 0)
  {
    if winner.Some? {
      RecordWinCountsOne(t, winner.value);
    }
  }
}
