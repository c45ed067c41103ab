/**
 The match table as loaded: raw rows whose player cells may be empty, the
 load-time cleanup that drops such rows, and the roster of player names that
 fills the dashboard's player selectors.
 */
module Dataset {
  import opened Seqs
  import opened Matches

  datatype Option<T> = None | Some(value: T)

  /** A row as parsed from the table; an empty Player1 or Player2 cell is `None`. */
  datatype Row = Row(date: Date, player1: Option<string>, player2: Option<string>,
                     goals1: int, goals2: int, stage: string, overtime: string)

  predicate HasPlayers(row: Row) { row.player1.Some? && row.player2.Some? }

  function Complete(): Row -> bool { (row: Row) => HasPlayers(row) }

  /** The cleaned record of a row with both players present. */
  function ToMatch(row: Row): Match
    requires HasPlayers(row)
  {
    Match(row.date, row.player1.value, row.player2.value, row.goals1, row.goals2, row.stage, row.overtime)
  }

  /** A cleaned record written back as a row. */
  function ToRow(m: Match): (row: Row)
    ensures HasPlayers(row)
  {
    Row(m.date, Some(m.player1), Some(m.player2), m.goals1, m.goals2, m.stage, m.overtime)
  }

  function ToRows(ms: seq<Match>): (rows: seq<Row>)
    ensures |rows| == |ms|
    ensures forall i :: 0 <= i < |ms| ==> rows[i] == ToRow(ms[i])
  {
    seq(|ms|, i requires 0 <= i < |ms| => ToRow(ms[i]))
  }

  /** Drops every row that lacks Player1 or Player2; the other rows are kept as records. */
  function DropMissingPlayers(rows: seq<Row>): (ms: seq<Match>)
    ensures |ms| <= |rows|
    ensures forall m :: m in ms ==> ToRow(m) in rows
    ensures forall row :: row in rows && HasPlayers(row) ==> ToMatch(row) in ms
  {
    if |rows| == 0 then []
    else if HasPlayers(rows[0]) then [ToMatch(rows[0])] + DropMissingPlayers(rows[1..])
    else DropMissingPlayers(rows[1..])
  }

  /**
   The cleaned table, read back as rows, is exactly the subsequence of rows that
   have both players: nothing else is kept, nothing is reordered, nothing changed.
   */
  lemma {:induction false} DropMissingPlayersKeepsCompleteRows(rows: seq<Row>)
    ensures ToRows(DropMissingPlayers(rows)) == Filter(rows, Complete())
  {
    if |rows| > 0 {
      DropMissingPlayersKeepsCompleteRows(rows[1..]);
      var rest := DropMissingPlayers(rows[1..]);
      if HasPlayers(rows[0]) {
        assert ToRows([ToMatch(rows[0])] + rest) == [rows[0]] + ToRows(rest);
      }
    }
  }

  /** Cleaning a table that has no missing players changes nothing. */
  lemma {:induction false} DropMissingPlayersIdempotent(ms: seq<Match>)
    ensures DropMissingPlayers(ToRows(ms)) == ms
  {
    if |ms| > 0 {
      DropMissingPlayersIdempotent(ms[1..]);
      assert ToRows(ms)[1..] == ToRows(ms[1..]);
    }
  }

  /** The Player1 column followed by the Player2 column. */
  function PlayerColumns(ms: seq<Match>): (names: seq<string>)
    ensures |names| == 2 * |ms|
    ensures forall i :: 0 <= i < |ms| ==> names[i] == ms[i].player1 && names[|ms| + i] == ms[i].player2
  {
    seq(|ms|, i requires 0 <= i < |ms| => ms[i].player1) + seq(|ms|, i requires 0 <= i < |ms| => ms[i].player2)
  }

  lemma PlayerColumnsContents(ms: seq<Match>, n: string)
    ensures n in PlayerColumns(ms) <==> exists m :: m in ms && m.Involves(n)
  {
    var cols := PlayerColumns(ms);
    if n in cols {
      var k :| 0 <= k < |cols| && cols[k] == n;
      if k < |ms| {
        assert ms[k] in ms && ms[k].Involves(n);
      } else {
        assert ms[k - |ms|] in ms && ms[k - |ms|].Involves(n);
      }
    }
    if exists m :: m in ms && m.Involves(n) {
      var m :| m in ms && m.Involves(n);
      var i :| 0 <= i < |ms| && ms[i] == m;
      if m.player1 == n {
        assert cols[i] == n;
      } else {
        assert cols[|ms| + i] == n;
      }
    }
  }

  /**
   The distinct player names: every name in either player column and no other,
   each once, in order of first appearance scanning Player1 and then Player2.
   */
  method Roster(ms: seq<Match>) returns (names: seq<string>)
    ensures forall n :: n in names <==> n in PlayerColumns(ms)
    ensures forall n :: n in names <==> exists m :: m in ms && m.Involves(n)
    ensures forall i, j :: 0 <= i < j < |names| ==> names[i] != names[j]
    ensures forall i, j :: 0 <= i < j < |names| ==>
      FirstIndex(PlayerColumns(ms), names[i]) < FirstIndex(PlayerColumns(ms), names[j])
  {
    names := Unique(PlayerColumns(ms));
    forall n
      ensures n in names <==> exists m :: m in ms && m.Involves(n)
    {
      PlayerColumnsContents(ms, n);
    }
  }
}
