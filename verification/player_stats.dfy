/**
 The "Player Statistics" page: the eight-figure summary of one player in one
 stage, and the win/draw/loss tally behind the bar chart, optionally limited
 to games that went to overtime.
 */
module PlayerStats {
  import opened Seqs
  import opened Matches

  /** The radio value that limits the tally to overtime games. */
  const OvertimeView: string := "overtime"

  /** The Overtime cell of a game that went to overtime. */
  const OvertimeMark: string := "Yes"

  function WentToOvertime(): Match -> bool { (m: Match) => m.overtime == OvertimeMark }

  /** The games of player `p` in stage `st`, in table order. */
  function StageGames(ms: seq<Match>, p: string, st: string): (s: seq<Match>)
    ensures forall m :: m in s <==> m in ms && m.Involves(p) && m.stage == st
    ensures |s| == 0 <==> forall m :: m in ms ==> !(m.Involves(p) && m.stage == st)
  {
    var s := Filter(Filter(ms, PlaysIn(p)), InStage(st));
    assert |s| > 0 ==> s[0] in s;
    s
  }

  /** An exact mean, with zero for an empty selection. */
  function Average(total: int, n: nat): (avg: real)
    ensures n == 0 ==> avg == 0.0
    ensures n > 0 ==> avg * n as real == total as real
  {
    if n > 0 then total as real / n as real else 0.0
  }

  /** An empty selection has no wins, losses, level games or goals. */
  lemma EmptySelectionCountsNothing(s: seq<Match>, p: string)
    ensures |s| == 0 ==> Wins(s, p) == 0 && Losses(s, p) == 0 && LevelCount(s) == 0
    ensures |s| == 0 ==> Scored(s, p) == 0 && Conceded(s, p) == 0
  {
    if |s| == 0 {
      assert s == [];
    }
  }

  /**
   The summary table of a selection: games played, won, lost and drawn, and
   goals scored and conceded. The two per-game averages are derived from them.
   */
  datatype Summary = Summary(totalGames: nat, gamesWon: nat, gamesLost: nat, gamesDrawn: nat,
                             goalsScored: int, goalsConceded: int)
  {
    /** Goals scored per game, 0 without games. */
    function AvgScored(): (avg: real)
      ensures totalGames == 0 ==> avg == 0.0
      ensures totalGames > 0 ==> avg * totalGames as real == goalsScored as real
    {
      Average(goalsScored, totalGames)
    }

    /** Goals conceded per game, 0 without games. */
    function AvgConceded(): (avg: real)
      ensures totalGames == 0 ==> avg == 0.0
      ensures totalGames > 0 ==> avg * totalGames as real == goalsConceded as real
    {
      Average(goalsConceded, totalGames)
    }
  }

  /** The summary table of player `p` in stage `st`. */
  function PlayerStageSummary(ms: seq<Match>, p: string, st: string): (r: Summary)
    ensures r.totalGames == 0 <==> forall m :: m in ms ==> !(m.Involves(p) && m.stage == st)
    ensures r.totalGames == 0 ==> r == Summary(0, 0, 0, 0, 0, 0)
  {
    var s := StageGames(ms, p, st);
    EmptySelectionCountsNothing(s, p);
    Summary(|s|, Wins(s, p), Losses(s, p), LevelCount(s), Scored(s, p), Conceded(s, p))
  }

  /**
   When no game of `p` in the stage has `p` in both slots, every game is
   exactly one of won, lost or drawn.
   */
  lemma SummaryBalances(ms: seq<Match>, p: string, st: string)
    requires NoSelfMatch(ms, p)
    ensures var r := PlayerStageSummary(ms, p, st);
      r.gamesWon + r.gamesLost + r.gamesDrawn == r.totalGames
  {
    OutcomeCountsBalance(StageGames(ms, p, st), p);
  }

  /**
   Under the same condition, goals scored plus goals conceded are all goals of
   the selected games.
   */
  lemma SummaryGoalsBalance(ms: seq<Match>, p: string, st: string)
    requires NoSelfMatch(ms, p)
    ensures var r := PlayerStageSummary(ms, p, st);
      r.goalsScored + r.goalsConceded == Sum(StageGames(ms, p, st), TotalGoals())
  {
    GoalsAddUp(StageGames(ms, p, st), p);
  }

  /**
   Under the same condition, the slot-by-slot counts and sums are the player's
   own results: games won, lost and drawn, goals for and goals against.
   */
  lemma SummaryFromPlayersView(ms: seq<Match>, p: string, st: string)
    requires NoSelfMatch(ms, p)
    ensures var r := PlayerStageSummary(ms, p, st);
      var s := StageGames(ms, p, st);
      && r.gamesWon == |Filter(s, Won(p))|
      && r.gamesLost == |Filter(s, Lost(p))|
      && r.gamesDrawn == |Filter(s, Drew(p))|
      && r.goalsScored == Sum(s, GoalsForOf(p))
      && r.goalsConceded == Sum(s, GoalsAgainstOf(p))
  {
    var s := StageGames(ms, p, st);
    WinsAreWonRecords(s, p);
    LossesAreLostRecords(s, p);
    LevelAreDrawnRecords(s, p);
    GoalSumsFromPerspective(s, p);
  }

  /** A record with `p` in both slots and unequal goals is counted both as won and as lost. */
  lemma SelfMatchCountedTwice()
    ensures var r := PlayerStageSummary([Match(Date(2020, 1, 1), "A", "A", 3, 1, "Round Robin", "No")],
                                        "A", "Round Robin");
      r.totalGames == 1 && r.gamesWon == 1 && r.gamesLost == 1 && r.gamesDrawn == 0
  {
    var m := Match(Date(2020, 1, 1), "A", "A", 3, 1, "Round Robin", "No");
    assert [m][1..] == [];
    assert Filter([m], PlaysIn("A")) == [m];
    assert StageGames([m], "A", "Round Robin") == [m];
  }

  datatype Tally = Tally(wins: nat, draws: nat, losses: nat)

  /** The games the bar chart counts: all stage games, or only overtime ones in the overtime view. */
  function TalliedGames(ms: seq<Match>, p: string, st: string, view: string): (s: seq<Match>)
    ensures view == OvertimeView ==>
      forall m :: m in s <==> m in ms && m.Involves(p) && m.stage == st && m.overtime == OvertimeMark
    ensures view != OvertimeView ==> s == StageGames(ms, p, st)
  {
    var s := StageGames(ms, p, st);
    if view == OvertimeView then Filter(s, WentToOvertime()) else s
  }

  /** The win/draw/loss bar chart of player `p` in stage `st`. */
  function WinDrawLoss(ms: seq<Match>, p: string, st: string, view: string): (t: Tally)
    ensures |TalliedGames(ms, p, st, view)| == 0 ==> t == Tally(0, 0, 0)
  {
    var s := TalliedGames(ms, p, st, view);
    EmptySelectionCountsNothing(s, p);
    Tally(Wins(s, p), LevelCount(s), Losses(s, p))
  }

  /** Outside the overtime view the chart shows the summary table's won, drawn and lost counts. */
  lemma TallyAgreesWithSummary(ms: seq<Match>, p: string, st: string, view: string)
    requires view != OvertimeView
    ensures var t := WinDrawLoss(ms, p, st, view);
      var r := PlayerStageSummary(ms, p, st);
      t.wins == r.gamesWon && t.draws == r.gamesDrawn && t.losses == r.gamesLost
  {
  }

  /** The overtime view counts a sub-selection, so none of its bars exceeds the total view's. */
  lemma OvertimeTallyBounded(ms: seq<Match>, p: string, st: string, view: string)
    requires view != OvertimeView
    ensures var ot := WinDrawLoss(ms, p, st, OvertimeView);
      var all := WinDrawLoss(ms, p, st, view);
      ot.wins <= all.wins && ot.draws <= all.draws && ot.losses <= all.losses
  {
    var s := StageGames(ms, p, st);
    FilterNarrowedCount(s, WentToOvertime(), WonAsFirst(p));
    FilterNarrowedCount(s, WentToOvertime(), WonAsSecond(p));
    FilterNarrowedCount(s, WentToOvertime(), LostAsFirst(p));
    FilterNarrowedCount(s, WentToOvertime(), LostAsSecond(p));
    FilterNarrowedCount(s, WentToOvertime(), Level());
  }

  /** Without self-matches the three bars add up to the number of tallied games. */
  lemma TallyBalances(ms: seq<Match>, p: string, st: string, view: string)
    requires NoSelfMatch(ms, p)
    ensures var t := WinDrawLoss(ms, p, st, view);
      t.wins + t.draws + t.losses == |TalliedGames(ms, p, st, view)|
  {
    OutcomeCountsBalance(TalliedGames(ms, p, st, view), p);
  }

  /** One 3-1 Round Robin win of Alice over Bob, summarised for Alice in each stage. */
  lemma SingleWinExample()
    ensures var ms := [Match(Date(2022, 5, 1), "Alice", "Bob", 3, 1, "Round Robin", "No")];
      var rr := PlayerStageSummary(ms, "Alice", "Round Robin");
      && rr == Summary(1, 1, 0, 0, 3, 1)
      && rr.AvgScored() == 3.0 && rr.AvgConceded() == 1.0
      && PlayerStageSummary(ms, "Alice", "Playoff") == Summary(0, 0, 0, 0, 0, 0)
  {
    var m := Match(Date(2022, 5, 1), "Alice", "Bob", 3, 1, "Round Robin", "No");
    assert [m][1..] == [];
    assert Filter([m], PlaysIn("Alice")) == [m];
    assert StageGames([m], "Alice", "Round Robin") == [m];
    assert Filter([m], AsFirst("Alice")) == [m];
    assert Filter([m], AsSecond("Alice")) == [];
    assert Sum([m], Goals1()) == 3;
    assert Sum([m], Goals2()) == 1;
  }
}
